# APFS checkpoint recovery walk, modelled in Dafny

This project models the recovery walk in `afro/parse.py`. The walk reads an
APFS container image and collects the directory records it can find. The
result is a nested dictionary: transaction id (xid) -> volume name -> list
of records.

- `add_file_entries` files a source dictionary into the accumulated one, under a
  given xid and, optionally, a given volume name.
- `parse_node` turns a volume's root node into `{xid: {'unknown': records}}`.
  A node holding only pointer records (`node_type == 1`) contributes no records.
- `parse_apsb` folds over the root nodes a volume superblock lists and
  re-files them under the volume's xid and name.
- `parse_nxsb` folds over the volumes a container superblock lists and
  re-files them under the container's xid.
- `parse` parses the current container superblock. It then walks back over at most
  `xp_desc_index_len - 1` older container superblocks in the checkpoint
  descriptor area, merging each one's parse over the result with
  `{**file_entries, **older}`.

Layout:

- `results.dfy` (`Results`): `Option` and `Result`. A step that raises yields `Fail`.
- `seqs.dfy` (`Seqs`): two facts about concatenation.
- `dicts.dfy` (`Dicts`): Python dictionaries as the sequence of their items in
  insertion order, with `d[k]`, `d[k] = v`, `setdefault` and `{**a, **b}`.
- `entry_store.dfy` (`FileEntryStore`): `add_file_entries`.
  - It is a class `EntryStore` whose method `AddFileEntries` updates the field
    `entries` in place with the two nested loops of the source.
  - The method is proved against the specification function `Added`. The promised
    properties are proved about `Added` as lemmas.
- `recovery.dfy` (`Recovery`): `parse_node` as a function. `parse_apsb`,
  `parse_nxsb` and `parse` are methods with loops, each proved equal to a
  specification function (`ApsbSpec`, `NxsbSpec`, `ParseSpec`). Lemmas then state
  what those functions promise.
  - The historical loop is specified by `Walk`, which is generic over the loop body.
  - The facts about the loop (how many blocks it reads, which addresses, when it
    raises, what it merges) are proved once for any body.
  - They are then instantiated with the real iteration.

The decoder, the block reader and the object-map library are the fields of
an `Image` value. Each field is a result (`block0`), or a total function
returning one, which may be `Fail`. The walk calls them and nothing else.

Behaviours of the code that the model keeps as written:

- The next older superblock is read at `xp_desc_base + xp_desc_index + 1`
  with no wrap-around modulo the descriptor area's length (`NextAddress`,
  `ParseAddresses`).
- Only a failure inside the `try` (lines 77-81) is recovered from. A block that
  cannot be read or decoded (lines 75-76) makes `parse` raise even when earlier
  checkpoints were merged already (`ParseFailsIff`).
- Without an explicit `volume_override`, line 26 rebinds the parameter. The first
  truthy volume name of a call is then reused for every later volume of the same
  call (`FirstVolumeSticks`).
- An empty `volname` is falsy, so `parse_apsb` files its records under the
  placeholder `'unknown'` (`VolumeKey`, `ApsbSpecShape`).
- A pointer-only root node contributes an empty list. No child nodes are visited
  (`ParseNode`).
- An older superblock whose parse succeeds but whose body is not a container
  superblock's is merged first (line 78). The loop then stops at line 79 with
  that merge kept (`StepAt`, `StepMerges`).

## Model

| member | source | states |
|---|---|---|
| Dicts.SetDefault | afro/parse.py:24 | `setdefault` adds the key with the default only when it is absent, and leaves every present key's value and the rest of the dict as they were |
| Dicts.Put | afro/parse.py:28 | assigning `d[k]` gives `k` the new value, keeps every other key's value and every key's position, and appends a new key last |
| Dicts.Union | afro/parse.py:78 | `{**a, **b}` has exactly the keys of `a` and of `b` |
| Dicts.UnionItems | afro/parse.py:78 | in `{**a, **b}` a key of `b` has `b`'s value and replaces `a`'s wholesale, every other key keeps `a`'s value and position, and distinct keys stay distinct |
| Dicts.Get | afro/parse.py:25-28 | `d[k]` for a present key returns a value the dict stores under `k` (the first item with that key) |
| FileEntryStore.Append | afro/parse.py:27-28 | `setdefault(volume, list())` then `+=` extends exactly the one list under the xid and volume at its end; every other list and every xid is unchanged |
| FileEntryStore.SetDefaultWellFormed | afro/parse.py:24 | `file_entries.setdefault(xid_override, dict())` keeps both levels proper dictionaries |
| FileEntryStore.SetDefaultLookup | afro/parse.py:24 | `setdefault(xid_override, dict())` files no list, and the xid is present afterwards |
| FileEntryStore.FileVolumes | afro/parse.py:25-28 | the inner loop keeps the set of xids |
| FileEntryStore.FileVolumesOnlyAppends | afro/parse.py:25-28 | the inner loop removes no volume, only extends lists, and leaves every other xid's map as it was |
| FileEntryStore.FileSourcesOnlyAppends | afro/parse.py:23-28 | the outer loop adds `xid_override` exactly when the source is non-empty, only extends lists, and leaves other xids untouched |
| FileEntryStore.AddedOnlyAppends | afro/parse.py:22-29 | `add_file_entries` only appends: each old list is a prefix of the new one, no xid or volume is removed, no xid except `xid_override` changes, and an empty source leaves the target exactly as it was |
| FileEntryStore.FileVolumesConcat | afro/parse.py:25-28 | filing two runs of volumes one after the other is filing their concatenation |
| FileEntryStore.FileSourcesFlat | afro/parse.py:23-28 | the nested loops equal one `setdefault` of `xid_override` followed by filing all the source's volumes in iteration order |
| FileEntryStore.FileVolumesUnderOverride | afro/parse.py:26-28 | with a truthy override, the inner loop appends all the lists, in order, to the override's list, and the override stays as it was |
| FileEntryStore.FileVolumesOtherVolumes | afro/parse.py:26-28 | with a truthy override, no other volume's list changes |
| FileEntryStore.FileVolumesVolumeKeys | afro/parse.py:26-27 | with a truthy override, the only volume the inner loop can add is the override |
| FileEntryStore.AddedUnderOverride | afro/parse.py:22-29 | with an explicit non-empty `volume_override`, every source list lands in order in `target[xid_override][volume_override]`, which grows by their total length; no other volume of that xid changes |
| FileEntryStore.AddedOverrideKeys | afro/parse.py:24-27 | with an explicit non-empty `volume_override` and a non-empty source, `xid_override` is present and the only volume it gains is the override |
| FileEntryStore.FirstVolumeSticks | afro/parse.py:26 | without a truthy override, the result equals the call with the first source volume's name passed as the override |
| FileEntryStore.AddedSingle | afro/parse.py:22-29 | a source with one xid and one volume appends its one list under `volume_override or volume` |
| FileEntryStore.Or | afro/parse.py:26 | `volume_override or volume`: the reference definition the filing functions use; `OrOperands` states what it means |
| FileEntryStore.OrOperands | afro/parse.py:26 | `volume_override or volume` is one of its two operands, the override only when it is `Some`, and it is truthy exactly when the override is truthy or the volume name is non-empty |
| FileEntryStore.Truthy | afro/parse.py:26 | Python truthiness of `volume_override`: neither `None` nor the empty string; the reference definition `Or` and the sticky-name lemmas use |
| FileEntryStore.FileSources | afro/parse.py:23-28 | the reference definition of the outer loop, with the rebinding of line 26 carried along; `AddFileEntries` is proved equal to it, and the lemmas above state what it promises |
| FileEntryStore.Added | afro/parse.py:22-29 | the reference definition of `add_file_entries` that `AddFileEntries` is proved equal to; `AddedOnlyAppends`, `AddedUnderOverride`, `FirstVolumeSticks` and `AddedSingle` state its properties |
| FileEntryStore.EntryStore.constructor | afro/parse.py:39 | `dict()`: an empty, well-formed accumulator |
| FileEntryStore.EntryStore.AddFileEntries | afro/parse.py:22-29 | the nested loops update `entries` in place to `Added(old entries, ...)` and keep both levels proper dictionaries |
| Recovery.ParseNode | afro/parse.py:31-36 | the result has the single key `node.hdr.xid` with the single volume `'unknown'`, whose list is empty for `node_type == 1` and exactly the node's entries otherwise |
| Recovery.ParseApsb | afro/parse.py:38-47 | the loop over the volume's objects returns what `ApsbSpec` defines, raising where a root node cannot be resolved |
| Recovery.ApsbStep | afro/parse.py:43-45 | filing one more root node extends the one list under the volume's xid and name by that node's records |
| Recovery.ApsbFromExtends | afro/parse.py:41-45 | the rest of the loop appends the remaining root nodes' records in order, or raises exactly when one of them does not resolve |
| Recovery.ApsbSpecShape | afro/parse.py:38-47 | `parse_apsb` raises exactly when listing or resolving raises; otherwise it is empty for no objects, and else has only `apsb.hdr.xid` and the one volume `volname` (`'unknown'` when empty) holding all root nodes' records in object order |
| Recovery.ParseNxsb | afro/parse.py:49-58 | the loop over the container's objects returns what `NxsbSpec` defines, raising where a volume cannot be resolved or parsed |
| Recovery.NxsbStepKeys | afro/parse.py:54-56 | filing one volume's result under the container xid adds no other xid and keeps the dict well formed |
| Recovery.AddedOneList | afro/parse.py:22-29 | with no volume override, a source of one xid and one volume appends that list under its own volume name only |
| Recovery.NxsbStepLookup | afro/parse.py:54-56 | filing one volume's result appends, under each volume name, that volume's list for the name |
| Recovery.NxsbFromResolves | afro/parse.py:52-56 | the loop completes exactly when every listed volume resolves and parses |
| Recovery.NxsbFromKeys | afro/parse.py:52-56 | the loop adds no xid other than the container's and keeps the dict well formed |
| Recovery.NxsbFromLookup | afro/parse.py:52-56 | the loop appends, under each volume name, the volumes' lists in object order |
| Recovery.NxsbSpecLists | afro/parse.py:49-58 | `parse_nxsb` succeeds exactly when listing succeeds and every volume resolves and parses; its result has no key but `nxsb.hdr.xid`, is empty for no objects, and each volume name's list is the concatenation of the volumes' lists in object order |
| Recovery.VolumeKey | afro/parse.py:45 | with `volname` as the override of `add_file_entries`, the one volume name `parse_apsb` files under is never empty: `volname` when it is non-empty, and the placeholder `'unknown'` otherwise |
| Recovery.ApsbFrom | afro/parse.py:41-45 | the reference definition of the rest of the loop of `parse_apsb`; `ParseApsb`'s loop invariant ties it to the method and `ApsbFromExtends` gives its closed form |
| Recovery.ApsbSpec | afro/parse.py:38-47 | the reference definition of `parse_apsb` that `ParseApsb` is proved equal to; `ApsbSpecShape` gives its closed form |
| Recovery.NxsbFrom | afro/parse.py:52-56 | the reference definition of the rest of the loop of `parse_nxsb`; `ParseNxsb`'s loop invariant ties it to the method and `NxsbFromResolves`, `NxsbFromKeys` and `NxsbFromLookup` state its properties |
| Recovery.NxsbSpec | afro/parse.py:49-58 | the reference definition of `parse_nxsb` that `ParseNxsb` is proved equal to; `NxsbSpecLists` gives its closed form |
| Recovery.CurrentFails | afro/parse.py:66-69 | when the lines about the current superblock raise: `block0` fails, its body is not a container superblock's, or `parse_nxsb` raises; used by `ParseSpec` and `ParseFailsIff` |
| Recovery.NextAddress | afro/parse.py:70 | `xp_desc_base + xp_desc_index + 1`, with no wrap-around; the reference definition used at lines 70 and 79 and in `ParseAddresses` |
| Recovery.HistoryLength | afro/parse.py:71-74 | the number of iterations of `range(count - 1)`: `count - 1`, and none for a count of zero or one; used by `ParseSpec`, `ParseAddresses` and `NoHistory` |
| Recovery.DecodeAt | afro/parse.py:75-76 | reading the block at an address with the current block size and decoding it, failing when either raises; the reference definition `StepAt` and `StepOutcomes` use |
| Recovery.StepAt | afro/parse.py:75-81 | the reference definition of one iteration that `HistoryStep` is proved equal to; `StepOutcomes` and `StepMerges` state its outcomes |
| Recovery.Walk | afro/parse.py:74-81 | the reference definition of the historical loop, generic over its body, that `History` is proved equal to; `WalkAddresses`, `WalkChain`, `WalkFailsIff` and `WalkMerges` state its properties |
| Recovery.ParseSpec | afro/parse.py:60-83 | the reference definition of `parse` (result and addresses read) that `Parse` is proved equal to; `ParseFailsIff`, `ParseAddresses`, `ParseMerges` and `NoHistory` state its properties |
| Recovery.Merge | afro/parse.py:78 | `{**file_entries, **older}` when the older superblock parses and the entries unchanged when it does not; the reference fold `MergeAll` absorbs with it, and `MergeAllKeys`, `MergeAllKeeps` and `MergeAllLatest` state what it keeps |
| Recovery.Older | afro/parse.py:75-78 | what the superblock at an address contributes to the merge: its parse when it reads, decodes and parses, and nothing otherwise; `OlderWellFormed` states its shape |
| Recovery.MergeAll | afro/parse.py:74-78 | the reference fold of line 78 over the addresses read, in read order, that `WalkMerges` and `ParseMerges` equate with the loop |
| Recovery.HistoryStep | afro/parse.py:75-79 | one iteration reads and decodes the block, parses it, merges the result and computes the next address, ending as `StepAt` defines |
| Recovery.WalkAdvances | afro/parse.py:74-81 | an iteration that goes on leaves the rest of the result and of the addresses read to the rest of the loop |
| Recovery.History | afro/parse.py:73-81 | the historical loop returns and reads what `Walk` defines, with `break` at the first failing parse and propagation of a failing read or decode |
| Recovery.Parse | afro/parse.py:60-83 | `parse` returns what `ParseSpec` defines, raising when the current superblock cannot be parsed (lines 67-69), and reads the addresses `ParseSpec` lists |
| Recovery.WalkAddresses | afro/parse.py:74-79 | the loop reads at most one block per iteration left, at least one when any is left, the first at the starting address |
| Recovery.WalkChain | afro/parse.py:75-79 | each address read after the first is the successor of the one read before it |
| Recovery.WalkFailsIff | afro/parse.py:74-81 | the loop raises exactly when the last address it read raises |
| Recovery.MergeAllSnoc | afro/parse.py:78 | folding one more address last absorbs it after all the earlier ones |
| Recovery.MergeAllDropsLast | afro/parse.py:80-81 | an address that contributes nothing leaves the merge as it was |
| Recovery.WalkMerges | afro/parse.py:74-81 | when every iteration absorbs what its address contributes, the loop's result is the reference fold over the addresses read, in read order |
| Recovery.MergeAllKeys | afro/parse.py:78 | the merge keeps every xid and adds exactly the xids the older parses carry |
| Recovery.UnionWellFormed | afro/parse.py:78 | a union of two well-formed entry dicts is well formed |
| Recovery.MergeAllWellFormed | afro/parse.py:78 | merging well-formed parses keeps the result well formed |
| Recovery.MergeAllKeeps | afro/parse.py:78 | an xid that no older parse carries keeps the map it had |
| Recovery.MergeAllLatest | afro/parse.py:78 | an xid has, in the merge, the map of the last superblock read that carries it, replaced wholesale and not appended |
| Recovery.OlderWellFormed | afro/parse.py:76-78 | an older superblock's parse is well formed and carries no xid but its own |
| Recovery.StepOutcomes | afro/parse.py:75-81 | an iteration raises exactly when reading or decoding raises; a failing parse ends the loop with the entries unchanged; an iteration that goes on goes on to its address's successor |
| Recovery.StepMerges | afro/parse.py:78-79 | an iteration whose superblock parses replaces equal xids' maps by the older ones, keeps all other xids, and goes on exactly when the decoded object has a container-superblock body |
| Recovery.IterationMerges | afro/parse.py:75-81 | every iteration absorbs what its address contributes |
| Recovery.ParseFailsIff | afro/parse.py:67-81 | `parse` raises exactly when the current superblock cannot be parsed or reading/decoding the last older address raises |
| Recovery.ParseAddresses | afro/parse.py:70-79 | `parse` reads at most `max(xp_desc_index_len - 1, 0)` older blocks: the first at `xp_desc_base + xp_desc_index + 1` of the current superblock, each later one at that sum of the superblock read before it, with no wrap-around |
| Recovery.ParseMerges | afro/parse.py:69-81 | a returned result is the current parse with every older parse merged over it in read order; it is well formed and its xids are the current ones plus the older ones |
| Recovery.ParseStopsUnchanged | afro/parse.py:77-81 | when the last older superblock decodes but fails to parse, the result is exactly what it was after the iteration before |
| Recovery.NoHistory | afro/parse.py:71-74 | with `xp_desc_index_len` at most one, `parse` reads no older block and returns the current superblock's parse |
| Recovery.OneRoot | afro/parse.py:38-47 | a volume with a non-empty name and one root leaf node files exactly that node's records, in order, under its xid and name |
| Recovery.OneChild | afro/parse.py:49-58 | a container listing one volume files that volume's single list under the container's xid |
| Recovery.OneVolume | afro/parse.py:60-83 | a container with one volume, one root leaf node and no older checkpoint yields `{xid: {volname: records}}` with the records in on-disk order |

## Left out

- Byte decoding with kaitaistruct (`libapfs.Apfs`, `apfs.Obj`, `KaitaiStream`, `BytesIO`) is modelled as the `block0` and `decode` fields of `Image`, which return a superblock or `Fail`. The decoder is foreign, schema-driven code.
- `block.get_block` is modelled as the `readBlock` field. It is raw image I/O.
- `libapfs.get_apsb_objects`, `libapfs.get_nxsb_objects` and the lazy `.target` dereference are uninterpreted fields of `Image`. The object-map resolution behind them (which version of an object an xid selects) lives in a library that is not part of this model, so no rule for it is assumed.
- A failure to read `apsb.body.volname` or `apsb.hdr.xid` is folded into `volumeAt` failing, but only for a volume that lists at least one object: those fields are read only at line 45, inside the loop of `parse_apsb`. For a volume that lists no objects `volumeAt` succeeds with any name and xid, since neither is read and the source returns `{}` for it. In the same way a failure to read `node.body.node_type`, `node.hdr.xid` or `node.body.entries` (lines 34-36) is folded into `rootNodeAt` failing.
- The decoded superblocks carry an opaque `id` that stands for everything about the decoded object that the walk itself does not read. The collaborators (`containerObjects`, `volumeObjects`) may depend on it, so two volumes with the same xid and name can list different objects. The model says nothing about what the identity is. `ObjectRef` is likewise an opaque handle for one listed entry, with no rule for what its target resolves to.
- Logging, the `image_name` parameter and the module docstring are left out. They do not affect the result.
- The kind of exception is not modelled. Every raise is the single outcome `Fail`, and the bare `except` at line 80 catches all of them.
- The list `+=` at line 28 extends a list object in place. The model treats the lists as values. Every list it extends is one that `setdefault(..., list())` created inside the same dictionary, so no other object can observe the update, and the value model loses nothing.
- The dictionaries that `{**file_entries, **older}` shares with earlier results are never mutated afterwards, so the sharing is not modelled.
- `for x in range(count - 1)` is modelled as a counted `while` loop over the remaining iterations (`History`). For `count` of zero or one it does not run, as `range` of zero or a negative number does not.
- The addresses `Parse` reads are returned as a ghost output, only so that `ParseAddresses` can talk about them. The Python function returns only the entries.
