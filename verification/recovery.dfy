/**
 * The recovery walk over an APFS container image: a root node's records,
 * the root nodes of a volume superblock, the volumes of a container
 * superblock, and the walk over the current and older container
 * superblocks.
 */
module Recovery {
  import opened Results
  import opened Seqs
  import opened Dicts
  import opened FileEntryStore

  /** `node.body.node_type` of a node that holds only pointer records. */
  const PointerOnly: nat := 1

  /** The placeholder volume name under which a root node's records are filed. */
  const UnknownVolume: Volume := "unknown"

  /** A decoded B-tree root node: header xid, node type, and its records in on-disk order. */
  datatype Node<E> = Node(xid: Xid, nodeType: nat, entries: seq<E>)

  /**
   * A decoded volume superblock: an opaque identity standing for the decoded
   * object as a whole (what the object-map library may look at), its header
   * xid and `volname`.
   */
  datatype VolumeSuperblock = VolumeSuperblock(id: nat, xid: Xid, volname: Volume)

  /** The body fields of a container superblock that the walk reads. */
  datatype ContainerFields = ContainerFields(blockSize: nat, xpDescBase: nat, xpDescIndex: nat,
                                             xpDescIndexLen: nat)

  /**
   * An object decoded where a container superblock is expected: an opaque
   * identity standing for the decoded object as a whole, its header xid and,
   * when its body is a container superblock's, the body fields.
   */
  datatype ContainerSuperblock = ContainerSuperblock(id: nat, xid: Xid, body: Option<ContainerFields>)

  /** An opaque handle for one entry a superblock lists; the library resolves its target. */
  datatype ObjectRef = ObjectRef(handle: nat)

  type Block = seq<bv8>

  /**
   * The collaborators the walk calls: the structure decoder, the block
   * reader and the object-map library. Each of them may raise.
   */
  datatype Image<E> = Image(
    block0: Result<ContainerSuperblock>,                              // apfs.block0
    readBlock: (nat, nat) -> Result<Block>,                           // block.get_block(address, block_size, ...)
    decode: Block -> Result<ContainerSuperblock>,                     // apfs.Obj(KaitaiStream(BytesIO(data)), ...)
    containerObjects: ContainerSuperblock -> Result<seq<ObjectRef>>,  // libapfs.get_nxsb_objects
    volumeAt: ObjectRef -> Result<VolumeSuperblock>,                  // fs_entry.val.obj_id.target
    volumeObjects: VolumeSuperblock -> Result<seq<ObjectRef>>,        // libapfs.get_apsb_objects
    rootNodeAt: ObjectRef -> Result<Node<E>>)                         // omap_entry.val.obj_id.target

  // ---------------------------------------------------------------- parse_node

  /** `parse_node`: the node's records under its own xid and the placeholder volume. */
  function ParseNode<E>(node: Node<E>): (r: FileEntries<E>)
    ensures Keys(r) == {node.xid}
    ensures Keys(Get(r, node.xid)) == {UnknownVolume}
    ensures Lookup(r, node.xid, UnknownVolume) == if node.nodeType == PointerOnly then [] else node.entries
    ensures WellFormed(r)
  {
    var records := if node.nodeType == PointerOnly then [] else node.entries;
    Singleton(UnknownVolume, records);
    Singleton(node.xid, [(UnknownVolume, records)]);
    if node.nodeType == PointerOnly then [(node.xid, [(UnknownVolume, [])])]
    else [(node.xid, [(UnknownVolume, node.entries)])]
  }

  /** The records a root node contributes. */
  function Records<E>(node: Node<E>): seq<E>
  {
    Lookup(ParseNode(node), node.xid, UnknownVolume)
  }

  // ---------------------------------------------------------------- parse_apsb

  /** The loop of `parse_apsb` from accumulator `acc` over the remaining entries `refs`. */
  function ApsbFrom<E>(img: Image<E>, apsb: VolumeSuperblock, acc: FileEntries<E>, refs: seq<ObjectRef>)
    : Result<FileEntries<E>>
    decreases |refs|
  {
    if refs == [] then Ok(acc)
    else match img.rootNodeAt(refs[0])
      case Fail => Fail
      case Ok(node) =>
        ApsbFrom(img, apsb, Added(acc, ParseNode(node), apsb.xid, Some(apsb.volname)), refs[1..])
  }

  /** What `parse_apsb(apsb)` returns, or Fail when it raises. */
  function ApsbSpec<E>(img: Image<E>, apsb: VolumeSuperblock): Result<FileEntries<E>>
  {
    match img.volumeObjects(apsb)
    case Fail => Fail
    case Ok(refs) => ApsbFrom(img, apsb, [], refs)
  }

  method ParseApsb<E>(img: Image<E>, apsb: VolumeSuperblock) returns (r: Result<FileEntries<E>>)
    ensures r == ApsbSpec(img, apsb)
  {
    var objects := img.volumeObjects(apsb);
    if objects.Fail? {
      return Fail;
    }
    var refs := objects.value;
    var fileEntries := new EntryStore<E>();
    for i := 0 to |refs|
      invariant fileEntries.Valid()
      invariant ApsbFrom(img, apsb, fileEntries.entries, refs[i..]) == ApsbSpec(img, apsb)
    {
      assert refs[i..][1..] == refs[i + 1..];
      var rootNode := img.rootNodeAt(refs[i]);
      if rootNode.Fail? {
        return Fail;
      }
      var newFileEntries := ParseNode(rootNode.value);
      fileEntries.AddFileEntries(newFileEntries, apsb.xid, Some(apsb.volname));
    }
    r := Ok(fileEntries.entries);
  }

  /** Every root node listed in `refs` resolves. */
  predicate RootsResolve<E>(img: Image<E>, refs: seq<ObjectRef>)
  {
    refs == [] || (img.rootNodeAt(refs[0]).Ok? && RootsResolve(img, refs[1..]))
  }

  /** The records of the root nodes listed in `refs`, in order. */
  function RootEntries<E>(img: Image<E>, refs: seq<ObjectRef>): seq<E>
  {
    if refs == [] then []
    else
      (match img.rootNodeAt(refs[0]) case Ok(node) => Records(node) case Fail => [])
      + RootEntries(img, refs[1..])
  }

  /** The one volume name `parse_apsb` files under: `volname`, or the placeholder when it is empty. */
  function VolumeKey(apsb: VolumeSuperblock): (r: Volume)
    ensures r != ""
    ensures r == apsb.volname || r == UnknownVolume
    ensures apsb.volname != "" ==> r == apsb.volname
  {
    Or(Some(apsb.volname), UnknownVolume)
  }

  /** Appending to the one list of a dict with one xid and one volume. */
  lemma AppendSingle<E>(x: Xid, v: Volume, l: seq<E>, more: seq<E>)
    ensures Append([(x, [(v, l)])], x, v, more) == [(x, [(v, l + more)])]
  {
    Singleton(x, [(v, l)]);
    Singleton(v, l);
    Singleton(v, l + more);
    assert Put([(v, l)], v, l + more) == [(v, l + more)];
    assert Put([(x, [(v, l)])], x, [(v, l + more)]) == [(x, [(v, l + more)])];
  }

  /** Appending the first list to a dict with one xid and no volume. */
  lemma AppendFresh<E>(x: Xid, v: Volume, more: seq<E>)
    ensures Append([(x, [])], x, v, more) == [(x, [(v, more)])]
  {
    var noVolumes: Dict<Volume, seq<E>> := [];
    Singleton(x, noVolumes);
    Singleton(v, more);
    assert SetDefault(noVolumes, v, []) == [(v, [])];
    Unit(more);
    assert Put([(v, [])], v, more) == [(v, more)];
    assert Put([(x, noVolumes)], x, [(v, more)]) == [(x, [(v, more)])];
  }

  /** Filing one more root node under `(apsb.xid, VolumeKey(apsb))` extends that one list. */
  lemma ApsbStep<E>(apsb: VolumeSuperblock, l: seq<E>, node: Node<E>)
    ensures Added([(apsb.xid, [(VolumeKey(apsb), l)])], ParseNode(node), apsb.xid, Some(apsb.volname))
         == [(apsb.xid, [(VolumeKey(apsb), l + Records(node))])]
  {
    var t := [(apsb.xid, [(VolumeKey(apsb), l)])];
    AddedSingle(t, node.xid, UnknownVolume, Records(node), apsb.xid, Some(apsb.volname));
    Singleton(apsb.xid, [(VolumeKey(apsb), l)]);
    assert SetDefault(t, apsb.xid, []) == t;
    AppendSingle(apsb.xid, VolumeKey(apsb), l, Records(node));
  }

  lemma {:induction false} ApsbFromExtends<E>(img: Image<E>, apsb: VolumeSuperblock, l: seq<E>, refs: seq<ObjectRef>)
    ensures ApsbFrom(img, apsb, [(apsb.xid, [(VolumeKey(apsb), l)])], refs)
         == if RootsResolve(img, refs) then Ok([(apsb.xid, [(VolumeKey(apsb), l + RootEntries(img, refs))])])
            else Fail
    decreases |refs|
  {
    if refs == [] {
      Unit(l);
    } else {
      match img.rootNodeAt(refs[0])
      case Fail =>
      case Ok(node) =>
        ApsbStep(apsb, l, node);
        ApsbFromExtends(img, apsb, l + Records(node), refs[1..]);
        assert RootEntries(img, refs) == Records(node) + RootEntries(img, refs[1..]);
        Assoc(l, Records(node), RootEntries(img, refs[1..]));
    }
  }

  /**
   * `parse_apsb` raises exactly when listing the objects or resolving one of
   * the root nodes raises; otherwise it returns no key but `apsb.xid`, no
   * volume but `volname` (the placeholder when `volname` is empty), the
   * records of all root nodes in object order, and an empty dict when there
   * are no objects.
   */
  lemma ApsbSpecShape<E>(img: Image<E>, apsb: VolumeSuperblock)
    ensures ApsbSpec(img, apsb)
         == match img.volumeObjects(apsb)
            case Fail => Fail
            case Ok(refs) =>
              if !RootsResolve(img, refs) then Fail
              else if refs == [] then Ok([])
              else Ok([(apsb.xid, [(VolumeKey(apsb), RootEntries(img, refs))])])
  {
    match img.volumeObjects(apsb)
    case Fail =>
    case Ok(refs) =>
      if refs != [] {
        match img.rootNodeAt(refs[0])
        case Fail =>
        case Ok(node) =>
          var first := Added([], ParseNode(node), apsb.xid, Some(apsb.volname));
          AddedSingle([], node.xid, UnknownVolume, Records(node), apsb.xid, Some(apsb.volname));
          var empty: FileEntries<E> := [];
          var noVolumes: Dict<Volume, seq<E>> := [];
          assert SetDefault(empty, apsb.xid, noVolumes) == [(apsb.xid, noVolumes)];
          AppendFresh(apsb.xid, VolumeKey(apsb), Records(node));
          assert first == [(apsb.xid, [(VolumeKey(apsb), Records(node))])];
          ApsbFromExtends(img, apsb, Records(node), refs[1..]);
      }
  }

  // ---------------------------------------------------------------- parse_nxsb

  /** The loop of `parse_nxsb` from accumulator `acc` over the remaining entries `refs`. */
  function NxsbFrom<E>(img: Image<E>, nxsb: ContainerSuperblock, acc: FileEntries<E>, refs: seq<ObjectRef>)
    : Result<FileEntries<E>>
    decreases |refs|
  {
    if refs == [] then Ok(acc)
    else match img.volumeAt(refs[0])
      case Fail => Fail
      case Ok(apsb) =>
        match ApsbSpec(img, apsb)
        case Fail => Fail
        case Ok(child) => NxsbFrom(img, nxsb, Added(acc, child, nxsb.xid, None), refs[1..])
  }

  /** What `parse_nxsb(nxsb)` returns, or Fail when it raises. */
  function NxsbSpec<E>(img: Image<E>, nxsb: ContainerSuperblock): Result<FileEntries<E>>
  {
    match img.containerObjects(nxsb)
    case Fail => Fail
    case Ok(refs) => NxsbFrom(img, nxsb, [], refs)
  }

  method ParseNxsb<E>(img: Image<E>, nxsb: ContainerSuperblock) returns (r: Result<FileEntries<E>>)
    ensures r == NxsbSpec(img, nxsb)
  {
    var objects := img.containerObjects(nxsb);
    if objects.Fail? {
      return Fail;
    }
    var refs := objects.value;
    var fileEntries := new EntryStore<E>();
    for i := 0 to |refs|
      invariant fileEntries.Valid()
      invariant NxsbFrom(img, nxsb, fileEntries.entries, refs[i..]) == NxsbSpec(img, nxsb)
    {
      assert refs[i..][1..] == refs[i + 1..];
      var apsb := img.volumeAt(refs[i]);
      if apsb.Fail? {
        return Fail;
      }
      var newFileEntries := ParseApsb(img, apsb.value);
      if newFileEntries.Fail? {
        return Fail;
      }
      fileEntries.AddFileEntries(newFileEntries.value, nxsb.xid, None);
    }
    r := Ok(fileEntries.entries);
  }

  /** Every volume listed in `refs` resolves and parses. */
  predicate VolumesResolve<E>(img: Image<E>, refs: seq<ObjectRef>)
  {
    refs == []
    || (&& img.volumeAt(refs[0]).Ok?
        && ApsbSpec(img, img.volumeAt(refs[0]).value).Ok?
        && VolumesResolve(img, refs[1..]))
  }

  /** The list that the volume listed as `ref` returns under volume name `v`. */
  function ChildEntries<E>(img: Image<E>, ref: ObjectRef, v: Volume): seq<E>
  {
    match img.volumeAt(ref)
    case Fail => []
    case Ok(apsb) =>
      match ApsbSpec(img, apsb)
      case Fail => []
      case Ok(child) => Lookup(child, apsb.xid, v)
  }

  /** The lists that the volumes listed in `refs` return under `v`, concatenated in order. */
  function VolumeEntries<E>(img: Image<E>, refs: seq<ObjectRef>, v: Volume): seq<E>
  {
    if refs == [] then [] else ChildEntries(img, refs[0], v) + VolumeEntries(img, refs[1..], v)
  }

  /** The result of the volume listed as `ref`, when it resolves and parses. */
  function ChildOf<E>(img: Image<E>, ref: ObjectRef): FileEntries<E>
    requires img.volumeAt(ref).Ok? && ApsbSpec(img, img.volumeAt(ref).value).Ok?
  {
    ApsbSpec(img, img.volumeAt(ref).value).value
  }

  /** Filing one volume's result under the container xid adds no other xid and keeps the dict well formed. */
  lemma NxsbStepKeys<E>(img: Image<E>, nxsb: ContainerSuperblock, acc: FileEntries<E>, ref: ObjectRef)
    requires Keys(acc) <= {nxsb.xid}
    requires img.volumeAt(ref).Ok? && ApsbSpec(img, img.volumeAt(ref).value).Ok?
    ensures Keys(Added(acc, ChildOf(img, ref), nxsb.xid, None)) <= {nxsb.xid}
    ensures WellFormed(acc) ==> WellFormed(Added(acc, ChildOf(img, ref), nxsb.xid, None))
  {
    AddedOnlyAppends(acc, ChildOf(img, ref), nxsb.xid, None);
  }

  /** Filing, with no volume override, a source of one xid and one volume appends that one list. */
  lemma AddedOneList<E>(acc: FileEntries<E>, x: Xid, k: Volume, l: seq<E>, xidOverride: Xid, v: Volume)
    ensures Lookup(Added(acc, [(x, [(k, l)])], xidOverride, None), xidOverride, v)
         == Lookup(acc, xidOverride, v) + if v == k then l else []
  {
    AddedSingle(acc, x, k, l, xidOverride, None);
    var withXid := SetDefault(acc, xidOverride, []);
    SetDefaultLookup(acc, xidOverride);
    assert Or(None, k) == k;
    var r := Append(withXid, xidOverride, k, l);
    if v != k {
      assert Lookup(r, xidOverride, v) == Lookup(withXid, xidOverride, v);
      Unit(Lookup(acc, xidOverride, v));
    }
  }

  /** Filing one volume's result under the container xid appends its list under `v`. */
  lemma NxsbStepLookup<E>(img: Image<E>, nxsb: ContainerSuperblock, acc: FileEntries<E>, ref: ObjectRef, v: Volume)
    requires img.volumeAt(ref).Ok? && ApsbSpec(img, img.volumeAt(ref).value).Ok?
    ensures Lookup(Added(acc, ChildOf(img, ref), nxsb.xid, None), nxsb.xid, v)
         == Lookup(acc, nxsb.xid, v) + ChildEntries(img, ref, v)
  {
    var apsb := img.volumeAt(ref).value;
    var child := ChildOf(img, ref);
    ApsbSpecShape(img, apsb);
    if child == [] {
      assert Added(acc, child, nxsb.xid, None) == acc;
      Unit(Lookup(acc, nxsb.xid, v));
    } else {
      var k := VolumeKey(apsb);
      var l := RootEntries(img, img.volumeObjects(apsb).value);
      assert child == [(apsb.xid, [(k, l)])];
      AddedOneList(acc, apsb.xid, k, l, nxsb.xid, v);
      Singleton(apsb.xid, [(k, l)]);
      Singleton(k, l);
      assert ChildEntries(img, ref, v) == if v == k then l else [];
    }
  }

  /** `parse_nxsb`'s loop completes exactly when every listed volume resolves and parses. */
  lemma {:induction false} NxsbFromResolves<E>(img: Image<E>, nxsb: ContainerSuperblock, acc: FileEntries<E>,
                                               refs: seq<ObjectRef>)
    ensures NxsbFrom(img, nxsb, acc, refs).Ok? <==> VolumesResolve(img, refs)
    decreases |refs|
  {
    if refs != [] && VolumesResolve(img, refs) {
      NxsbFromResolves(img, nxsb, Added(acc, ChildOf(img, refs[0]), nxsb.xid, None), refs[1..]);
    } else if refs != [] && img.volumeAt(refs[0]).Ok? && ApsbSpec(img, img.volumeAt(refs[0]).value).Ok? {
      NxsbFromResolves(img, nxsb, Added(acc, ChildOf(img, refs[0]), nxsb.xid, None), refs[1..]);
    }
  }

  /** `parse_nxsb`'s loop adds no xid but the container's and keeps the dict well formed. */
  lemma {:induction false} NxsbFromKeys<E>(img: Image<E>, nxsb: ContainerSuperblock, acc: FileEntries<E>,
                                           refs: seq<ObjectRef>)
    requires Keys(acc) <= {nxsb.xid}
    ensures NxsbFrom(img, nxsb, acc, refs).Ok? ==>
      var m := NxsbFrom(img, nxsb, acc, refs).value;
      && Keys(m) <= {nxsb.xid}
      && (WellFormed(acc) ==> WellFormed(m))
      && (refs == [] ==> m == acc)
    decreases |refs|
  {
    if refs != [] && img.volumeAt(refs[0]).Ok? && ApsbSpec(img, img.volumeAt(refs[0]).value).Ok? {
      NxsbStepKeys(img, nxsb, acc, refs[0]);
      NxsbFromKeys(img, nxsb, Added(acc, ChildOf(img, refs[0]), nxsb.xid, None), refs[1..]);
    }
  }

  /** `parse_nxsb`'s loop appends, under each volume name, the volumes' lists in object order. */
  lemma {:induction false} NxsbFromLookup<E>(img: Image<E>, nxsb: ContainerSuperblock, acc: FileEntries<E>,
                                             refs: seq<ObjectRef>, v: Volume)
    ensures NxsbFrom(img, nxsb, acc, refs).Ok? ==>
      Lookup(NxsbFrom(img, nxsb, acc, refs).value, nxsb.xid, v)
        == Lookup(acc, nxsb.xid, v) + VolumeEntries(img, refs, v)
    decreases |refs|
  {
    if refs == [] {
      Unit(Lookup(acc, nxsb.xid, v));
    } else if img.volumeAt(refs[0]).Ok? && ApsbSpec(img, img.volumeAt(refs[0]).value).Ok? {
      var next := Added(acc, ChildOf(img, refs[0]), nxsb.xid, None);
      assert NxsbFrom(img, nxsb, acc, refs) == NxsbFrom(img, nxsb, next, refs[1..]);
      NxsbStepLookup(img, nxsb, acc, refs[0], v);
      NxsbFromLookup(img, nxsb, next, refs[1..], v);
      var before := Lookup(acc, nxsb.xid, v);
      var child := ChildEntries(img, refs[0], v);
      var later := VolumeEntries(img, refs[1..], v);
      assert VolumeEntries(img, refs, v) == child + later;
      Assoc(before, child, later);
    }
  }

  /**
   * `parse_nxsb` raises exactly when listing the volumes, resolving one or
   * parsing one raises; otherwise it returns a dict with no key but
   * `nxsb.xid`, where each volume name's list is the concatenation of the
   * volumes' lists under that name in object order, and an empty dict when
   * there are no objects.
   */
  lemma NxsbSpecLists<E>(img: Image<E>, nxsb: ContainerSuperblock)
    ensures NxsbSpec(img, nxsb).Ok?
        <==> img.containerObjects(nxsb).Ok? && VolumesResolve(img, img.containerObjects(nxsb).value)
    ensures NxsbSpec(img, nxsb).Ok? ==>
      var refs := img.containerObjects(nxsb).value;
      var m := NxsbSpec(img, nxsb).value;
      && Keys(m) <= {nxsb.xid}
      && WellFormed(m)
      && (refs == [] ==> m == [])
      && forall v :: Lookup(m, nxsb.xid, v) == VolumeEntries(img, refs, v)
  {
    if img.containerObjects(nxsb).Ok? {
      var refs := img.containerObjects(nxsb).value;
      NxsbFromResolves(img, nxsb, [], refs);
      NxsbFromKeys(img, nxsb, [], refs);
      forall v ensures NxsbSpec(img, nxsb).Ok? ==>
                         Lookup(NxsbSpec(img, nxsb).value, nxsb.xid, v) == VolumeEntries(img, refs, v) {
        NxsbFromLookup(img, nxsb, [], refs, v);
      }
    }
  }

  // ---------------------------------------------------------------- parse

  /** Lines 75-76: read the block at `address` and decode it. */
  function DecodeAt<E>(img: Image<E>, blockSize: nat, address: nat): Result<ContainerSuperblock>
  {
    match img.readBlock(address, blockSize)
    case Fail => Fail
    case Ok(data) => img.decode(data)
  }

  /** `xp_desc_base + xp_desc_index + 1`: the next address, with no wrap-around. */
  function NextAddress(f: ContainerFields): nat
  {
    f.xpDescBase + f.xpDescIndex + 1
  }

  /** `range(count - 1)` with `count = xp_desc_index_len`: how many older superblocks the loop may read. */
  function HistoryLength(f: ContainerFields): nat
  {
    if f.xpDescIndexLen >= 1 then f.xpDescIndexLen - 1 else 0
  }

  /**
   * How one iteration of the historical loop ends: it raises, it stops the
   * loop with the entries it holds, or it goes on from `next`.
   */
  datatype Step<E> = Raised | Stopped(entries: FileEntries<E>) | Continued(entries: FileEntries<E>, next: nat)

  /** One iteration of the historical loop (lines 75-81) at address `prev`. */
  function StepAt<E>(img: Image<E>, blockSize: nat, entries: FileEntries<E>, prev: nat): Step<E>
  {
    match DecodeAt(img, blockSize, prev)
    case Fail => Raised
    case Ok(nxsb) =>
      match NxsbSpec(img, nxsb)
      case Fail => Stopped(entries)
      case Ok(older) =>
        var merged := Union(entries, older);
        match nxsb.body
        case None => Stopped(merged)
        case Some(f) => Continued(merged, NextAddress(f))
  }

  method HistoryStep<E>(img: Image<E>, blockSize: nat, fileEntries: FileEntries<E>, prevNxsb: nat)
    returns (step: Step<E>)
    ensures step == StepAt(img, blockSize, fileEntries, prevNxsb)
  {
    var data := img.readBlock(prevNxsb, blockSize);
    if data.Fail? {
      return Raised;
    }
    var nxsb := img.decode(data.value);
    if nxsb.Fail? {
      return Raised;
    }
    var newFileEntries := ParseNxsb(img, nxsb.value);
    if newFileEntries.Fail? {
      return Stopped(fileEntries);
    }
    var merged := Union(fileEntries, newFileEntries.value);
    if nxsb.value.body.None? {
      return Stopped(merged);
    }
    step := Continued(merged, NextAddress(nxsb.value.body.value));
  }

  /** The historical loop body at any accumulated entries and address. */
  function Iteration<E>(img: Image<E>, blockSize: nat): (FileEntries<E>, nat) -> Step<E>
  {
    (entries: FileEntries<E>, prev: nat) => StepAt(img, blockSize, entries, prev)
  }

  /** What a walk returns (Fail when it raises) and the addresses it read, in order. */
  datatype Walked<E> = Walked(result: Result<FileEntries<E>>, addresses: seq<nat>)

  /**
   * The historical loop (lines 74-81) with `remaining` iterations left,
   * over the loop body `step`: stated for any body, so that the facts about
   * the loop itself are independent of what one iteration parses.
   */
  function Walk<E>(step: (FileEntries<E>, nat) -> Step<E>, entries: FileEntries<E>, prev: nat, remaining: nat)
    : Walked<E>
    decreases remaining
  {
    if remaining == 0 then Walked(Ok(entries), [])
    else match step(entries, prev)
      case Raised => Walked(Fail, [prev])
      case Stopped(last) => Walked(Ok(last), [prev])
      case Continued(merged, next) =>
        var rest := Walk(step, merged, next, remaining - 1);
        Walked(rest.result, [prev] + rest.addresses)
  }

  /** An iteration that goes on leaves the rest of the loop, and of its reads, to the next address. */
  lemma WalkAdvances<E>(step: (FileEntries<E>, nat) -> Step<E>, goal: Walked<E>, done: seq<nat>,
                        entries: FileEntries<E>, prev: nat, remaining: nat, s: Step<E>)
    requires remaining > 0 && s == step(entries, prev) && s.Continued?
    requires Walk(step, entries, prev, remaining).result == goal.result
    requires done + Walk(step, entries, prev, remaining).addresses == goal.addresses
    ensures Walk(step, s.entries, s.next, remaining - 1).result == goal.result
    ensures (done + [prev]) + Walk(step, s.entries, s.next, remaining - 1).addresses == goal.addresses
  {
    Assoc(done, [prev], Walk(step, s.entries, s.next, remaining - 1).addresses);
  }

  /** The current superblock cannot be parsed: lines 67-69 raise. */
  predicate CurrentFails<E>(img: Image<E>)
  {
    img.block0.Fail? || img.block0.value.body.None? || NxsbSpec(img, img.block0.value).Fail?
  }

  /** What `parse(image)` returns (Fail when it raises) and the addresses it read. */
  function ParseSpec<E>(img: Image<E>): Walked<E>
  {
    if CurrentFails(img) then Walked(Fail, [])
    else
      var f := img.block0.value.body.value;
      Walk(Iteration(img, f.blockSize), NxsbSpec(img, img.block0.value).value, NextAddress(f), HistoryLength(f))
  }

  /**
   * The historical loop (lines 73-81): at most `count` older superblocks,
   * the first at `prevNxsb`, merged over `fileEntries`.
   */
  method History<E>(img: Image<E>, blockSize: nat, fileEntries: FileEntries<E>, prevNxsb: nat, count: nat)
    returns (r: Result<FileEntries<E>>, ghost addresses: seq<nat>)
    ensures r == Walk(Iteration(img, blockSize), fileEntries, prevNxsb, count).result
    ensures addresses == Walk(Iteration(img, blockSize), fileEntries, prevNxsb, count).addresses
  {
    ghost var body := Iteration(img, blockSize);
    ghost var goal := Walk(body, fileEntries, prevNxsb, count);
    var entries := fileEntries;
    var prev := prevNxsb;
    var left := count;
    addresses := [];
    while left > 0
      invariant Walk(body, entries, prev, left).result == goal.result
      invariant addresses + Walk(body, entries, prev, left).addresses == goal.addresses
    {
      ghost var done := addresses;
      ghost var previous := entries;
      ghost var address := prev;
      var step := HistoryStep(img, blockSize, entries, prev);
      assert step == body(entries, prev);
      addresses := addresses + [prev];
      if step.Raised? {
        return Fail, addresses;
      }
      entries := step.entries;
      if step.Stopped? {
        break;
      }
      WalkAdvances(body, goal, done, previous, address, left, step);
      prev := step.next;
      left := left - 1;
    }
    r := Ok(entries);
  }

  /** `parse`: the current superblock, then the older ones along the checkpoint descriptor area. */
  method Parse<E>(img: Image<E>) returns (r: Result<FileEntries<E>>, ghost addresses: seq<nat>)
    ensures r == ParseSpec(img).result && addresses == ParseSpec(img).addresses
  {
    if img.block0.Fail? {
      return Fail, [];
    }
    var nxsb := img.block0.value;
    if nxsb.body.None? {
      return Fail, [];
    }
    var blockSize := nxsb.body.value.blockSize;
    var fileEntries := ParseNxsb(img, nxsb);
    if fileEntries.Fail? {
      return Fail, [];
    }
    var prevNxsb := NextAddress(nxsb.body.value);
    var count := HistoryLength(nxsb.body.value);
    r, addresses := History(img, blockSize, fileEntries.value, prevNxsb, count);
  }

  // ---------------------------------------------------------------- properties of the loop

  /** The loop reads at most `remaining` addresses, at least one when any iteration is left, the first at `prev`. */
  lemma {:induction false} WalkAddresses<E>(step: (FileEntries<E>, nat) -> Step<E>, entries: FileEntries<E>,
                                            prev: nat, remaining: nat)
    ensures var w := Walk(step, entries, prev, remaining);
      && |w.addresses| <= remaining
      && (w.addresses == [] <==> remaining == 0)
      && (w.addresses != [] ==> w.addresses[0] == prev)
    decreases remaining
  {
    var s := step(entries, prev);
    if remaining > 0 && s.Continued? {
      WalkAddresses(step, s.entries, s.next, remaining - 1);
    }
  }

  /** When every iteration that goes on goes on to `successor` of its address, so do the addresses the loop reads. */
  lemma {:induction false} WalkChain<E>(step: (FileEntries<E>, nat) -> Step<E>, successor: nat -> Option<nat>,
                                        entries: FileEntries<E>, prev: nat, remaining: nat)
    requires forall e, a :: step(e, a).Continued? ==> successor(a) == Some(step(e, a).next)
    ensures var w := Walk(step, entries, prev, remaining);
      forall k :: 0 <= k < |w.addresses| - 1 ==> successor(w.addresses[k]) == Some(w.addresses[k + 1])
    decreases remaining
  {
    var s := step(entries, prev);
    if remaining > 0 && s.Continued? {
      var rest := Walk(step, s.entries, s.next, remaining - 1);
      var w := Walk(step, entries, prev, remaining);
      WalkAddresses(step, s.entries, s.next, remaining - 1);
      WalkChain(step, successor, s.entries, s.next, remaining - 1);
      assert w.addresses == [prev] + rest.addresses;
      forall k | 0 <= k < |w.addresses| - 1
        ensures successor(w.addresses[k]) == Some(w.addresses[k + 1])
      {
        if k > 0 {
          assert w.addresses[k] == rest.addresses[k - 1] && w.addresses[k + 1] == rest.addresses[k];
        }
      }
    }
  }

  /** When an iteration raises exactly at the addresses where `raises` holds, the loop raises exactly when it does at the last address. */
  lemma {:induction false} WalkFailsIff<E>(step: (FileEntries<E>, nat) -> Step<E>, raises: nat -> bool,
                                           entries: FileEntries<E>, prev: nat, remaining: nat)
    requires forall e, a :: step(e, a).Raised? <==> raises(a)
    ensures var w := Walk(step, entries, prev, remaining);
      (w.result.Fail? <==> w.addresses != [] && raises(w.addresses[|w.addresses| - 1]))
    decreases remaining
  {
    var s := step(entries, prev);
    if remaining > 0 && s.Continued? {
      var rest := Walk(step, s.entries, s.next, remaining - 1);
      WalkFailsIff(step, raises, s.entries, s.next, remaining - 1);
      if rest.addresses != [] {
        assert ([prev] + rest.addresses)[|rest.addresses|] == rest.addresses[|rest.addresses| - 1];
      }
    }
  }

  /** Line 78, `{**entries, **older}`, when the superblock read contributes `older`. */
  function Merge<E>(entries: FileEntries<E>, older: Option<FileEntries<E>>): FileEntries<E>
  {
    match older
    case Some(o) => Union(entries, o)
    case None => entries
  }

  /** Merging what the superblock at each address contributes. */
  function MergeWith<E>(older: nat -> Option<FileEntries<E>>): (FileEntries<E>, nat) -> FileEntries<E>
  {
    (entries: FileEntries<E>, a: nat) => Merge(entries, older(a))
  }

  /** An iteration that does not raise ends, or goes on, with `absorbed`. */
  ghost predicate Absorbs<E>(s: Step<E>, absorbed: FileEntries<E>)
  {
    match s
    case Raised => true
    case Stopped(last) => last == absorbed
    case Continued(merged, _) => merged == absorbed
  }

  /** The xids that the contributions at `addresses` carry. */
  function ReplacedKeys<E>(older: nat -> Option<FileEntries<E>>, addresses: seq<nat>): set<Xid>
  {
    if addresses == [] then {}
    else
      (match older(addresses[0]) case Some(o) => Keys(o) case None => {})
      + ReplacedKeys(older, addresses[1..])
  }

  /**
   * The reference fold: `entries`, then each address in `addresses`
   * absorbed in read order; with `MergeWith(older)`, each contribution
   * merged over the entries so far with `{**entries, **older}`.
   */
  function MergeAll<E>(absorb: (FileEntries<E>, nat) -> FileEntries<E>, entries: FileEntries<E>,
                       addresses: seq<nat>): FileEntries<E>
    decreases |addresses|
  {
    if addresses == [] then entries
    else MergeAll(absorb, absorb(entries, addresses[0]), addresses[1..])
  }

  /** Absorbing one more address first. */
  lemma MergeAllCons<E>(absorb: (FileEntries<E>, nat) -> FileEntries<E>, entries: FileEntries<E>, a: nat,
                        rest: seq<nat>)
    ensures MergeAll(absorb, entries, [a] + rest) == MergeAll(absorb, absorb(entries, a), rest)
  {
    assert ([a] + rest)[1..] == rest;
  }

  /** Absorbing one address. */
  lemma MergeAllOne<E>(absorb: (FileEntries<E>, nat) -> FileEntries<E>, entries: FileEntries<E>, a: nat)
    ensures MergeAll(absorb, entries, [a]) == absorb(entries, a)
  {
    assert [a][1..] == [];
  }

  /** Absorbing one more address last. */
  lemma {:induction false} MergeAllSnoc<E>(absorb: (FileEntries<E>, nat) -> FileEntries<E>, entries: FileEntries<E>,
                                           addresses: seq<nat>, a: nat)
    ensures MergeAll(absorb, entries, addresses + [a]) == absorb(MergeAll(absorb, entries, addresses), a)
    decreases |addresses|
  {
    if addresses == [] {
      Unit([a]);
      MergeAllOne(absorb, entries, a);
    } else {
      assert (addresses + [a])[1..] == addresses[1..] + [a];
      MergeAllSnoc(absorb, absorb(entries, addresses[0]), addresses[1..], a);
    }
  }

  /** An address that contributes nothing leaves the merge as it was. */
  lemma MergeAllDropsLast<E>(older: nat -> Option<FileEntries<E>>, entries: FileEntries<E>, addresses: seq<nat>)
    requires addresses != [] && older(addresses[|addresses| - 1]).None?
    ensures MergeAll(MergeWith(older), entries, addresses)
         == MergeAll(MergeWith(older), entries, addresses[..|addresses| - 1])
  {
    var n := |addresses| - 1;
    assert addresses == addresses[..n] + [addresses[n]];
    MergeAllSnoc(MergeWith(older), entries, addresses[..n], addresses[n]);
  }

  /** When every iteration absorbs its address, the loop's result is the reference fold over the addresses read. */
  lemma {:induction false} WalkMerges<E>(step: (FileEntries<E>, nat) -> Step<E>,
                                         absorb: (FileEntries<E>, nat) -> FileEntries<E>,
                                         entries: FileEntries<E>, prev: nat, remaining: nat)
    requires forall e, a :: Absorbs(step(e, a), absorb(e, a))
    ensures var w := Walk(step, entries, prev, remaining);
      w.result.Ok? ==> w.result.value == MergeAll(absorb, entries, w.addresses)
    decreases remaining
  {
    if remaining > 0 {
      var s := step(entries, prev);
      assert Absorbs(s, absorb(entries, prev));
      if s.Stopped? {
        MergeAllOne(absorb, entries, prev);
      } else if s.Continued? {
        var rest := Walk(step, s.entries, s.next, remaining - 1);
        WalkMerges(step, absorb, s.entries, s.next, remaining - 1);
        MergeAllCons(absorb, entries, prev, rest.addresses);
      }
    }
  }

  /** The merge keeps every key and adds exactly the keys contributed. */
  lemma {:induction false} MergeAllKeys<E>(older: nat -> Option<FileEntries<E>>, entries: FileEntries<E>,
                                           addresses: seq<nat>)
    ensures Keys(MergeAll(MergeWith(older), entries, addresses)) == Keys(entries) + ReplacedKeys(older, addresses)
    decreases |addresses|
  {
    if addresses != [] {
      MergeAllKeys(older, Merge(entries, older(addresses[0])), addresses[1..]);
    }
  }

  /** A union of two well-formed entry dicts is well formed. */
  lemma UnionWellFormed<E>(a: FileEntries<E>, b: FileEntries<E>)
    requires WellFormed(a) && WellFormed(b)
    ensures WellFormed(Union(a, b))
  {
    var r := Union(a, b);
    UnionItems(a, b);
    forall i | 0 <= i < |r| ensures Distinct(r[i].1) {
      assert r[i] in r;
      if r[i] in a {
        var j :| 0 <= j < |a| && a[j] == r[i];
      } else {
        var j :| 0 <= j < |b| && b[j] == r[i];
      }
    }
  }

  /** Merging well-formed contributions keeps well-formedness. */
  lemma {:induction false} MergeAllWellFormed<E>(older: nat -> Option<FileEntries<E>>, entries: FileEntries<E>,
                                                 addresses: seq<nat>)
    requires forall a :: older(a).Some? ==> WellFormed(older(a).value)
    requires WellFormed(entries)
    ensures WellFormed(MergeAll(MergeWith(older), entries, addresses))
    decreases |addresses|
  {
    if addresses != [] {
      if older(addresses[0]).Some? {
        UnionWellFormed(entries, older(addresses[0]).value);
      }
      MergeAllWellFormed(older, Merge(entries, older(addresses[0])), addresses[1..]);
    }
  }

  /** An xid that no contribution carries keeps the map it had. */
  lemma {:induction false} MergeAllKeeps<E>(older: nat -> Option<FileEntries<E>>, entries: FileEntries<E>,
                                            addresses: seq<nat>, x: Xid)
    requires x in Keys(entries) && x !in ReplacedKeys(older, addresses)
    ensures x in Keys(MergeAll(MergeWith(older), entries, addresses))
    ensures Get(MergeAll(MergeWith(older), entries, addresses), x) == Get(entries, x)
    decreases |addresses|
  {
    if addresses != [] {
      if older(addresses[0]).Some? {
        UnionItems(entries, older(addresses[0]).value);
      }
      MergeAllKeeps(older, Merge(entries, older(addresses[0])), addresses[1..], x);
    }
  }

  /**
   * An xid carried by the contribution at `addresses[k]` and by none read
   * after it has, in the merge, that contribution's map, replaced wholesale:
   * the last superblock read wins.
   */
  lemma {:induction false} MergeAllLatest<E>(older: nat -> Option<FileEntries<E>>, entries: FileEntries<E>,
                                             addresses: seq<nat>, k: nat, x: Xid)
    requires k < |addresses| && older(addresses[k]).Some? && Distinct(older(addresses[k]).value)
    requires x in Keys(older(addresses[k]).value)
    requires x !in ReplacedKeys(older, addresses[k + 1..])
    ensures x in Keys(MergeAll(MergeWith(older), entries, addresses))
    ensures Get(MergeAll(MergeWith(older), entries, addresses), x) == Get(older(addresses[k]).value, x)
    decreases |addresses|
  {
    var o := older(addresses[0]);
    var merged := Merge(entries, o);
    if k == 0 {
      UnionItems(entries, o.value);
      MergeAllKeeps(older, merged, addresses[1..], x);
    } else {
      assert addresses[1..][k - 1] == addresses[k];
      assert addresses[1..][k..] == addresses[k + 1..];
      MergeAllLatest(older, merged, addresses[1..], k - 1, x);
    }
  }

  // ---------------------------------------------------------------- properties of one iteration

  /** The address read after `address`, when the object there decodes with a container-superblock body. */
  function Successor<E>(img: Image<E>, blockSize: nat, address: nat): Option<nat>
  {
    match DecodeAt(img, blockSize, address)
    case Fail => None
    case Ok(nxsb) =>
      match nxsb.body
      case None => None
      case Some(f) => Some(NextAddress(f))
  }

  /** What the superblock at `address` contributes to the merge: its parse, when it decodes and parses. */
  function Older<E>(img: Image<E>, blockSize: nat, address: nat): Option<FileEntries<E>>
  {
    match DecodeAt(img, blockSize, address)
    case Fail => None
    case Ok(nxsb) =>
      match NxsbSpec(img, nxsb)
      case Fail => None
      case Ok(o) => Some(o)
  }

  /** The contribution of a superblock is well formed and carries no xid but its own. */
  lemma OlderWellFormed<E>(img: Image<E>, blockSize: nat, address: nat)
    requires Older(img, blockSize, address).Some?
    ensures WellFormed(Older(img, blockSize, address).value)
    ensures Keys(Older(img, blockSize, address).value) <= {DecodeAt(img, blockSize, address).value.xid}
  {
    NxsbSpecLists(img, DecodeAt(img, blockSize, address).value);
  }

  /**
   * One iteration raises exactly when reading or decoding raises (lines
   * 75-76 are outside the `try`); one whose parse raises stops the loop with
   * the entries unchanged (lines 80-81); one that goes on goes on to the
   * successor of its address.
   */
  lemma StepOutcomes<E>(img: Image<E>, blockSize: nat, entries: FileEntries<E>, prev: nat)
    ensures StepAt(img, blockSize, entries, prev).Raised? <==> DecodeAt(img, blockSize, prev).Fail?
    ensures DecodeAt(img, blockSize, prev).Ok? && Older(img, blockSize, prev).None?
        ==> StepAt(img, blockSize, entries, prev) == Stopped(entries)
    ensures StepAt(img, blockSize, entries, prev).Continued?
        ==> Successor(img, blockSize, prev) == Some(StepAt(img, blockSize, entries, prev).next)
  {
  }

  /**
   * One iteration whose superblock decodes and parses merges the older dict
   * over the accumulated one (line 78): an equal xid's map is replaced
   * wholesale and every other xid is kept; the loop goes on exactly when the
   * decoded object has a container-superblock body (line 79).
   */
  lemma StepMerges<E>(img: Image<E>, blockSize: nat, entries: FileEntries<E>, prev: nat)
    requires Older(img, blockSize, prev).Some?
    ensures var s := StepAt(img, blockSize, entries, prev);
      var older := Older(img, blockSize, prev).value;
      && Absorbs(s, Merge(entries, Older(img, blockSize, prev)))
      && !s.Raised?
      && (s.Continued? <==> DecodeAt(img, blockSize, prev).value.body.Some?)
      && Keys(s.entries) == Keys(entries) + Keys(older)
      && (forall x :: x in Keys(older) ==> Get(s.entries, x) == Get(older, x))
      && (forall x :: x in Keys(entries) && x !in Keys(older) ==> Get(s.entries, x) == Get(entries, x))
  {
    OlderWellFormed(img, blockSize, prev);
    UnionItems(entries, Older(img, blockSize, prev).value);
  }

  /** What each superblock of the image contributes to the merge. */
  function Contributions<E>(img: Image<E>, blockSize: nat): nat -> Option<FileEntries<E>>
  {
    (a: nat) => Older(img, blockSize, a)
  }

  /** Every iteration absorbs what its address contributes. */
  lemma IterationMerges<E>(img: Image<E>, blockSize: nat)
    ensures forall e, a :: Absorbs(Iteration(img, blockSize)(e, a), MergeWith(Contributions(img, blockSize))(e, a))
  {
    forall e, a ensures Absorbs(Iteration(img, blockSize)(e, a), MergeWith(Contributions(img, blockSize))(e, a)) {
      assert Iteration(img, blockSize)(e, a) == StepAt(img, blockSize, e, a);
      assert MergeWith(Contributions(img, blockSize))(e, a) == Merge(e, Older(img, blockSize, a));
      if Older(img, blockSize, a).Some? {
        StepMerges(img, blockSize, e, a);
      } else {
        StepOutcomes(img, blockSize, e, a);
      }
    }
  }

  // ---------------------------------------------------------------- properties of parse

  /** The current superblock parses, but reading or decoding the last older address raises. */
  predicate LastReadFails<E>(img: Image<E>)
  {
    && !CurrentFails(img)
    && var f := img.block0.value.body.value;
       var addresses := ParseSpec(img).addresses;
       addresses != [] && DecodeAt(img, f.blockSize, addresses[|addresses| - 1]).Fail?
  }

  /**
   * `parse` raises exactly when the current superblock cannot be parsed or
   * reading or decoding the last older address raises; a failing parse of
   * an older superblock only ends the loop.
   */
  lemma ParseFailsIff<E>(img: Image<E>)
    ensures ParseSpec(img).result.Fail? <==> CurrentFails(img) || LastReadFails(img)
  {
    if !CurrentFails(img) {
      var f := img.block0.value.body.value;
      var raises := (a: nat) => DecodeAt(img, f.blockSize, a).Fail?;
      forall e, a ensures Iteration(img, f.blockSize)(e, a).Raised? <==> raises(a) {
        StepOutcomes(img, f.blockSize, e, a);
      }
      WalkFailsIff(Iteration(img, f.blockSize), raises, NxsbSpec(img, img.block0.value).value, NextAddress(f),
                   HistoryLength(f));
    }
  }

  /**
   * `parse` reads no older block when the current superblock cannot be
   * parsed, and otherwise at most `xp_desc_index_len - 1` (none when that
   * is below one): the first at `xp_desc_base + xp_desc_index + 1` of the
   * current superblock and each later one at that sum of the superblock
   * read before it, with no wrap-around.
   */
  lemma ParseAddresses<E>(img: Image<E>)
    ensures CurrentFails(img) ==> ParseSpec(img).addresses == []
    ensures !CurrentFails(img) ==>
      var f := img.block0.value.body.value;
      var addresses := ParseSpec(img).addresses;
      && |addresses| <= HistoryLength(f)
      && (addresses == [] <==> HistoryLength(f) == 0)
      && (addresses != [] ==> addresses[0] == NextAddress(f))
      && forall k :: 0 <= k < |addresses| - 1 ==> Successor(img, f.blockSize, addresses[k]) == Some(addresses[k + 1])
  {
    if !CurrentFails(img) {
      var f := img.block0.value.body.value;
      var current := NxsbSpec(img, img.block0.value).value;
      var successor := (a: nat) => Successor(img, f.blockSize, a);
      forall e, a | Iteration(img, f.blockSize)(e, a).Continued?
        ensures successor(a) == Some(Iteration(img, f.blockSize)(e, a).next)
      {
        StepOutcomes(img, f.blockSize, e, a);
      }
      WalkAddresses(Iteration(img, f.blockSize), current, NextAddress(f), HistoryLength(f));
      WalkChain(Iteration(img, f.blockSize), successor, current, NextAddress(f), HistoryLength(f));
    }
  }

  /**
   * When `parse` returns, its result is the current superblock's parse with
   * the parse of each older superblock read merged over it in read order;
   * it is well formed, and its xids are the current ones and those of the
   * older parses.
   */
  lemma ParseMerges<E>(img: Image<E>)
    ensures ParseSpec(img).result.Ok? ==>
      && !CurrentFails(img)
      && var f := img.block0.value.body.value;
         var older := Contributions(img, f.blockSize);
         var current := NxsbSpec(img, img.block0.value).value;
         var addresses := ParseSpec(img).addresses;
         var m := ParseSpec(img).result.value;
         && m == MergeAll(MergeWith(older), current, addresses)
         && WellFormed(m)
         && Keys(m) == Keys(current) + ReplacedKeys(older, addresses)
  {
    if !CurrentFails(img) {
      var f := img.block0.value.body.value;
      var older := Contributions(img, f.blockSize);
      var current := NxsbSpec(img, img.block0.value).value;
      var w := ParseSpec(img);
      IterationMerges(img, f.blockSize);
      WalkMerges(Iteration(img, f.blockSize), MergeWith(older), current, NextAddress(f), HistoryLength(f));
      NxsbSpecLists(img, img.block0.value);
      forall a | older(a).Some? ensures WellFormed(older(a).value) {
        OlderWellFormed(img, f.blockSize, a);
      }
      MergeAllWellFormed(older, current, w.addresses);
      MergeAllKeys(older, current, w.addresses);
    }
  }

  /**
   * When `parse` returns and the older superblock read last decodes but its
   * parse raises, the loop ended there (lines 80-81) with the entries it held
   * after the iteration before: the merge of the addresses read before it.
   */
  lemma ParseStopsUnchanged<E>(img: Image<E>)
    ensures ParseSpec(img).result.Ok? ==>
      var f := img.block0.value.body.value;
      var addresses := ParseSpec(img).addresses;
      addresses != [] && Older(img, f.blockSize, addresses[|addresses| - 1]).None? ==>
        ParseSpec(img).result.value
          == MergeAll(MergeWith(Contributions(img, f.blockSize)), NxsbSpec(img, img.block0.value).value,
                      addresses[..|addresses| - 1])
  {
    var w := ParseSpec(img);
    if w.result.Ok? {
      ParseMerges(img);
      var f := img.block0.value.body.value;
      var older := Contributions(img, f.blockSize);
      if w.addresses != [] && older(w.addresses[|w.addresses| - 1]).None? {
        MergeAllDropsLast(older, NxsbSpec(img, img.block0.value).value, w.addresses);
      }
    }
  }

  /**
   * With `xp_desc_index_len` at most one the loop does not run: `parse`
   * reads no older block and returns the current superblock's parse.
   */
  lemma NoHistory<E>(img: Image<E>)
    requires !CurrentFails(img) && img.block0.value.body.value.xpDescIndexLen <= 1
    ensures ParseSpec(img) == Walked(Ok(NxsbSpec(img, img.block0.value).value), [])
  {
  }

  /** A volume listing one root leaf node with a non-empty name files the node's records under that name. */
  lemma OneRoot<E>(img: Image<E>, apsb: VolumeSuperblock, root: ObjectRef, node: Node<E>)
    requires apsb.volname != ""
    requires img.volumeObjects(apsb) == Ok([root])
    requires img.rootNodeAt(root) == Ok(node) && node.nodeType != PointerOnly
    ensures ApsbSpec(img, apsb) == Ok([(apsb.xid, [(apsb.volname, node.entries)])])
  {
    ApsbSpecShape(img, apsb);
    assert [root][1..] == [];
    assert RootEntries(img, [root]) == node.entries + [];
    Unit(node.entries);
  }

  /** A container listing one volume files that volume's single list under the container's xid. */
  lemma OneChild<E>(img: Image<E>, nxsb: ContainerSuperblock, ref: ObjectRef, apsb: VolumeSuperblock,
                    v: Volume, l: seq<E>)
    requires img.containerObjects(nxsb) == Ok([ref])
    requires img.volumeAt(ref) == Ok(apsb)
    requires ApsbSpec(img, apsb) == Ok([(apsb.xid, [(v, l)])])
    ensures NxsbSpec(img, nxsb) == Ok([(nxsb.xid, [(v, l)])])
  {
    var child := [(apsb.xid, [(v, l)])];
    assert [ref][1..] == [];
    assert NxsbFrom(img, nxsb, [], [ref]) == NxsbFrom(img, nxsb, Added([], child, nxsb.xid, None), []);
    var empty: FileEntries<E> := [];
    AddedSingle(empty, apsb.xid, v, l, nxsb.xid, None);
    var noVolumes: Dict<Volume, seq<E>> := [];
    assert SetDefault(empty, nxsb.xid, noVolumes) == [(nxsb.xid, noVolumes)];
    AppendFresh(nxsb.xid, v, l);
  }

  /**
   * A container whose current superblock lists one volume, whose volume
   * lists one root leaf node, and which has no older checkpoint: `parse`
   * returns the node's records, in order, under the container's xid and the
   * volume's name.
   */
  lemma OneVolume<E>(img: Image<E>, ref: ObjectRef, apsb: VolumeSuperblock, root: ObjectRef, node: Node<E>)
    requires img.block0.Ok? && img.block0.value.body.Some?
    requires img.block0.value.body.value.xpDescIndexLen <= 1
    requires img.containerObjects(img.block0.value) == Ok([ref])
    requires img.volumeAt(ref) == Ok(apsb) && apsb.volname != ""
    requires img.volumeObjects(apsb) == Ok([root])
    requires img.rootNodeAt(root) == Ok(node) && node.nodeType != PointerOnly
    ensures ParseSpec(img).result == Ok([(img.block0.value.xid, [(apsb.volname, node.entries)])])
  {
    var nxsb := img.block0.value;
    var filed := [(nxsb.xid, [(apsb.volname, node.entries)])];
    assert ApsbSpec(img, apsb) == Ok([(apsb.xid, [(apsb.volname, node.entries)])]) by {
      OneRoot(img, apsb, root, node);
    }
    assert NxsbSpec(img, nxsb) == Ok(filed) by {
      OneChild(img, nxsb, ref, apsb, apsb.volname, node.entries);
    }
    NoHistory(img);
  }
}
