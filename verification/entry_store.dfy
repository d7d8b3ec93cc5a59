/**
 * The accumulator of recovered directory entries (`add_file_entries`):
 * transaction id -> volume name -> entries, both levels ordered as Python
 * dicts are.
 */
module FileEntryStore {
  import opened Results
  import opened Seqs
  import opened Dicts

  type Xid = nat
  type Volume = string

  /** Recovered entries: xid -> volume name -> entries, in insertion order. */
  type FileEntries<E> = Dict<Xid, Dict<Volume, seq<E>>>

  /** Both levels are dictionaries: no repeated xid, no repeated volume under an xid. */
  predicate WellFormed<E>(t: FileEntries<E>)
  {
    Distinct(t) && forall i :: 0 <= i < |t| ==> Distinct(t[i].1)
  }

  /** The list filed under `x` and `v`, or the empty list when there is none. */
  function Lookup<E>(t: FileEntries<E>, x: Xid, v: Volume): seq<E>
  {
    if x in Keys(t) && v in Keys(Get(t, x)) then Get(Get(t, x), v) else []
  }

  /** Python truthiness of the volume override: None and "" are false. */
  predicate Truthy(override: Option<Volume>)
  {
    override.Some? && override.value != ""
  }

  /** `volume_override or volume`. */
  function Or(override: Option<Volume>, volume: Volume): Volume
  {
    if Truthy(override) then override.value else volume
  }

  /** Python's `or` yields one of its operands, and a truthy one exactly when either operand is truthy. */
  lemma OrOperands(override: Option<Volume>, volume: Volume)
    ensures Or(override, volume) == volume || (override.Some? && Or(override, volume) == override.value)
    ensures Or(override, volume) != "" <==> Truthy(override) || volume != ""
  {
  }

  /** Storing a dictionary under `x` keeps both levels dictionaries. */
  lemma PutWellFormed<E>(t: FileEntries<E>, x: Xid, inner: Dict<Volume, seq<E>>)
    requires WellFormed(t) && Distinct(inner)
    ensures WellFormed(Put(t, x, inner))
  {
    var r := Put(t, x, inner);
    forall i | 0 <= i < |r| ensures Distinct(r[i].1) {
      assert r[i] in r;
      if r[i] != (x, inner) {
        var j :| 0 <= j < |t| && t[j] == r[i];
      }
    }
  }

  /** Storing a dictionary under `x` changes the lists of `x` only, to those of `inner`. */
  lemma PutLookup<E>(t: FileEntries<E>, x: Xid, inner: Dict<Volume, seq<E>>)
    ensures forall x', v' :: x' != x ==> Lookup(Put(t, x, inner), x', v') == Lookup(t, x', v')
    ensures forall v' :: Lookup(Put(t, x, inner), x, v') == if v' in Keys(inner) then Get(inner, v') else []
  {
  }

  /**
   * `t[x].setdefault(v, list())` followed by `t[x][v] += l`: the list under
   * `x` and `v` grows by `l` at its end and nothing else changes.
   */
  function Append<E>(t: FileEntries<E>, x: Xid, v: Volume, l: seq<E>): (r: FileEntries<E>)
    requires x in Keys(t)
    ensures Keys(r) == Keys(t)
    ensures forall x' :: x' in Keys(t) && x' != x ==> Get(r, x') == Get(t, x')
    ensures Keys(Get(r, x)) == Keys(Get(t, x)) + {v}
    ensures Lookup(r, x, v) == Lookup(t, x, v) + l
    ensures forall x', v' :: x' != x || v' != v ==> Lookup(r, x', v') == Lookup(t, x', v')
    ensures WellFormed(t) ==> WellFormed(r)
  {
    var inner := SetDefault(Get(t, x), v, []);
    var r := Put(t, x, Put(inner, v, Get(inner, v) + l));
    PutLookup(t, x, Put(inner, v, Get(inner, v) + l));
    assert Get(inner, v) == Lookup(t, x, v);
    assert WellFormed(t) ==> WellFormed(r) by {
      if WellFormed(t) {
        var j :| 0 <= j < |t| && t[j] == (x, Get(t, x));
        PutWellFormed(t, x, Put(inner, v, Get(inner, v) + l));
      }
    }
    r
  }

  /** `t.setdefault(x, dict())` keeps both levels dictionaries. */
  lemma SetDefaultWellFormed<E>(t: FileEntries<E>, x: Xid)
    requires WellFormed(t)
    ensures WellFormed(SetDefault(t, x, []))
  {
    var r := SetDefault(t, x, []);
    forall i | 0 <= i < |r| ensures Distinct(r[i].1) {
      if r[i] != (x, []) {
        var j :| 0 <= j < |t| && t[j] == r[i];
      }
    }
  }

  /** `t.setdefault(x, dict())` files no list anywhere. */
  lemma SetDefaultLookup<E>(t: FileEntries<E>, x: Xid)
    ensures forall x', v :: Lookup(SetDefault(t, x, []), x', v) == Lookup(t, x', v)
    ensures x in Keys(SetDefault(t, x, []))
    ensures Keys(Get(SetDefault(t, x, []), x)) == if x in Keys(t) then Keys(Get(t, x)) else {}
  {
  }

  /** The target and the current value of the `volume_override` parameter. */
  datatype Accumulator<E> = Accumulator(entries: FileEntries<E>, override: Option<Volume>)

  /** The inner loop (lines 25-28) over the volumes of one source xid. */
  function FileVolumes<E>(acc: Accumulator<E>, volumes: Dict<Volume, seq<E>>, xidOverride: Xid): (r: Accumulator<E>)
    requires xidOverride in Keys(acc.entries)
    ensures Keys(r.entries) == Keys(acc.entries)
    decreases |volumes|
  {
    if volumes == [] then acc
    else
      var name := Or(acc.override, volumes[0].0);
      FileVolumes(Accumulator(Append(acc.entries, xidOverride, name, volumes[0].1), Some(name)),
                  volumes[1..], xidOverride)
  }

  /** The outer loop (lines 23-28) over the xids of the source. */
  function FileSources<E>(acc: Accumulator<E>, source: FileEntries<E>, xidOverride: Xid): Accumulator<E>
    decreases |source|
  {
    if source == [] then acc
    else
      var withXid := Accumulator(SetDefault(acc.entries, xidOverride, []), acc.override);
      FileSources(FileVolumes(withXid, source[0].1, xidOverride), source[1..], xidOverride)
  }

  /** The target after `add_file_entries(target, source, xidOverride, volumeOverride)`. */
  function Added<E>(target: FileEntries<E>, source: FileEntries<E>, xidOverride: Xid,
                    volumeOverride: Option<Volume>): FileEntries<E>
  {
    FileSources(Accumulator(target, volumeOverride), source, xidOverride).entries
  }

  /** The (volume, entries) items of a source, xid after xid, in iteration order. */
  function Volumes<E>(source: FileEntries<E>): Dict<Volume, seq<E>>
  {
    if source == [] then [] else source[0].1 + Volumes(source[1..])
  }

  /** All entry lists of `volumes` concatenated in order. */
  function Concat<E>(volumes: Dict<Volume, seq<E>>): seq<E>
  {
    if volumes == [] then [] else volumes[0].1 + Concat(volumes[1..])
  }

  /**
   * Filing volumes under `xidOverride` keeps every xid, leaves every other
   * xid's dictionary as it was, removes no volume and only extends lists.
   */
  lemma {:induction false} FileVolumesOnlyAppends<E>(acc: Accumulator<E>, volumes: Dict<Volume, seq<E>>, xidOverride: Xid)
    requires xidOverride in Keys(acc.entries)
    ensures var r := FileVolumes(acc, volumes, xidOverride).entries;
      && (forall x :: x in Keys(acc.entries) && x != xidOverride ==> Get(r, x) == Get(acc.entries, x))
      && Keys(Get(acc.entries, xidOverride)) <= Keys(Get(r, xidOverride))
      && (forall x, v :: Lookup(acc.entries, x, v) <= Lookup(r, x, v))
      && (WellFormed(acc.entries) ==> WellFormed(r))
    decreases |volumes|
  {
    if volumes != [] {
      var name := Or(acc.override, volumes[0].0);
      var next := Accumulator(Append(acc.entries, xidOverride, name, volumes[0].1), Some(name));
      FileVolumesOnlyAppends(next, volumes[1..], xidOverride);
      var r := FileVolumes(next, volumes[1..], xidOverride).entries;
      forall x, v ensures Lookup(acc.entries, x, v) <= Lookup(r, x, v) {
        assert Lookup(acc.entries, x, v) <= Lookup(next.entries, x, v);
      }
    }
  }

  /** The same for the whole outer loop. */
  lemma {:induction false} FileSourcesOnlyAppends<E>(acc: Accumulator<E>, source: FileEntries<E>, xidOverride: Xid)
    ensures var r := FileSources(acc, source, xidOverride).entries;
      && Keys(r) == Keys(acc.entries) + (if source == [] then {} else {xidOverride})
      && (forall x :: x in Keys(acc.entries) && x != xidOverride ==> Get(r, x) == Get(acc.entries, x))
      && (xidOverride in Keys(acc.entries) ==> Keys(Get(acc.entries, xidOverride)) <= Keys(Get(r, xidOverride)))
      && (forall x, v :: Lookup(acc.entries, x, v) <= Lookup(r, x, v))
      && (WellFormed(acc.entries) ==> WellFormed(r))
    decreases |source|
  {
    if source != [] {
      var withXid := Accumulator(SetDefault(acc.entries, xidOverride, []), acc.override);
      var next := FileVolumes(withXid, source[0].1, xidOverride);
      FileVolumesOnlyAppends(withXid, source[0].1, xidOverride);
      FileSourcesOnlyAppends(next, source[1..], xidOverride);
      if WellFormed(acc.entries) {
        SetDefaultWellFormed(acc.entries, xidOverride);
      }
      SetDefaultLookup(acc.entries, xidOverride);
      var r := FileSources(next, source[1..], xidOverride).entries;
      forall x, v ensures Lookup(acc.entries, x, v) <= Lookup(r, x, v) {
        assert Lookup(withXid.entries, x, v) <= Lookup(next.entries, x, v);
      }
    }
  }

  /**
   * `add_file_entries` only appends: no xid and no volume is removed, every
   * list keeps its old contents as a prefix, every xid other than
   * `xidOverride` is untouched, and an empty source changes nothing (in
   * particular it does not create `xidOverride`).
   */
  lemma AddedOnlyAppends<E>(target: FileEntries<E>, source: FileEntries<E>, xidOverride: Xid,
                            volumeOverride: Option<Volume>)
    ensures var r := Added(target, source, xidOverride, volumeOverride);
      && Keys(r) == Keys(target) + (if source == [] then {} else {xidOverride})
      && (source == [] ==> r == target)
      && (forall x :: x in Keys(target) && x != xidOverride ==> Get(r, x) == Get(target, x))
      && (forall x, v :: x != xidOverride ==> Lookup(r, x, v) == Lookup(target, x, v))
      && (xidOverride in Keys(target) ==> Keys(Get(target, xidOverride)) <= Keys(Get(r, xidOverride)))
      && (forall x, v :: Lookup(target, x, v) <= Lookup(r, x, v))
      && (WellFormed(target) ==> WellFormed(r))
  {
    var r := Added(target, source, xidOverride, volumeOverride);
    FileSourcesOnlyAppends(Accumulator(target, volumeOverride), source, xidOverride);
    forall x, v | x != xidOverride ensures Lookup(r, x, v) == Lookup(target, x, v) {
      if x in Keys(target) {
        assert Get(r, x) == Get(target, x);
      } else {
        assert x !in Keys(r);
      }
    }
  }

  /** Filing volumes one after the other is filing their concatenation. */
  lemma {:induction false} FileVolumesConcat<E>(acc: Accumulator<E>, a: Dict<Volume, seq<E>>,
                                                b: Dict<Volume, seq<E>>, xidOverride: Xid)
    requires xidOverride in Keys(acc.entries)
    ensures FileVolumes(acc, a + b, xidOverride) == FileVolumes(FileVolumes(acc, a, xidOverride), b, xidOverride)
    decreases |a|
  {
    if a == [] {
      assert a + b == b;
    } else {
      assert (a + b)[1..] == a[1..] + b;
      var name := Or(acc.override, a[0].0);
      FileVolumesConcat(Accumulator(Append(acc.entries, xidOverride, name, a[0].1), Some(name)), a[1..], b, xidOverride);
    }
  }

  /**
   * Reference definition of the nested loops: create `xidOverride` once when
   * the source has any xid, then file its volumes in iteration order.
   */
  lemma {:induction false} FileSourcesFlat<E>(acc: Accumulator<E>, source: FileEntries<E>, xidOverride: Xid)
    ensures FileSources(acc, source, xidOverride)
         == if source == [] then acc
            else FileVolumes(Accumulator(SetDefault(acc.entries, xidOverride, []), acc.override),
                             Volumes(source), xidOverride)
    decreases |source|
  {
    if source != [] {
      var withXid := Accumulator(SetDefault(acc.entries, xidOverride, []), acc.override);
      var next := FileVolumes(withXid, source[0].1, xidOverride);
      FileSourcesFlat(next, source[1..], xidOverride);
      if source[1..] == [] {
        assert Volumes(source) == source[0].1;
      } else {
        assert SetDefault(next.entries, xidOverride, []) == next.entries;
        FileVolumesConcat(withXid, source[0].1, Volumes(source[1..]), xidOverride);
      }
    }
  }

  /** With a truthy override every list goes, in order, under the override. */
  lemma {:induction false} FileVolumesUnderOverride<E>(acc: Accumulator<E>, volumes: Dict<Volume, seq<E>>,
                                                       xidOverride: Xid)
    requires xidOverride in Keys(acc.entries)
    requires Truthy(acc.override)
    ensures var r := FileVolumes(acc, volumes, xidOverride);
      && r.override == acc.override
      && Lookup(r.entries, xidOverride, acc.override.value)
         == Lookup(acc.entries, xidOverride, acc.override.value) + Concat(volumes)
    decreases |volumes|
  {
    if volumes != [] {
      var n := acc.override.value;
      var next := Accumulator(Append(acc.entries, xidOverride, n, volumes[0].1), Some(n));
      FileVolumesUnderOverride(next, volumes[1..], xidOverride);
      assert FileVolumes(acc, volumes, xidOverride) == FileVolumes(next, volumes[1..], xidOverride);
      assert Concat(volumes) == volumes[0].1 + Concat(volumes[1..]);
    }
  }

  /** With a truthy override no other volume of `xidOverride` changes. */
  lemma {:induction false} FileVolumesOtherVolumes<E>(acc: Accumulator<E>, volumes: Dict<Volume, seq<E>>,
                                                      xidOverride: Xid, v: Volume)
    requires xidOverride in Keys(acc.entries)
    requires Truthy(acc.override) && v != acc.override.value
    ensures Lookup(FileVolumes(acc, volumes, xidOverride).entries, xidOverride, v)
         == Lookup(acc.entries, xidOverride, v)
    decreases |volumes|
  {
    if volumes != [] {
      var n := acc.override.value;
      var next := Accumulator(Append(acc.entries, xidOverride, n, volumes[0].1), Some(n));
      FileVolumesOtherVolumes(next, volumes[1..], xidOverride, v);
      assert FileVolumes(acc, volumes, xidOverride) == FileVolumes(next, volumes[1..], xidOverride);
    }
  }

  /** With a truthy override the only volume `xidOverride` can gain is the override. */
  lemma {:induction false} FileVolumesVolumeKeys<E>(acc: Accumulator<E>, volumes: Dict<Volume, seq<E>>,
                                                    xidOverride: Xid)
    requires xidOverride in Keys(acc.entries)
    requires Truthy(acc.override)
    ensures Keys(Get(FileVolumes(acc, volumes, xidOverride).entries, xidOverride))
         == Keys(Get(acc.entries, xidOverride)) + (if volumes == [] then {} else {acc.override.value})
    decreases |volumes|
  {
    if volumes != [] {
      var n := acc.override.value;
      var next := Accumulator(Append(acc.entries, xidOverride, n, volumes[0].1), Some(n));
      FileVolumesVolumeKeys(next, volumes[1..], xidOverride);
      assert FileVolumes(acc, volumes, xidOverride) == FileVolumes(next, volumes[1..], xidOverride);
    }
  }

  /**
   * `add_file_entries` with a truthy `volume_override` appends all source
   * lists, in iteration order, to `target[xidOverride][volumeOverride]`, so
   * that list grows by their total length, and no other volume of
   * `xidOverride` changes.
   */
  lemma AddedUnderOverride<E>(target: FileEntries<E>, source: FileEntries<E>, xidOverride: Xid, n: Volume)
    requires n != ""
    ensures var r := Added(target, source, xidOverride, Some(n));
      && Lookup(r, xidOverride, n) == Lookup(target, xidOverride, n) + Concat(Volumes(source))
      && |Lookup(r, xidOverride, n)| == |Lookup(target, xidOverride, n)| + |Concat(Volumes(source))|
      && (forall v :: v != n ==> Lookup(r, xidOverride, v) == Lookup(target, xidOverride, v))
  {
    var acc := Accumulator(target, Some(n));
    FileSourcesFlat(acc, source, xidOverride);
    SetDefaultLookup(target, xidOverride);
    if source != [] {
      var withXid := Accumulator(SetDefault(target, xidOverride, []), Some(n));
      FileVolumesUnderOverride(withXid, Volumes(source), xidOverride);
      forall v | v != n
        ensures Lookup(Added(target, source, xidOverride, Some(n)), xidOverride, v) == Lookup(target, xidOverride, v)
      {
        FileVolumesOtherVolumes(withXid, Volumes(source), xidOverride, v);
      }
    } else {
      Unit(Lookup(target, xidOverride, n));
    }
  }

  /** With a truthy `volume_override` the only volume `xidOverride` can gain is the override. */
  lemma AddedOverrideKeys<E>(target: FileEntries<E>, source: FileEntries<E>, xidOverride: Xid, n: Volume)
    requires n != "" && source != []
    ensures var r := Added(target, source, xidOverride, Some(n));
      && xidOverride in Keys(r)
      && Keys(Get(r, xidOverride))
         == (if xidOverride in Keys(target) then Keys(Get(target, xidOverride)) else {})
            + (if Volumes(source) == [] then {} else {n})
  {
    FileSourcesFlat(Accumulator(target, Some(n)), source, xidOverride);
    SetDefaultLookup(target, xidOverride);
    FileVolumesVolumeKeys(Accumulator(SetDefault(target, xidOverride, []), Some(n)), Volumes(source), xidOverride);
  }

  /**
   * Line 26 rebinds the parameter: without a truthy override, the first
   * source volume's name (when truthy) is used for every later volume of
   * the same call, exactly as if it had been passed as the override.
   */
  lemma {:induction false} FirstVolumeSticks<E>(target: FileEntries<E>, source: FileEntries<E>,
                                                xidOverride: Xid, volumeOverride: Option<Volume>)
    requires !Truthy(volumeOverride)
    requires Volumes(source) != [] && Volumes(source)[0].0 != ""
    ensures Added(target, source, xidOverride, volumeOverride)
         == Added(target, source, xidOverride, Some(Volumes(source)[0].0))
    decreases |source|
  {
    var n := Volumes(source)[0].0;
    var t' := SetDefault(target, xidOverride, []);
    if source[0].1 == [] {
      assert Volumes(source) == Volumes(source[1..]);
      FirstVolumeSticks(t', source[1..], xidOverride, volumeOverride);
    } else {
      assert source[0].1[0].0 == n;
      var vols := source[0].1;
      var next := Accumulator(Append(t', xidOverride, n, vols[0].1), Some(n));
      assert FileVolumes(Accumulator(t', volumeOverride), vols, xidOverride) == FileVolumes(next, vols[1..], xidOverride);
      assert FileVolumes(Accumulator(t', Some(n)), vols, xidOverride) == FileVolumes(next, vols[1..], xidOverride);
    }
  }

  /** A source with one xid holding one volume adds one list under `volume_override or volume`. */
  lemma AddedSingle<E>(target: FileEntries<E>, x: Xid, n: Volume, l: seq<E>, xidOverride: Xid,
                       volumeOverride: Option<Volume>)
    ensures Added(target, [(x, [(n, l)])], xidOverride, volumeOverride)
         == Append(SetDefault(target, xidOverride, []), xidOverride, Or(volumeOverride, n), l)
  {
    var withXid := Accumulator(SetDefault(target, xidOverride, []), volumeOverride);
    var name := Or(volumeOverride, n);
    var filed := Accumulator(Append(withXid.entries, xidOverride, name, l), Some(name));
    assert [(x, [(n, l)])][1..] == [];
    assert [(n, l)][1..] == [];
    assert FileVolumes(withXid, [(n, l)], xidOverride) == FileVolumes(filed, [], xidOverride) == filed;
    assert FileSources(Accumulator(target, volumeOverride), [(x, [(n, l)])], xidOverride)
        == FileSources(filed, [], xidOverride);
  }

  /** The dictionary `file_entries` that `add_file_entries` updates in place. */
  class EntryStore<E> {
    var entries: FileEntries<E>

    ghost predicate Valid()
      reads this
    {
      WellFormed(entries)
    }

    /** `dict()`. */
    constructor ()
      ensures Valid() && entries == []
    {
      entries := [];
    }

    /**
     * `add_file_entries(self, source, xidOverride, volumeOverride)`: files
     * every list of `source` under `xidOverride`, in iteration order.
     */
    method AddFileEntries(source: FileEntries<E>, xidOverride: Xid, volumeOverride: Option<Volume>)
      requires Valid()
      modifies this
      ensures Valid()
      ensures entries == Added(old(entries), source, xidOverride, volumeOverride)
    {
      ghost var goal := FileSources(Accumulator(entries, volumeOverride), source, xidOverride);
      var override := volumeOverride;
      for i := 0 to |source|
        invariant WellFormed(entries)
        invariant FileSources(Accumulator(entries, override), source[i..], xidOverride) == goal
      {
        assert source[i..][1..] == source[i + 1..];
        SetDefaultWellFormed(entries, xidOverride);
        entries := SetDefault(entries, xidOverride, []);
        var volumes := source[i].1;
        for j := 0 to |volumes|
          invariant xidOverride in Keys(entries)
          invariant WellFormed(entries)
          invariant FileSources(FileVolumes(Accumulator(entries, override), volumes[j..], xidOverride),
                                source[i + 1..], xidOverride) == goal
        {
          assert volumes[j..][1..] == volumes[j + 1..];
          override := Some(Or(override, volumes[j].0));
          entries := Append(entries, xidOverride, override.value, volumes[j].1);
        }
      }
    }
  }
}
