/**
 Metadata in memory (service/src/metadata.c): C vectors with their counts, deduplicated in place, merged
 by copying at moving offsets, calibrated in place.  Contracts speak of the values in module Metadata.
 */
module MetadataBuffers {
  import opened Common
  import opened Metadata

  // ---------------------------------------------------------------- in-place deduplication

  /** The innermost loop: closes the gap at `j`. */
  method ShiftDown<T>(a: array<T>, j: nat, count: nat)
    requires j < count <= a.Length
    modifies a
    ensures a[..count - 1] == old(a[..j] + a[j + 1..count])
    ensures a[count - 1..] == old(a[count - 1..])
  {
    for k := j to count - 1
      invariant a[..k] == old(a[..j] + a[j + 1..k + 1])
      invariant a[k..] == old(a[k..])
    {
      a[k] := a[k + 1];
    }
  }

  /** metadata_remove_dup on one vector: the first `count` elements are the deduplication, the tail is whatever is left. */
  method RemoveDup<T>(a: array<T>, n: nat, key: T -> nat) returns (count: nat)
    requires n <= a.Length
    modifies a
    ensures count <= n && a[..count] == Dedup(old(a[..n]), key)
    ensures a[n..] == old(a[n..])
  {
    count := n;
    var i := 0;
    while i < count
      invariant 0 <= i <= count <= n
      invariant Dedup(a[..count], key) == Dedup(old(a[..n]), key)
      invariant forall p, q | 0 <= p < q < count && p < i :: key(a[p]) != key(a[q])
      invariant a[n..] == old(a[n..])
      decreases count - i
    {
      var j := i + 1;
      ghost var before := count;
      while j < count
        invariant i < j <= count <= before
        invariant Dedup(a[..count], key) == Dedup(old(a[..n]), key)
        invariant forall p, q | 0 <= p < q < count && p < i :: key(a[p]) != key(a[q])
        invariant forall q | i < q < j :: key(a[i]) != key(a[q])
        invariant a[n..] == old(a[n..])
        decreases count - j
      {
        if key(a[i]) == key(a[j]) {
          count := RemoveAt(a, n, key, i, j, count);
        } else {
          j := j + 1;
        }
      }
      i := i + 1;
    }
    DedupFixed(a[..count], key);
  }

  /** One removal: element `j` repeats the key of element `i`. */
  method RemoveAt<T>(a: array<T>, n: nat, key: T -> nat, i: nat, j: nat, count: nat) returns (less: nat)
    requires i < j < count <= n <= a.Length && key(a[i]) == key(a[j])
    modifies a
    ensures less == count - 1 && a[..less] == old(a[..j] + a[j + 1..count])
    ensures Dedup(a[..less], key) == old(Dedup(a[..count], key))
    ensures forall p | 0 <= p < less :: a[p] == old(if p < j then a[p] else a[p + 1])
    ensures a[n..] == old(a[n..])
  {
    ghost var front, x, rest := a[..j], a[j], a[j + 1..count];
    assert a[..count] == (front + [x]) + rest;
    ShiftDown(a, j, count);
    less := count - 1;
    assert a[n..] == a[count - 1..][n - count + 1..];
    DedupWithout(front, x, rest, key, i);
    forall p | 0 <= p < less ensures a[p] == old(if p < j then a[p] else a[p + 1]) {
      assert a[p] == a[..less][p];
    }
  }

  // ---------------------------------------------------------------- metadata objects

  class MetaData {
    var gkv: array?<KV>
    var numGkv: nat
    var ckv: array?<KV>
    var numCkv: nat
    var props: array?<nat>
    var numProps: nat
    var propId: nat

    /** Counts fit their vectors; a null vector has count zero. */
    ghost predicate Valid()
      reads this
    {
      && (gkv != null ==> gkv != ckv)
      && (if gkv == null then numGkv == 0 else numGkv <= gkv.Length)
      && (if ckv == null then numCkv == 0 else numCkv <= ckv.Length)
      && (if props == null then numProps == 0 else numProps <= props.Length)
    }

    ghost function Value(): Meta
      reads this, gkv, ckv, props
      requires Valid()
    {
      Meta(if gkv == null then [] else gkv[..numGkv],
           if ckv == null then [] else ckv[..numCkv],
           if props == null then None else Some(props[..numProps]),
           propId)
    }

    constructor ()
      ensures Valid() && Value() == EMPTY
    {
      gkv, ckv, props := null, null, null;
      numGkv, numCkv, numProps, propId := 0, 0, 0, 0;
    }

    /** Metadata whose vectors are full. */
    constructor Holding(gkv: array<KV>, ckv: array<KV>, props: array<nat>, propId: nat)
      requires gkv != ckv
      ensures Valid() && Value() == Meta(gkv[..], ckv[..], Some(props[..]), propId)
      ensures this.gkv == gkv && this.ckv == ckv && this.props == props
    {
      this.gkv, this.numGkv, this.ckv, this.numCkv := gkv, gkv.Length, ckv, ckv.Length;
      this.props, this.numProps, this.propId := props, props.Length, propId;
      new;
      assert gkv[..gkv.Length] == gkv[..] && ckv[..ckv.Length] == ckv[..] && props[..props.Length] == props[..];
    }

    /** Replaces all three vectors by full ones. */
    method Fill(gkv: array<KV>, ckv: array<KV>, props: array<nat>, propId: nat)
      requires gkv != ckv
      modifies this
      ensures Valid() && Value() == Meta(gkv[..], ckv[..], Some(props[..]), propId)
    {
      this.gkv, this.numGkv, this.ckv, this.numCkv := gkv, gkv.Length, ckv, ckv.Length;
      this.props, this.numProps, this.propId := props, props.Length, propId;
      assert gkv[..gkv.Length] == gkv[..] && ckv[..ckv.Length] == ckv[..] && props[..props.Length] == props[..];
    }

    /** metadata_free. */
    method Free()
      modifies this
      ensures Valid() && Value() == EMPTY
    {
      gkv, ckv, props := null, null, null;
      numGkv, numCkv, numProps, propId := 0, 0, 0, 0;
    }

    /** metadata_update_cal: the last matching calibration entry wins. */
    method UpdateCal(cal: array?<KV>, n: nat)
      requires Valid() && (cal != null ==> n <= cal.Length && cal != ckv && cal != gkv)
      modifies ckv
      ensures Valid() && Value() == Updated(old(Value()), if cal == null then [] else cal[..n])
      ensures AllRecalibrated(old(Value()).ckv, if cal == null then [] else cal[..n], Value().ckv)
    {
      AllCalibratedMeans(Value().ckv, if cal == null then [] else cal[..n]);
      if ckv == null || cal == null {
        ghost var s := if ckv == null then [] else ckv[..numCkv];
        assert CalibratedAll(s, []) == s;
        return;
      }
      CalibrateInPlace(ckv, numCkv, cal, n);
      assert ckv[..numCkv] == CalibratedAll(old(ckv[..numCkv]), cal[..n]);
    }
  }

  method CalibrateInPlace(a: array<KV>, m: nat, cal: array<KV>, n: nat)
    requires m <= a.Length && n <= cal.Length && a != cal
    modifies a
    ensures forall i | 0 <= i < m :: a[i] == Calibrated(old(a[i]), cal[..n])
    ensures forall i | m <= i < a.Length :: a[i] == old(a[i])
  {
    for i := 0 to m
      invariant forall k | 0 <= k < i :: a[k] == Calibrated(old(a[k]), cal[..n])
      invariant forall k | i <= k < a.Length :: a[k] == old(a[k])
    {
      for j := 0 to n
        invariant forall k | 0 <= k < i :: a[k] == Calibrated(old(a[k]), cal[..n])
        invariant forall k | i < k < a.Length :: a[k] == old(a[k])
        invariant a[i] == Calibrated(old(a[i]), cal[..j])
      {
        assert cal[..j + 1][..j] == cal[..j];
        if a[i].key == cal[j].key {
          a[i] := a[i].(value := cal[j].value);
        }
      }
    }
  }

  /** A merge argument holds `v`; a null one stands for empty metadata. */
  ghost predicate Shows(a: MetaData?, v: Meta)
    reads a, if a == null then {} else {a.gkv, a.ckv, a.props}
  {
    if a == null then v == EMPTY else a.Valid() && v == a.Value()
  }

  // ---------------------------------------------------------------- merging

  /** One guarded memcpy of a merge: nothing for a null vector. */
  method Append<T>(dst: array<T>, off: nat, src: array?<T>, n: nat) returns (next: nat)
    requires src != null ==> n <= src.Length && off + n <= dst.Length && src != dst
    requires src == null ==> n == 0
    requires off <= dst.Length
    modifies dst
    ensures next == off + n && next <= dst.Length
    ensures dst[..next] == old(dst[..off]) + (if src == null then [] else src[..n])
  {
    next := off;
    if src != null {
      for k := 0 to n
        invariant dst[..off + k] == old(dst[..off]) + src[..k]
      {
        dst[off + k] := src[k];
      }
      next := off + n;
    }
  }

  /** metadata_merge: null for too many keys or no memory, otherwise fresh metadata holding the flat first-wins merge. */
  method Merge(args: seq<MetaData?>, ghost vals: seq<Meta>, limit: nat, memFails: bool) returns (m: MetaData?)
    requires |vals| == |args|
    requires forall i | 0 <= i < |args| :: Shows(args[i], vals[i])
    ensures m == null <==> memFails || Merged(vals, limit).None?
    ensures m != null ==> fresh(m) && fresh(m.gkv) && fresh(m.ckv) && fresh(m.props)
    ensures m != null ==> m.Valid() && Some(m.Value()) == Merged(vals, limit)
  {
    var g, c, p := Totals(args, vals);
    if g > limit || c > limit || memFails {
      return null;
    }
    m := Gathered(args, vals, g, c, p);
    RemoveDups(m);
  }

  /** metadata_remove_dup on all three vectors. */
  method RemoveDups(m: MetaData)
    requires m.Valid() && m.gkv != null && m.ckv != null && m.props != null
    modifies m, m.gkv, m.ckv, m.props
    ensures m.Valid() && m.gkv == old(m.gkv) && m.ckv == old(m.ckv) && m.props == old(m.props)
    ensures var v := old(m.Value());
            m.Value() == Meta(Dedup(v.gkv, KeyOf), Dedup(v.ckv, KeyOf), Some(Dedup(v.props.value, Self)), v.propId)
  {
    var g := RemoveDup(m.gkv, m.numGkv, KeyOf);
    var c := RemoveDup(m.ckv, m.numCkv, KeyOf);
    var p := RemoveDup(m.props, m.numProps, Self);
    m.numGkv, m.numCkv, m.numProps := g, c, p;
  }

  /** The counting loop of a merge. */
  method Totals(args: seq<MetaData?>, ghost vals: seq<Meta>) returns (g: nat, c: nat, p: nat)
    requires |vals| == |args|
    requires forall i | 0 <= i < |args| :: Shows(args[i], vals[i])
    ensures g == |Gather(vals, GkvOf)| && c == |Gather(vals, CkvOf)| && p == |Gather(vals, PropsOf)|
  {
    g, c, p := 0, 0, 0;
    for i := 0 to |args|
      invariant g == |Gather(vals[..i], GkvOf)| && c == |Gather(vals[..i], CkvOf)| && p == |Gather(vals[..i], PropsOf)|
    {
      GatherNext(vals, i);
      if args[i] != null {
        g, c, p := g + args[i].numGkv, c + args[i].numCkv, p + args[i].numProps;
      }
    }
    assert vals[..|vals|] == vals;
  }

  lemma GatherNext(vals: seq<Meta>, i: nat)
    requires i < |vals|
    ensures Gather(vals[..i + 1], GkvOf) == Gather(vals[..i], GkvOf) + GkvOf(vals[i])
    ensures Gather(vals[..i + 1], CkvOf) == Gather(vals[..i], CkvOf) + CkvOf(vals[i])
    ensures Gather(vals[..i + 1], PropsOf) == Gather(vals[..i], PropsOf) + PropsOf(vals[i])
    ensures PropId(vals[..i + 1]) == if vals[i].props.Some? then vals[i].propId else PropId(vals[..i])
  {
    assert vals[..i + 1][..i] == vals[..i];
  }

  lemma GatherGrows<T>(vals: seq<Meta>, i: nat, part: Meta -> seq<T>)
    requires i <= |vals|
    ensures |Gather(vals[..i], part)| <= |Gather(vals, part)|
  {
    assert vals == vals[..i] + vals[i..];
    GatherAppend(vals[..i], vals[i..], part);
  }

  /** The buffers of a merge in progress, with the offsets reached. */
  datatype Buffers = Buffers(g: array<KV>, go: nat, c: array<KV>, co: nat, p: array<nat>, po: nat, id: nat)

  ghost predicate Filled(b: Buffers, vals: seq<Meta>)
    reads b.g, b.c, b.p
  {
    && b.g != b.c && b.go <= b.g.Length && b.co <= b.c.Length && b.po <= b.p.Length
    && b.g[..b.go] == Gather(vals, GkvOf) && b.c[..b.co] == Gather(vals, CkvOf) && b.p[..b.po] == Gather(vals, PropsOf)
    && b.id == PropId(vals)
  }

  /** One round of the copying loop of a merge. */
  method CopyOne(a: MetaData, b: Buffers, ghost vals: seq<Meta>, ghost i: nat) returns (b': Buffers)
    requires a.Valid() && i < |vals| && Filled(b, vals[..i]) && vals[i] == a.Value()
    requires b.go + a.numGkv <= b.g.Length && b.co + a.numCkv <= b.c.Length && b.po + a.numProps <= b.p.Length
    requires b.g !in {a.gkv, a.ckv} && b.c !in {a.gkv, a.ckv} && b.p != a.props
    modifies b.g, b.c, b.p
    ensures b'.g == b.g && b'.c == b.c && b'.p == b.p && Filled(b', vals[..i + 1])
  {
    GatherNext(vals, i);
    var go := Append(b.g, b.go, a.gkv, a.numGkv);
    var co := Append(b.c, b.co, a.ckv, a.numCkv);
    var po := Append(b.p, b.po, a.props, a.numProps);
    b' := Buffers(b.g, go, b.c, co, b.p, po, if a.props != null then a.propId else b.id);
  }

  ghost predicate Apart(a: MetaData?, b: Buffers)
    reads a
  {
    a != null ==> b.g !in {a.gkv, a.ckv} && b.c !in {a.gkv, a.ckv} && b.p != a.props
  }

  lemma RoomFor(vals: seq<Meta>, i: nat)
    requires i < |vals|
    ensures |Gather(vals[..i], GkvOf)| + |GkvOf(vals[i])| <= |Gather(vals, GkvOf)|
    ensures |Gather(vals[..i], CkvOf)| + |CkvOf(vals[i])| <= |Gather(vals, CkvOf)|
    ensures |Gather(vals[..i], PropsOf)| + |PropsOf(vals[i])| <= |Gather(vals, PropsOf)|
  {
    GatherNext(vals, i);
    GatherGrows(vals, i + 1, GkvOf);
    GatherGrows(vals, i + 1, CkvOf);
    GatherGrows(vals, i + 1, PropsOf);
  }

  /** The copying loop of a merge. */
  method CopyAll(args: seq<MetaData?>, ghost vals: seq<Meta>, b0: Buffers) returns (b: Buffers)
    requires |vals| == |args| && Filled(b0, [])
    requires forall i | 0 <= i < |args| :: Shows(args[i], vals[i])
    requires forall i | 0 <= i < |args| :: Apart(args[i], b0)
    requires b0.go == b0.co == b0.po == 0
    requires b0.g.Length == |Gather(vals, GkvOf)| && b0.c.Length == |Gather(vals, CkvOf)|
    requires b0.p.Length == |Gather(vals, PropsOf)|
    modifies b0.g, b0.c, b0.p
    ensures b.g == b0.g && b.c == b0.c && b.p == b0.p && Filled(b, vals)
  {
    b := b0;
    assert vals[..0] == [];
    for i := 0 to |args|
      invariant b.g == b0.g && b.c == b0.c && b.p == b0.p && Filled(b, vals[..i])
      invariant forall k | 0 <= k < |args| :: Shows(args[k], vals[k])
    {
      if args[i] != null {
        RoomFor(vals, i);
        assert Apart(args[i], b0) && Shows(args[i], vals[i]);
        b := CopyOne(args[i], b, vals, i);
        forall k | 0 <= k < |args| ensures Shows(args[k], vals[k]) {
          assert Apart(args[k], b0);
        }
      } else {
        assert Shows(args[i], vals[i]);
        GatherNext(vals, i);
      }
    }
    assert vals[..|vals|] == vals;
  }

  /** The allocations and copies of a merge, before deduplication. */
  method Gathered(args: seq<MetaData?>, ghost vals: seq<Meta>, g: nat, c: nat, p: nat) returns (m: MetaData)
    requires |vals| == |args|
    requires forall i | 0 <= i < |args| :: Shows(args[i], vals[i])
    requires g == |Gather(vals, GkvOf)| && c == |Gather(vals, CkvOf)| && p == |Gather(vals, PropsOf)|
    ensures fresh(m) && m.gkv != null && m.ckv != null && m.props != null
    ensures fresh(m.gkv) && fresh(m.ckv) && fresh(m.props)
    ensures m.Valid() && m.Value() == Meta(Gather(vals, GkvOf), Gather(vals, CkvOf), Some(Gather(vals, PropsOf)), PropId(vals))
  {
    var gb := new KV[g](_ => KV(0, 0));
    var cb := new KV[c](_ => KV(0, 0));
    var pb := new nat[p](_ => 0);
    var b := CopyAll(args, vals, Buffers(gb, 0, cb, 0, pb, 0, 0));
    assert b.go == g && b.co == c && b.po == p;
    m := new MetaData.Holding(gb, cb, pb, b.id);
  }

  // ---------------------------------------------------------------- a session's merged metadata

  /** One interface in memory, and the outcome of the allocations of its round. */
  datatype LegRef = LegRef(closed: bool, aif: MetaData, dev: MetaData, memFails: bool)

  ghost predicate ShowsLeg(r: LegRef, leg: Leg)
    reads r.aif, r.aif.gkv, r.aif.ckv, r.aif.props, r.dev, r.dev.gkv, r.dev.ckv, r.dev.props
  {
    r.closed == leg.closed && r.memFails == leg.starved && Shows(r.aif, leg.aif) && Shows(r.dev, leg.dev)
  }

  /** The merge so far, if there is one. */
  ghost predicate ShowsMerge(m: MetaData?, acc: Option<Meta>)
    reads m, if m == null then {} else {m.gkv, m.ckv, m.props}
  {
    if acc.None? then m == null else m != null && Shows(m, acc.value)
  }

  method MergeLeg(m: MetaData?, sess: MetaData, r: LegRef, ghost sv: Meta, ghost leg: Leg, limit: nat, ghost acc: Option<Meta>)
    returns (m': MetaData?)
    requires ShowsMerge(m, acc) && Shows(sess, sv) && ShowsLeg(r, leg)
    ensures ShowsMerge(m', FoldStep(sv, leg, limit, acc))
    ensures m' != null && m' != m ==> fresh(m')
  {
    if r.closed {
      return m;
    }
    ghost var vals := [if acc.Some? then acc.value else EMPTY, sv, leg.aif, leg.dev];
    assert vals == [vals[0]] + Contribution(sv, leg);
    var args := [m, sess, r.aif, r.dev];
    assert Shows(args[0], vals[0]) && Shows(args[1], vals[1]) && Shows(args[2], vals[2]) && Shows(args[3], vals[3]);
    m' := Merge(args, vals, limit, r.memFails);
  }

  /** session_get_merged_metadata for a tunnel session. */
  method MergeInterfaces(sess: MetaData, refs: seq<LegRef>, ghost sv: Meta, ghost legs: seq<Leg>, limit: nat)
    returns (m: MetaData?)
    requires Shows(sess, sv) && |legs| == |refs| && forall i | 0 <= i < |refs| :: ShowsLeg(refs[i], legs[i])
    ensures ShowsMerge(m, Fold(sv, legs, limit)) && (m != null ==> fresh(m))
  {
    m := null;
    for i := 0 to |refs|
      invariant ShowsMerge(m, Fold(sv, legs[..i], limit)) && (m != null ==> fresh(m))
    {
      assert legs[..i + 1][..i] == legs[..i];
      assert ShowsLeg(refs[i], legs[i]);
      m := MergeLeg(m, sess, refs[i], sv, legs[i], limit, Fold(sv, legs[..i], limit));
    }
    assert legs[..|legs|] == legs;
  }

  // ---------------------------------------------------------------- calibration of a session

  /** session_obj_set_sess_aif_cal: calibrates the three parts, then merges them; the same as calibrating their merge. */
  method SetCal(sess: MetaData, aif: MetaData, dev: MetaData, cal: array<KV>, n: nat, limit: nat, memFails: bool)
    returns (m: MetaData?)
    requires sess.Valid() && aif.Valid() && dev.Valid() && n <= cal.Length
    requires Separate(sess, cal, aif, dev) && Separate(aif, cal, sess, dev) && Separate(dev, cal, sess, aif)
    modifies sess.ckv, aif.ckv, dev.ckv
    ensures var parts := old([sess.Value(), aif.Value(), dev.Value()]);
            m == null <==> memFails || Merged(parts, limit).None?
    ensures var parts := old([sess.Value(), aif.Value(), dev.Value()]);
            m != null ==> m.Valid() && Merged(parts, limit).Some? && m.Value() == Updated(Merged(parts, limit).value, cal[..n])
    ensures var parts := old([sess.Value(), aif.Value(), dev.Value()]);
            m != null ==> AllRecalibrated(Join(parts).ckv, cal[..n], m.Value().ckv)
  {
    ghost var parts := [sess.Value(), aif.Value(), dev.Value()];
    CalibrateThree(sess, aif, dev, cal, n, parts);
    ghost var vals := UpdatedAll(parts, cal[..n]);
    var args := [sess, aif, dev];
    assert Shows(args[0], vals[0]) && Shows(args[1], vals[1]) && Shows(args[2], vals[2]);
    m := Merge(args, vals, limit, memFails);
    CalibrationCommutes(parts, cal[..n], limit);
  }

  method CalibrateThree(a: MetaData, b: MetaData, c: MetaData, cal: array<KV>, n: nat, ghost vals: seq<Meta>)
    requires n <= cal.Length && |vals| == 3 && Shows(a, vals[0]) && Shows(b, vals[1]) && Shows(c, vals[2])
    requires Separate(a, cal, b, c) && Separate(b, cal, a, c) && Separate(c, cal, a, b)
    modifies a.ckv, b.ckv, c.ckv
    ensures Shows(a, Updated(vals[0], cal[..n])) && Shows(b, Updated(vals[1], cal[..n])) && Shows(c, Updated(vals[2], cal[..n]))
    ensures cal[..n] == old(cal[..n])
  {
    ghost var k := cal[..n];
    CalibrateOne(a, cal, n, k, vals[0], b, vals[1], c, vals[2]);
    CalibrateOne(b, cal, n, k, vals[1], a, Updated(vals[0], k), c, vals[2]);
    CalibrateOne(c, cal, n, k, vals[2], a, Updated(vals[0], k), b, Updated(vals[1], k));
  }

  /** Calibrates `a` and leaves what `b` and `c` show alone. */
  method CalibrateOne(a: MetaData, cal: array<KV>, n: nat, ghost k: seq<KV>,
                      ghost av: Meta, ghost b: MetaData, ghost bv: Meta, ghost c: MetaData, ghost cv: Meta)
    requires n <= cal.Length && cal[..n] == k && Shows(a, av) && Shows(b, bv) && Shows(c, cv) && Separate(a, cal, b, c)
    modifies a.ckv
    ensures cal[..n] == k && Shows(a, Updated(av, k)) && Shows(b, bv) && Shows(c, cv)
  {
    a.UpdateCal(cal, n);
  }

  /** The calibration vector and the other parts do not share the vector that is calibrated. */
  ghost predicate Separate(a: MetaData, cal: array<KV>, b: MetaData, c: MetaData)
    reads a, b, c
  {
    cal != a.ckv && cal != a.gkv && (a.ckv != null ==> a.ckv !in {b.gkv, b.ckv, c.gkv, c.ckv})
  }
}
