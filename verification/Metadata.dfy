/**
 Metadata as values (service/src/metadata.c): key vectors, first-wins merging, calibration, and the fold
 a session makes over its interfaces (service/src/session_obj.c).
 */
module Metadata {
  import opened Common

  datatype KV = KV(key: nat, value: nat)

  /** `props` is None while the property pointer is null. */
  datatype Meta = Meta(gkv: seq<KV>, ckv: seq<KV>, props: Option<seq<nat>>, propId: nat)

  const EMPTY := Meta([], [], None, 0)

  function KeyOf(kv: KV): nat { kv.key }

  function Self(x: nat): nat { x }

  // ---------------------------------------------------------------- first-wins deduplication

  ghost predicate HasKey<T>(s: seq<T>, key: T -> nat, k: nat) {
    exists i | 0 <= i < |s| :: key(s[i]) == k
  }

  ghost predicate Distinct<T>(s: seq<T>, key: T -> nat) {
    forall i, j | 0 <= i < j < |s| :: key(s[i]) != key(s[j])
  }

  /** The elements whose key does not occur before them. */
  ghost function Dedup<T>(s: seq<T>, key: T -> nat): (d: seq<T>)
    ensures |d| <= |s|
  {
    if s == [] then []
    else
      var n := |s| - 1;
      Dedup(s[..n], key) + if HasKey(s[..n], key, key(s[n])) then [] else [s[n]]
  }

  /** The element a reader finds under `k`: the first one. */
  function Lookup<T>(s: seq<T>, key: T -> nat, k: nat): Option<T> {
    if s == [] then None
    else if key(s[0]) == k then Some(s[0])
    else Lookup(s[1..], key, k)
  }

  lemma HasKeyAppend<T>(a: seq<T>, b: seq<T>, key: T -> nat, k: nat)
    ensures HasKey(a + b, key, k) <==> HasKey(a, key, k) || HasKey(b, key, k)
  {
    if HasKey(a, key, k) {
      var i :| 0 <= i < |a| && key(a[i]) == k;
      assert (a + b)[i] == a[i];
    }
    if HasKey(b, key, k) {
      var i :| 0 <= i < |b| && key(b[i]) == k;
      assert (a + b)[|a| + i] == b[i];
    }
  }

  lemma {:induction false} DedupKeys<T>(s: seq<T>, key: T -> nat, k: nat)
    ensures HasKey(Dedup(s, key), key, k) <==> HasKey(s, key, k)
  {
    if s != [] {
      var n := |s| - 1;
      DedupKeys(s[..n], key, k);
      HasKeyAppend(s[..n], [s[n]], key, k);
      HasKeyAppend(Dedup(s[..n], key), [s[n]], key, k);
      assert s == s[..n] + [s[n]];
      assert HasKey([s[n]], key, k) <==> key([s[n]][0]) == k;
      assert Dedup(s[..n], key) + [] == Dedup(s[..n], key);
    }
  }

  lemma {:induction false} DedupDistinct<T>(s: seq<T>, key: T -> nat)
    ensures Distinct(Dedup(s, key), key)
  {
    if s != [] {
      var n := |s| - 1;
      DedupDistinct(s[..n], key);
      DedupKeys(s[..n], key, key(s[n]));
    }
  }

  lemma {:induction false} DedupFixed<T>(s: seq<T>, key: T -> nat)
    requires Distinct(s, key)
    ensures Dedup(s, key) == s
  {
    if s != [] {
      var n := |s| - 1;
      DedupFixed(s[..n], key);
      assert s == s[..n] + [s[n]];
    }
  }

  /** Deduplicating a prefix first makes no difference. */
  lemma {:induction false} DedupPrefix<T>(a: seq<T>, b: seq<T>, key: T -> nat)
    ensures Dedup(Dedup(a, key) + b, key) == Dedup(a + b, key)
  {
    if b == [] {
      assert a + b == a && Dedup(a, key) + b == Dedup(a, key);
      DedupDistinct(a, key);
      DedupFixed(Dedup(a, key), key);
    } else {
      var n := |b| - 1;
      var d := Dedup(a, key);
      DedupPrefix(a, b[..n], key);
      assert (a + b)[..|a| + n] == a + b[..n] && (d + b)[..|d| + n] == d + b[..n];
      HasKeyAppend(a, b[..n], key, key(b[n]));
      HasKeyAppend(d, b[..n], key, key(b[n]));
      DedupKeys(a, key, key(b[n]));
    }
  }

  lemma DedupRepeat<T>(a: seq<T>, x: T, key: T -> nat, i: nat)
    requires i < |a| && key(a[i]) == key(x)
    ensures Dedup(a + [x], key) == Dedup(a, key)
  {
    assert (a + [x])[..|a|] == a;
  }

  /** Removing an element whose key occurs before it changes nothing. */
  lemma DedupWithout<T>(a: seq<T>, x: T, rest: seq<T>, key: T -> nat, i: nat)
    requires i < |a| && key(a[i]) == key(x)
    ensures Dedup((a + [x]) + rest, key) == Dedup(a + rest, key)
  {
    DedupRepeat(a, x, key, i);
    DedupPrefix(a + [x], rest, key);
    DedupPrefix(a, rest, key);
  }

  lemma {:induction false} LookupAppend<T>(a: seq<T>, b: seq<T>, key: T -> nat, k: nat)
    ensures Lookup(a + b, key, k) == if HasKey(a, key, k) then Lookup(a, key, k) else Lookup(b, key, k)
  {
    if a == [] {
      assert a + b == b;
    } else {
      assert (a + b)[1..] == a[1..] + b;
      LookupAppend(a[1..], b, key, k);
      HasKeyAppend([a[0]], a[1..], key, k);
      assert a == [a[0]] + a[1..];
      assert HasKey([a[0]], key, k) <==> key([a[0]][0]) == k;
    }
  }

  /** First wins: a reader finds the same element before and after. */
  lemma {:induction false} DedupLookup<T>(s: seq<T>, key: T -> nat, k: nat)
    ensures Lookup(Dedup(s, key), key, k) == Lookup(s, key, k)
  {
    if s != [] {
      var n := |s| - 1;
      DedupLookup(s[..n], key, k);
      DedupKeys(s[..n], key, k);
      assert s == s[..n] + [s[n]];
      LookupAppend(s[..n], [s[n]], key, k);
      LookupAppend(Dedup(s[..n], key), [s[n]], key, k);
      LookupAppend(s[..n], [], key, k);
      assert s[..n] + [] == s[..n] && Dedup(s[..n], key) + [] == Dedup(s[..n], key);
    }
  }

  /** Order is kept: an element whose key does not occur before it comes behind those that do so before it. */
  lemma {:induction false} DedupOrder<T>(s: seq<T>, key: T -> nat, i: nat)
    requires i < |s| && !HasKey(s[..i], key, key(s[i]))
    ensures |Dedup(s[..i], key)| < |Dedup(s, key)| && Dedup(s, key)[|Dedup(s[..i], key)|] == s[i]
  {
    var n := |s| - 1;
    if i < n {
      assert s[..n][..i] == s[..i];
      DedupOrder(s[..n], key, i);
    }
  }

  // ---------------------------------------------------------------- merging

  function GkvOf(m: Meta): seq<KV> { m.gkv }

  function CkvOf(m: Meta): seq<KV> { m.ckv }

  function PropsOf(m: Meta): seq<nat> { if m.props.Some? then m.props.value else [] }

  /** One vector after the other. */
  function Gather<T>(ms: seq<Meta>, part: Meta -> seq<T>): seq<T> {
    if ms == [] then [] else Gather(ms[..|ms| - 1], part) + part(ms[|ms| - 1])
  }

  /** The property id is last-wins, over the metadata that carry properties at all. */
  function PropId(ms: seq<Meta>): nat {
    if ms == [] then 0
    else if ms[|ms| - 1].props.Some? then ms[|ms| - 1].propId
    else PropId(ms[..|ms| - 1])
  }

  /** One flat merge of everything, without the size limit. */
  ghost function Join(ms: seq<Meta>): Meta {
    Meta(Dedup(Gather(ms, GkvOf), KeyOf), Dedup(Gather(ms, CkvOf), KeyOf), Some(Dedup(Gather(ms, PropsOf), Self)), PropId(ms))
  }

  predicate Fits(ms: seq<Meta>, limit: nat) {
    |Gather(ms, GkvOf)| <= limit && |Gather(ms, CkvOf)| <= limit
  }

  /** metadata_merge with all allocations succeeding. */
  ghost function Merged(ms: seq<Meta>, limit: nat): Option<Meta> {
    if Fits(ms, limit) then Some(Join(ms)) else None
  }

  lemma {:induction false} GatherAppend<T>(a: seq<Meta>, b: seq<Meta>, part: Meta -> seq<T>)
    ensures Gather(a + b, part) == Gather(a, part) + Gather(b, part)
  {
    if b == [] {
      assert a + b == a;
    } else {
      var n := |b| - 1;
      assert (a + b)[..|a| + n] == a + b[..n];
      GatherAppend(a, b[..n], part);
    }
  }

  ghost predicate HasProps(ms: seq<Meta>) {
    exists i | 0 <= i < |ms| :: ms[i].props.Some?
  }

  lemma {:induction false} PropIdAppend(a: seq<Meta>, b: seq<Meta>)
    ensures PropId(a + b) == if HasProps(b) then PropId(b) else PropId(a)
  {
    if b == [] {
      assert a + b == a;
    } else {
      var n := |b| - 1;
      assert (a + b)[..|a| + n] == a + b[..n];
      PropIdAppend(a, b[..n]);
      if HasProps(b) && !b[n].props.Some? {
        var i :| 0 <= i < |b| && b[i].props.Some?;
        assert b[..n][i].props.Some?;
      }
    }
  }

  /** A merge takes a key's value from the first argument that has the key. */
  lemma {:induction false} KeyFromFirst<T>(ms: seq<Meta>, part: Meta -> seq<T>, key: T -> nat, k: nat, i: nat)
    requires i < |ms| && HasKey(part(ms[i]), key, k) && forall j | 0 <= j < i :: !HasKey(part(ms[j]), key, k)
    ensures Lookup(Dedup(Gather(ms, part), key), key, k) == Lookup(part(ms[i]), key, k)
  {
    DedupLookup(Gather(ms, part), key, k);
    assert ms == ms[..i] + [ms[i]] + ms[i + 1..];
    GatherAppend(ms[..i] + [ms[i]], ms[i + 1..], part);
    GatherAppend(ms[..i], [ms[i]], part);
    assert Gather([ms[i]], part) == part(ms[i]) by {
      assert [ms[i]][..0] == [];
    }
    NotGathered(ms[..i], part, key, k);
    LookupAppend(Gather(ms[..i], part) + part(ms[i]), Gather(ms[i + 1..], part), key, k);
    LookupAppend(Gather(ms[..i], part), part(ms[i]), key, k);
    HasKeyAppend(Gather(ms[..i], part), part(ms[i]), key, k);
  }

  lemma {:induction false} NotGathered<T>(ms: seq<Meta>, part: Meta -> seq<T>, key: T -> nat, k: nat)
    requires forall j | 0 <= j < |ms| :: !HasKey(part(ms[j]), key, k)
    ensures !HasKey(Gather(ms, part), key, k)
  {
    if ms != [] {
      var n := |ms| - 1;
      assert forall j | 0 <= j < n :: ms[..n][j] == ms[j];
      NotGathered(ms[..n], part, key, k);
      HasKeyAppend(Gather(ms[..n], part), part(ms[n]), key, k);
    }
  }

  /** The property id is that of the last argument with properties. */
  lemma {:induction false} PropIdFromLast(ms: seq<Meta>, i: nat)
    requires i < |ms| && ms[i].props.Some? && forall j | i < j < |ms| :: ms[j].props.None?
    ensures Join(ms).propId == ms[i].propId
  {
    if i < |ms| - 1 {
      PropIdFromLast(ms[..|ms| - 1], i);
    }
  }

  /** Merging into an earlier merge gives the flat merge. */
  lemma JoinTwice(xs: seq<Meta>, ys: seq<Meta>)
    ensures Join([Join(xs)] + ys) == Join(xs + ys)
    ensures forall limit :: Fits(xs + ys, limit) ==> Fits([Join(xs)] + ys, limit)
  {
    var j := [Join(xs)];
    PartTwice(xs, ys, GkvOf, KeyOf);
    PartTwice(xs, ys, CkvOf, KeyOf);
    PartTwice(xs, ys, PropsOf, Self);
    PropIdAppend(j, ys);
    PropIdAppend(xs, ys);
    assert j[..0] == [];
  }

  lemma PartTwice<T>(xs: seq<Meta>, ys: seq<Meta>, part: Meta -> seq<T>, key: T -> nat)
    requires part(Join(xs)) == Dedup(Gather(xs, part), key)
    ensures Dedup(Gather([Join(xs)] + ys, part), key) == Dedup(Gather(xs + ys, part), key)
    ensures |Gather([Join(xs)] + ys, part)| <= |Gather(xs + ys, part)|
  {
    var j := [Join(xs)];
    assert j[..0] == [];
    assert Gather(j, part) == part(Join(xs));
    GatherAppend(j, ys, part);
    GatherAppend(xs, ys, part);
    DedupPrefix(Gather(xs, part), Gather(ys, part), key);
  }

  // ---------------------------------------------------------------- a session's merged metadata

  /**
   One interface: whether it is AIF_CLOSED, its session-interface metadata, its device's metadata, and
   whether the merge of its round runs out of memory.
   */
  datatype Leg = Leg(closed: bool, aif: Meta, dev: Meta, starved: bool)

  /** Everything the open legs contribute, in order. */
  function Contributions(sess: Meta, legs: seq<Leg>): seq<Meta> {
    if legs == [] then []
    else Contributions(sess, legs[..|legs| - 1]) + Contribution(sess, legs[|legs| - 1])
  }

  function Contribution(sess: Meta, leg: Leg): seq<Meta> {
    if leg.closed then [] else [sess, leg.aif, leg.dev]
  }

  /** In what an open leg contributes, the session's keys win over the interface's, and those over the device's. */
  lemma SessionKeysWin(sess: Meta, leg: Leg, k: nat)
    requires !leg.closed
    ensures var m := Join(Contribution(sess, leg));
            && Lookup(m.gkv, KeyOf, k) == Precedence(sess.gkv, leg.aif.gkv, leg.dev.gkv, k)
            && Lookup(m.ckv, KeyOf, k) == Precedence(sess.ckv, leg.aif.ckv, leg.dev.ckv, k)
  {
    PartPrecedence(sess, leg, GkvOf, k);
    PartPrecedence(sess, leg, CkvOf, k);
  }

  /** What a reader finds under `k` in three vectors, the earlier one first. */
  ghost function Precedence(a: seq<KV>, b: seq<KV>, c: seq<KV>, k: nat): Option<KV> {
    if HasKey(a, KeyOf, k) then Lookup(a, KeyOf, k)
    else if HasKey(b, KeyOf, k) then Lookup(b, KeyOf, k)
    else Lookup(c, KeyOf, k)
  }

  lemma PartPrecedence(sess: Meta, leg: Leg, part: Meta -> seq<KV>, k: nat)
    requires !leg.closed
    ensures Lookup(Dedup(Gather(Contribution(sess, leg), part), KeyOf), KeyOf, k)
            == Precedence(part(sess), part(leg.aif), part(leg.dev), k)
  {
    var ms := Contribution(sess, leg);
    if HasKey(part(sess), KeyOf, k) {
      KeyFromFirst(ms, part, KeyOf, k, 0);
    } else if HasKey(part(leg.aif), KeyOf, k) {
      KeyFromFirst(ms, part, KeyOf, k, 1);
    } else if HasKey(part(leg.dev), KeyOf, k) {
      KeyFromFirst(ms, part, KeyOf, k, 2);
    } else {
      NotGathered(ms, part, KeyOf, k);
      DedupLookup(Gather(ms, part), KeyOf, k);
      LookupNone(Gather(ms, part), KeyOf, k);
      LookupNone(part(leg.dev), KeyOf, k);
    }
  }

  /** A reader finds the first element under the key. */
  lemma {:induction false} LookupFirst<T>(s: seq<T>, key: T -> nat, k: nat, i: nat)
    requires i < |s| && key(s[i]) == k && forall j | 0 <= j < i :: key(s[j]) != k
    ensures Lookup(s, key, k) == Some(s[i])
  {
    if i > 0 {
      assert key(s[0]) != k;
      assert forall j | 0 <= j < |s| - 1 :: s[1..][j] == s[j + 1];
      LookupFirst(s[1..], key, k, i - 1);
    }
  }

  lemma {:induction false} LookupNone<T>(s: seq<T>, key: T -> nat, k: nat)
    requires !HasKey(s, key, k)
    ensures Lookup(s, key, k) == None
  {
    if s != [] {
      assert key(s[0]) != k;
      assert forall i | 0 <= i < |s| - 1 :: s[1..][i] == s[i + 1];
      LookupNone(s[1..], key, k);
    }
  }

  /** One round of session_get_merged_metadata: `acc` is the merge so far, None before the first and after a failed one. */
  ghost function FoldStep(sess: Meta, leg: Leg, limit: nat, acc: Option<Meta>): Option<Meta> {
    if leg.closed then acc
    else if leg.starved then None
    else Merged([if acc.Some? then acc.value else EMPTY] + Contribution(sess, leg), limit)
  }

  ghost function Fold(sess: Meta, legs: seq<Leg>, limit: nat): Option<Meta> {
    if legs == [] then None
    else FoldStep(sess, legs[|legs| - 1], limit, Fold(sess, legs[..|legs| - 1], limit))
  }

  /** None for nothing at all, otherwise the flat merge. */
  ghost function Flat(ms: seq<Meta>): Option<Meta> {
    if ms == [] then None else Some(Join(ms))
  }

  lemma FitsParts(a: seq<Meta>, b: seq<Meta>, limit: nat)
    requires Fits(a + b, limit)
    ensures Fits(a, limit) && Fits(b, limit)
  {
    GatherAppend(a, b, GkvOf);
    GatherAppend(a, b, CkvOf);
  }

  /** A round that does not fail adds its leg to the flat merge. */
  lemma FoldStepIsFlat(sess: Meta, leg: Leg, limit: nat, done: seq<Meta>)
    ensures FoldStep(sess, leg, limit, Flat(done)).Some? || leg.closed ==>
              FoldStep(sess, leg, limit, Flat(done)) == Flat(done + Contribution(sess, leg))
    ensures Fits(done + Contribution(sess, leg), limit) && !leg.closed && !leg.starved ==> FoldStep(sess, leg, limit, Flat(done)).Some?
  {
    var more := Contribution(sess, leg);
    if leg.closed {
      assert done + more == done;
    } else if done == [] {
      assert done + more == more;
      EmptyContributesNothing(more);
    } else {
      JoinTwice(done, more);
    }
  }

  /** A null argument of a merge counts as empty metadata. */
  lemma EmptyContributesNothing(ms: seq<Meta>)
    ensures Join([EMPTY] + ms) == Join(ms)
    ensures forall limit :: Fits([EMPTY] + ms, limit) <==> Fits(ms, limit)
  {
    EmptyPart(ms, GkvOf);
    EmptyPart(ms, CkvOf);
    EmptyPart(ms, PropsOf);
    PropIdAppend([EMPTY], ms);
    assert [EMPTY][..0] == [];
    if !HasProps(ms) {
      PropIdNone(ms);
    }
  }

  lemma EmptyPart<T>(ms: seq<Meta>, part: Meta -> seq<T>)
    requires part(EMPTY) == []
    ensures Gather([EMPTY] + ms, part) == Gather(ms, part)
  {
    assert [EMPTY][..0] == [];
    assert Gather([EMPTY], part) == [];
    GatherAppend([EMPTY], ms, part);
  }

  lemma {:induction false} PropIdNone(ms: seq<Meta>)
    requires !HasProps(ms)
    ensures PropId(ms) == 0
  {
    if ms != [] {
      var n := |ms| - 1;
      assert forall i | 0 <= i < n :: ms[..n][i] == ms[i];
      PropIdNone(ms[..n]);
    }
  }

  /** No open leg's merge runs out of memory. */
  predicate Fed(legs: seq<Leg>) {
    forall i | 0 <= i < |legs| :: legs[i].closed || !legs[i].starved
  }

  /** Folding pairwise merges over the interfaces is one flat merge, as long as the flat totals fit and there is memory. */
  lemma {:induction false} FoldIsFlatMerge(sess: Meta, legs: seq<Leg>, limit: nat)
    requires Fits(Contributions(sess, legs), limit) && Fed(legs)
    ensures Fold(sess, legs, limit) == Flat(Contributions(sess, legs))
  {
    if legs != [] {
      var n := |legs| - 1;
      assert Fed(legs[..n]);
      FitsParts(Contributions(sess, legs[..n]), Contribution(sess, legs[n]), limit);
      FoldIsFlatMerge(sess, legs[..n], limit);
      FoldStepIsFlat(sess, legs[n], limit, Contributions(sess, legs[..n]));
    }
  }

  /** What a round finds after these contributions. */
  ghost function SoFar(done: seq<Meta>): Meta {
    if done == [] then EMPTY else Join(done)
  }

  /** There is memory for leg `k`, and its keys, with what the legs from `from` on gave, are few enough to merge. */
  ghost predicate RoundFits(sess: Meta, legs: seq<Leg>, limit: nat, from: nat, k: nat)
    requires from <= k < |legs|
  {
    legs[k].closed || (!legs[k].starved && Fits([SoFar(Contributions(sess, legs[from..k]))] + Contribution(sess, legs[k]), limit))
  }

  /** How many legs there are up to and including the last one that could not be merged; counting starts over behind each. */
  ghost function Lost(sess: Meta, legs: seq<Leg>, limit: nat): (k: nat)
    ensures k <= |legs|
  {
    if legs == [] then 0
    else
      var n := |legs| - 1;
      var from := Lost(sess, legs[..n], limit);
      if RoundFits(sess, legs, limit, from, n) then from else |legs|
  }

  /** For all inputs: the fold is the flat merge of the legs after the last one that could not be merged. */
  lemma {:induction false} FoldKeepsSuffix(sess: Meta, legs: seq<Leg>, limit: nat)
    ensures Fold(sess, legs, limit) == Flat(Contributions(sess, legs[Lost(sess, legs, limit)..]))
  {
    if legs != [] {
      var n := |legs| - 1;
      var k := Lost(sess, legs[..n], limit);
      FoldKeepsSuffix(sess, legs[..n], limit);
      assert legs[..n][k..] == legs[k..n];
      FoldStepIsFlat(sess, legs[n], limit, Contributions(sess, legs[k..n]));
      ContributionsLast(sess, legs, k);
    }
  }

  /** In every round there is memory, and the merge of all legs before it and the leg's own keys fit. */
  ghost predicate AllFit(sess: Meta, legs: seq<Leg>, limit: nat) {
    forall k | 0 <= k < |legs| :: RoundFits(sess, legs, limit, 0, k)
  }

  lemma {:induction false} AllFitNext(sess: Meta, legs: seq<Leg>, limit: nat)
    requires legs != []
    ensures AllFit(sess, legs, limit) <==>
              AllFit(sess, legs[..|legs| - 1], limit) && RoundFits(sess, legs, limit, 0, |legs| - 1)
  {
    var n := |legs| - 1;
    forall k | 0 <= k < n ensures RoundFits(sess, legs[..n], limit, 0, k) <==> RoundFits(sess, legs, limit, 0, k) {
      assert legs[..n][0..k] == legs[0..k];
    }
  }

  lemma {:induction false} NothingLost(sess: Meta, legs: seq<Leg>, limit: nat)
    ensures Lost(sess, legs, limit) == 0 <==> AllFit(sess, legs, limit)
  {
    if legs != [] {
      NothingLost(sess, legs[..|legs| - 1], limit);
      AllFitNext(sess, legs, limit);
    }
  }

  /** If every round can merge, the fold is the flat merge of all legs, even if the flat totals do not fit. */
  lemma {:induction false} FoldIsFlatIfAllFit(sess: Meta, legs: seq<Leg>, limit: nat)
    requires AllFit(sess, legs, limit)
    ensures Fold(sess, legs, limit) == Flat(Contributions(sess, legs))
  {
    NothingLost(sess, legs, limit);
    FoldKeepsSuffix(sess, legs, limit);
    assert legs[0..] == legs;
  }

  predicate AllClosed(legs: seq<Leg>) {
    forall i | 0 <= i < |legs| :: legs[i].closed
  }

  /** The fold fails exactly if no open leg comes after the last one that could not be merged. */
  lemma {:induction false} FoldFails(sess: Meta, legs: seq<Leg>, limit: nat)
    ensures Fold(sess, legs, limit).None? <==> AllClosed(legs[Lost(sess, legs, limit)..])
  {
    FoldKeepsSuffix(sess, legs, limit);
    NoContributions(sess, legs[Lost(sess, legs, limit)..]);
  }

  lemma {:induction false} NoContributions(sess: Meta, legs: seq<Leg>)
    ensures Contributions(sess, legs) == [] <==> AllClosed(legs)
  {
    if legs != [] {
      var n := |legs| - 1;
      NoContributions(sess, legs[..n]);
      assert forall i | 0 <= i < n :: legs[..n][i] == legs[i];
    }
  }

  lemma ContributionsLast(sess: Meta, legs: seq<Leg>, k: nat)
    requires k < |legs|
    ensures Contributions(sess, legs[k..])
            == Contributions(sess, legs[..|legs| - 1][k..]) + Contribution(sess, legs[|legs| - 1])
  {
    assert legs[k..][..|legs| - 1 - k] == legs[..|legs| - 1][k..];
  }

  /** After a merge that failed, the fold starts over. */
  lemma {:induction false} FoldStartsOver(sess: Meta, lost: seq<Leg>, legs: seq<Leg>, limit: nat)
    requires Fold(sess, lost, limit).None?
    ensures Fold(sess, lost + legs, limit) == Fold(sess, legs, limit)
  {
    if legs == [] {
      assert lost + legs == lost;
    } else {
      var n := |legs| - 1;
      assert (lost + legs)[..|lost| + n] == lost + legs[..n];
      FoldStartsOver(sess, lost, legs[..n], limit);
    }
  }

  /**
   A leg too large to merge, or without memory to merge it, takes everything before it with it.  It is an
   error exactly if it is the last open leg; otherwise the legs before and including it silently disappear.
   */
  lemma {:induction false} OversizedLegIsDropped(sess: Meta, before: seq<Leg>, big: Leg, legs: seq<Leg>, limit: nat)
    requires !big.closed && (big.starved || !Fits(Contribution(sess, big), limit))
    requires Fits(Contributions(sess, legs), limit) && Fed(legs)
    ensures Fold(sess, before + [big] + legs, limit) == Flat(Contributions(sess, legs))
    ensures Fold(sess, before + [big] + legs, limit).None? <==> AllClosed(legs)
  {
    NoContributions(sess, legs);
    var lost := before + [big];
    assert lost[..|before|] == before;
    var acc := Fold(sess, before, limit);
    var head := [if acc.Some? then acc.value else EMPTY];
    if Fits(head + Contribution(sess, big), limit) {
      FitsParts(head, Contribution(sess, big), limit);
    }
    FoldStartsOver(sess, lost, legs, limit);
    FoldIsFlatMerge(sess, legs, limit);
  }

  // ---------------------------------------------------------------- calibration

  /** The value a calibration vector gives to `k`: its last entry for it. */
  function CalValue(cal: seq<KV>, k: nat): Option<nat> {
    if cal == [] then None
    else if cal[|cal| - 1].key == k then Some(cal[|cal| - 1].value)
    else CalValue(cal[..|cal| - 1], k)
  }

  function Calibrated(kv: KV, cal: seq<KV>): KV {
    var v := CalValue(cal, kv.key);
    if v.Some? then kv.(value := v.value) else kv
  }

  /** Entry `j` is the last one for this key. */
  predicate LastFor(cal: seq<KV>, key: nat, j: nat) {
    j < |cal| && cal[j].key == key && forall m | j < m < |cal| :: cal[m].key != key
  }

  /** What calibrating makes of one element: the value of the last entry for its key, or nothing new. */
  ghost predicate Recalibrated(kv: KV, cal: seq<KV>, r: KV) {
    && (forall j: nat | LastFor(cal, kv.key, j) :: r == KV(kv.key, cal[j].value))
    && ((forall j | 0 <= j < |cal| :: cal[j].key != kv.key) ==> r == kv)
  }

  ghost predicate AllRecalibrated(s: seq<KV>, cal: seq<KV>, r: seq<KV>) {
    |r| == |s| && forall i | 0 <= i < |s| :: Recalibrated(s[i], cal, r[i])
  }

  lemma {:induction false} CalibratedMeans(kv: KV, cal: seq<KV>)
    ensures Recalibrated(kv, cal, Calibrated(kv, cal))
  {
    if cal != [] {
      var n := |cal| - 1;
      CalibratedMeans(kv, cal[..n]);
      assert forall j | 0 <= j < n :: cal[..n][j] == cal[j];
      if cal[n].key != kv.key {
        forall j: nat | LastFor(cal, kv.key, j) ensures Calibrated(kv, cal) == KV(kv.key, cal[j].value) {
          assert LastFor(cal[..n], kv.key, j);
        }
      }
    }
  }

  lemma AllCalibratedMeans(s: seq<KV>, cal: seq<KV>)
    ensures AllRecalibrated(s, cal, CalibratedAll(s, cal))
  {
    forall i | 0 <= i < |s| ensures Recalibrated(s[i], cal, CalibratedAll(s, cal)[i]) {
      CalibratedMeans(s[i], cal);
    }
  }

  function CalibratedAll(s: seq<KV>, cal: seq<KV>): (r: seq<KV>)
    ensures |r| == |s| && forall i | 0 <= i < |s| :: r[i] == Calibrated(s[i], cal)
  {
    if s == [] then [] else CalibratedAll(s[..|s| - 1], cal) + [Calibrated(s[|s| - 1], cal)]
  }

  /** metadata_update_cal. */
  function Updated(m: Meta, cal: seq<KV>): Meta {
    m.(ckv := CalibratedAll(m.ckv, cal))
  }

  function UpdatedAll(ms: seq<Meta>, cal: seq<KV>): (r: seq<Meta>)
    ensures |r| == |ms| && forall i | 0 <= i < |ms| :: r[i] == Updated(ms[i], cal)
  {
    if ms == [] then [] else UpdatedAll(ms[..|ms| - 1], cal) + [Updated(ms[|ms| - 1], cal)]
  }

  lemma {:induction false} DedupCalibrated(s: seq<KV>, cal: seq<KV>)
    ensures Dedup(CalibratedAll(s, cal), KeyOf) == CalibratedAll(Dedup(s, KeyOf), cal)
  {
    if s != [] {
      var n := |s| - 1;
      DedupCalibrated(s[..n], cal);
      var c := CalibratedAll(s, cal);
      assert c[..n] == CalibratedAll(s[..n], cal);
      assert HasKey(c[..n], KeyOf, s[n].key) <==> HasKey(s[..n], KeyOf, s[n].key) by {
        assert forall i | 0 <= i < n :: KeyOf(c[..n][i]) == KeyOf(s[..n][i]);
      }
      assert Dedup(s[..n], KeyOf) + [] == Dedup(s[..n], KeyOf);
    }
  }

  lemma CalibratedAppend(a: seq<KV>, b: seq<KV>, cal: seq<KV>)
    ensures CalibratedAll(a + b, cal) == CalibratedAll(a, cal) + CalibratedAll(b, cal)
  {
  }

  lemma {:induction false} GatherCalibrated(ms: seq<Meta>, cal: seq<KV>)
    ensures Gather(UpdatedAll(ms, cal), CkvOf) == CalibratedAll(Gather(ms, CkvOf), cal)
  {
    if ms != [] {
      var n := |ms| - 1;
      var rest := UpdatedAll(ms[..n], cal);
      GatherCalibrated(ms[..n], cal);
      assert UpdatedAll(ms, cal) == rest + [Updated(ms[n], cal)];
      assert (rest + [Updated(ms[n], cal)])[..n] == rest;
      CalibratedAppend(Gather(ms[..n], CkvOf), ms[n].ckv, cal);
    }
  }

  lemma {:induction false} GatherSame<T>(a: seq<Meta>, b: seq<Meta>, part: Meta -> seq<T>)
    requires |a| == |b| && forall i | 0 <= i < |a| :: part(a[i]) == part(b[i])
    ensures Gather(a, part) == Gather(b, part)
  {
    if a != [] {
      GatherSame(a[..|a| - 1], b[..|b| - 1], part);
    }
  }

  lemma {:induction false} PropIdSame(ms: seq<Meta>, cal: seq<KV>)
    ensures PropId(UpdatedAll(ms, cal)) == PropId(ms)
  {
    if ms != [] {
      var n := |ms| - 1;
      PropIdSame(ms[..n], cal);
      assert UpdatedAll(ms, cal)[..n] == UpdatedAll(ms[..n], cal);
    }
  }

  lemma JoinCalibrated(ms: seq<Meta>, cal: seq<KV>)
    ensures Join(UpdatedAll(ms, cal)) == Updated(Join(ms), cal)
    ensures forall limit :: Fits(UpdatedAll(ms, cal), limit) <==> Fits(ms, limit)
  {
    GatherCalibrated(ms, cal);
    GatherSame(UpdatedAll(ms, cal), ms, GkvOf);
    GatherSame(UpdatedAll(ms, cal), ms, PropsOf);
    PropIdSame(ms, cal);
    DedupCalibrated(Gather(ms, CkvOf), cal);
  }

  /** Calibrating every part and then merging is merging and then calibrating, for any calibration vector. */
  lemma CalibrationCommutes(ms: seq<Meta>, cal: seq<KV>, limit: nat)
    ensures Merged(UpdatedAll(ms, cal), limit)
            == if Merged(ms, limit).Some? then Some(Updated(Merged(ms, limit).value, cal)) else None
    ensures AllRecalibrated(Join(ms).ckv, cal, Join(UpdatedAll(ms, cal)).ckv)
  {
    JoinCalibrated(ms, cal);
    AllCalibratedMeans(Join(ms).ckv, cal);
  }
}
