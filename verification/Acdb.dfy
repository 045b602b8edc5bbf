/**
 Tunnelled ACDB payloads (graph_set_acdb_param in service/src/graph.c): parameter records with their tag
 translated to a module instance id, in place, and the walk over the tag table that finds the id.
 */
module Acdb {
  import opened Bytes
  import opened Arithmetic

  // ---------------------------------------------------------------- parameter records

  /** Instance id, parameter id, payload size and error code, one word each. */
  const HEADER: nat := 16

  datatype Record = Record(miid: nat, paramId: nat, error: nat, data: seq<byte>, pad: seq<byte>)

  /** ALIGN_PAYLOAD(x, 8). */
  function Align8(x: nat): (r: nat)
    ensures r % 8 == 0 && x <= r < x + 8
  {
    (x + 7) / 8 * 8
  }

  /** Header, payload and padding to a multiple of eight bytes. */
  function Size(r: Record): (n: nat)
    ensures n >= HEADER
  {
    Align8(HEADER + |r.data|)
  }

  /** `r` stands at offset `at` of `x`. */
  predicate RecordAt(x: seq<byte>, at: nat, r: Record) {
    && at + Size(r) <= |x| && HEADER + |r.data| + |r.pad| == Size(r)
    && Dec32(x, at) == r.miid && Dec32(x, at + 4) == r.paramId && Dec32(x, at + 8) == |r.data| && Dec32(x, at + 12) == r.error
    && At(x, at + HEADER, r.data) && At(x, at + HEADER + |r.data|, r.pad)
  }

  /** The bytes from `at` to `end` are exactly these records, one after the other. */
  predicate Records(x: seq<byte>, at: nat, rs: seq<Record>, end: nat)
    decreases |rs|
  {
    if rs == [] then at == end
    else RecordAt(x, at, rs[0]) && Records(x, at + Size(rs[0]), rs[1..], end)
  }

  lemma {:induction false} RecordsEnd(x: seq<byte>, at: nat, rs: seq<Record>, end: nat)
    requires Records(x, at, rs, end)
    ensures at <= end && (rs != [] ==> at + HEADER <= end <= |x|)
    decreases |rs|
  {
    if rs != [] {
      RecordsEnd(x, at + Size(rs[0]), rs[1..], end);
    }
  }

  lemma RecordSame(x: seq<byte>, y: seq<byte>, at: nat, r: Record)
    requires RecordAt(x, at, r) && |y| == |x| && forall i | at <= i < at + Size(r) :: y[i] == x[i]
    ensures RecordAt(y, at, r)
  {
  }

  /** Records depend on their own bytes only. */
  lemma {:induction false} RecordsSame(x: seq<byte>, y: seq<byte>, at: nat, rs: seq<Record>, end: nat)
    requires Records(x, at, rs, end) && |y| == |x| && forall i | at <= i < end && i < |x| :: y[i] == x[i]
    ensures Records(y, at, rs, end)
    decreases |rs|
  {
    if rs != [] {
      RecordsEnd(x, at + Size(rs[0]), rs[1..], end);
      RecordSame(x, y, at, rs[0]);
      RecordsSame(x, y, at + Size(rs[0]), rs[1..], end);
    }
  }

  lemma {:induction false} RecordsSnoc(x: seq<byte>, at: nat, rs: seq<Record>, end: nat, r: Record)
    requires Records(x, at, rs, end) && RecordAt(x, end, r)
    ensures Records(x, at, rs + [r], end + Size(r))
    decreases |rs|
  {
    if rs == [] {
      assert [r][1..] == [] && rs + [r] == [r];
    } else {
      RecordsSnoc(x, at + Size(rs[0]), rs[1..], end, r);
      assert (rs + [r])[1..] == rs[1..] + [r];
    }
  }

  // ---------------------------------------------------------------- reading records

  /** The records from `at` to the end, or those before the first one that does not fit. */
  function Parse(x: seq<byte>, at: nat): seq<Record>
    decreases |x| - at
  {
    if at + HEADER > |x| then []
    else
      var n := Dec32(x, at + 8);
      var next := at + Align8(HEADER + n);
      if next > |x| then []
      else [Record(Dec32(x, at), Dec32(x, at + 4), Dec32(x, at + 12), x[at + HEADER..at + HEADER + n], x[at + HEADER + n..next])]
           + Parse(x, next)
  }

  /** A payload made of padded records parses to exactly those records. */
  lemma {:induction false} ParseRecords(x: seq<byte>, at: nat, rs: seq<Record>)
    requires Records(x, at, rs, |x|)
    ensures Parse(x, at) == rs
    decreases |rs|
  {
    if rs != [] {
      ParseRecords(x, at + Size(rs[0]), rs[1..]);
      ParseOne(x, at, rs[0], rs[1..]);
      assert rs == [rs[0]] + rs[1..];
    }
  }

  lemma {:induction false} ParseOne(x: seq<byte>, at: nat, r: Record, rest: seq<Record>)
    requires RecordAt(x, at, r) && Parse(x, at + Size(r)) == rest
    ensures Parse(x, at) == [r] + rest
  {
    var data, pad := x[at + HEADER..at + HEADER + |r.data|], x[at + HEADER + |r.data|..at + Size(r)];
    assert data == r.data by {
      assert At(x, at + HEADER, r.data);
    }
    assert pad == r.pad by {
      assert At(x, at + HEADER + |r.data|, r.pad);
    }
    var n := Dec32(x, at + 8);
    assert n == |r.data| && at + Align8(HEADER + n) == at + Size(r);
    assert Parse(x, at) == [Record(Dec32(x, at), Dec32(x, at + 4), Dec32(x, at + 12), data, pad)] + Parse(x, at + Size(r));
  }

  // ---------------------------------------------------------------- patching in place

  /** The records with every instance id replaced. */
  function Renamed(rs: seq<Record>, miid: nat): (out: seq<Record>)
    ensures |out| == |rs| && forall i | 0 <= i < |rs| :: out[i] == rs[i].(miid := miid)
  {
    seq(|rs|, i requires 0 <= i < |rs| => rs[i].(miid := miid))
  }

  /** Byte `i` belongs to the instance id of one of the records that start at `at`. */
  predicate InId(rs: seq<Record>, at: nat, i: nat) {
    rs != [] && (at <= i < at + 4 || InId(rs[1..], at + Size(rs[0]), i))
  }

  method Write32(buf: array<byte>, at: nat, w: nat)
    requires w < WORD && at + 4 <= buf.Length
    modifies buf
    ensures Dec32(buf[..], at) == w
    ensures forall i | 0 <= i < buf.Length && !(at <= i < at + 4) :: buf[i] == old(buf[i])
  {
    var e := Enc32(w);
    buf[at], buf[at + 1], buf[at + 2], buf[at + 3] := e[0], e[1], e[2], e[3];
    DecEnc(w);
  }

  /** Writes the id of the record at `at`, behind the records `done`, and reads how far the next one is. */
  method PatchRecord(buf: array<byte>, at: nat, miid: nat, ghost done: seq<Record>, ghost todo: seq<Record>) returns (offset: nat)
    requires miid < WORD && todo != [] && Records(buf[..], 0, done, at) && Records(buf[..], at, todo, buf.Length)
    modifies buf
    ensures offset == Size(todo[0])
    ensures Records(buf[..], 0, done + [todo[0].(miid := miid)], at + offset)
    ensures Records(buf[..], at + offset, todo[1..], buf.Length)
    ensures forall i | 0 <= i < buf.Length && !(at <= i < at + 4) :: buf[i] == old(buf[i])
  {
    ghost var was := buf[..];
    RecordsEnd(was, at, todo, buf.Length);
    Write32(buf, at, miid);
    OneRenamed(was, buf[..], at, miid, done, todo);
    offset := Align8(HEADER + Dec32(buf[..], at + 8));
  }

  lemma OneRenamed(x: seq<byte>, y: seq<byte>, at: nat, miid: nat, done: seq<Record>, todo: seq<Record>)
    requires todo != [] && Records(x, 0, done, at) && Records(x, at, todo, |x|) && |y| == |x| && at + HEADER <= |x|
    requires Dec32(y, at) == miid && forall i | 0 <= i < |x| && !(at <= i < at + 4) :: y[i] == x[i]
    ensures var r := todo[0].(miid := miid);
            && Records(y, 0, done + [r], at + Size(r)) && Records(y, at + Size(r), todo[1..], |y|)
            && Dec32(y, at + 8) == |r.data|
  {
    var r := todo[0];
    assert RecordAt(y, at, r.(miid := miid)) by {
      RenamedAt(x, y, at, r, miid);
    }
    assert Records(y, at + Size(r), todo[1..], |y|) by {
      RecordsSame(x, y, at + Size(r), todo[1..], |x|);
    }
    assert Records(y, 0, done, at) by {
      RecordsSame(x, y, 0, done, at);
    }
    RecordsSnoc(y, 0, done, at, r.(miid := miid));
  }

  lemma RenamedAt(x: seq<byte>, y: seq<byte>, at: nat, r: Record, miid: nat)
    requires RecordAt(x, at, r) && |y| == |x| && forall i | at + 4 <= i < at + Size(r) :: y[i] == x[i]
    requires Dec32(y, at) == miid
    ensures RecordAt(y, at, r.(miid := miid))
  {
  }

  /** Nothing but instance ids differs. */
  ghost predicate OnlyIds(x: seq<byte>, y: seq<byte>, rs: seq<Record>) {
    |y| == |x| && forall i | 0 <= i < |x| && !InId(rs, 0, i) :: y[i] == x[i]
  }

  /** The ids of the records from the `k`-th on, which start at `at`, are ids of all the records. */
  ghost predicate Within(rs: seq<Record>, k: nat, at: nat)
    requires k <= |rs|
  {
    forall i: nat :: InId(rs[k..], at, i) ==> InId(rs, 0, i)
  }

  lemma WithinNext(rs: seq<Record>, k: nat, at: nat)
    requires k < |rs| && Within(rs, k, at)
    ensures Within(rs, k + 1, at + Size(rs[k])) && forall i: nat | at <= i < at + 4 :: InId(rs, 0, i)
  {
    var rest := rs[k..];
    assert rest[0] == rs[k] && rest[1..] == rs[k + 1..];
    forall i: nat | at <= i < at + 4 ensures InId(rs, 0, i) {
      assert InId(rest, at, i);
    }
    forall i: nat | InId(rs[k + 1..], at + Size(rs[k]), i) ensures InId(rs, 0, i) {
      assert InId(rest, at, i);
    }
  }

  lemma RenamedSnoc(rs: seq<Record>, k: nat, miid: nat)
    requires k < |rs|
    ensures Renamed(rs[..k], miid) + [rs[k..][0].(miid := miid)] == Renamed(rs[..k + 1], miid)
    ensures rs[k..][1..] == rs[k + 1..]
  {
  }

  /** The first header, then the loop over the others: every id is replaced and no other byte changes. */
  method Patch(buf: array<byte>, miid: nat, ghost rs: seq<Record>)
    requires miid < WORD && rs != [] && Records(buf[..], 0, rs, buf.Length) && buf.Length < WORD
    modifies buf
    ensures Records(buf[..], 0, Renamed(rs, miid), buf.Length) && Parse(buf[..], 0) == Renamed(rs, miid)
    ensures OnlyIds(old(buf[..]), buf[..], rs)
  {
    ghost var k := 0;
    assert rs[..0] == [] && rs[0..] == rs;
    var total: nat := PatchNext(buf, 0, miid, rs, 0, buf[..]);
    k := 1;
    while total < buf.Length
      invariant 1 <= k <= |rs| && Halfway(buf[..], old(buf[..]), total, miid, rs, k)
      decreases |rs| - k
    {
      NotDone(buf[..], old(buf[..]), total, miid, rs, k);
      total := PatchNext(buf, total, miid, rs, k, old(buf[..]));
      k := k + 1;
    }
    NotDone(buf[..], old(buf[..]), total, miid, rs, k);
    assert rs[..k] == rs;
    ParseRecords(buf[..], 0, Renamed(rs, miid));
  }

  /** The first `k` records, which end at `total`, are done; the others are untouched. */
  ghost predicate Halfway(x: seq<byte>, was: seq<byte>, total: nat, miid: nat, rs: seq<Record>, k: nat)
    requires k <= |rs|
  {
    && Records(x, 0, Renamed(rs[..k], miid), total) && Records(x, total, rs[k..], |x|)
    && OnlyIds(was, x, rs) && Within(rs, k, total)
  }

  lemma NotDone(x: seq<byte>, was: seq<byte>, total: nat, miid: nat, rs: seq<Record>, k: nat)
    requires k <= |rs| && Halfway(x, was, total, miid, rs, k)
    ensures total < |x| <==> k < |rs|
    ensures total <= |x|
  {
    RecordsEnd(x, total, rs[k..], |x|);
  }

  /** Patches record `k`; answers where the next one starts. */
  method PatchNext(buf: array<byte>, at: nat, miid: nat, ghost rs: seq<Record>, ghost k: nat, ghost was: seq<byte>) returns (next: nat)
    requires miid < WORD && k < |rs| && Halfway(buf[..], was, at, miid, rs, k)
    modifies buf
    ensures Halfway(buf[..], was, next, miid, rs, k + 1)
  {
    var offset := PatchRecord(buf, at, miid, Renamed(rs[..k], miid), rs[k..]);
    RenamedSnoc(rs, k, miid);
    WithinNext(rs, k, at);
    next := at + offset;
  }

  // ---------------------------------------------------------------- the tag table

  /** Byte offset behind entries with these module counts, as graph_open steps. */
  function ByteWalk(counts: seq<nat>, entry: nat, mod: nat): nat {
    if counts == [] then 0 else ByteWalk(counts[..|counts| - 1], entry, mod) + entry + counts[|counts| - 1] * mod
  }

  /** The same with graph_set_acdb_param's pointer arithmetic, in whole entries. */
  function StridedWalk(counts: seq<nat>, entry: nat, mod: nat): nat
    requires entry > 0
  {
    if counts == [] then 0
    else StridedWalk(counts[..|counts| - 1], entry, mod) + (entry + counts[|counts| - 1] * mod) / entry * entry
  }

  lemma WholeEntries(n: nat, entry: nat, mod: nat)
    requires entry > 0 && mod % entry == 0
    ensures (entry + n * mod) / entry * entry == entry + n * mod
  {
    var q := mod / entry;
    assert mod == q * entry;
    assert n * mod == (n * q) * entry;
    assert entry + n * mod == (1 + n * q) * entry;
    DivModOf(1 + n * q, entry, 0);
  }

  lemma {:induction false} WalksAgree(counts: seq<nat>, entry: nat, mod: nat)
    requires entry > 0 && mod % entry == 0
    ensures StridedWalk(counts, entry, mod) == ByteWalk(counts, entry, mod)
  {
    if counts != [] {
      WalksAgree(counts[..|counts| - 1], entry, mod);
      WholeEntries(counts[|counts| - 1], entry, mod);
    }
  }

  /** One entry of the tag table: a tag and the instance ids of its modules. */
  datatype TagEntry = TagEntry(tag: nat, iids: seq<nat>)

  /** Sizes of a tag entry, without its modules, and of a module record. */
  datatype Sizes = Sizes(entry: nat, mod: nat)

  predicate ValidSizes(z: Sizes) {
    z.entry >= 8 && z.mod >= 8 && z.mod % z.entry == 0
  }

  predicate WordAt(x: seq<byte>, at: nat, w: nat) {
    at + 4 <= |x| && Dec32(x, at) == w
  }

  /** Tag, module count, then the module records, whose second word is the instance id. */
  predicate EntryAt(x: seq<byte>, at: nat, e: TagEntry, z: Sizes) {
    && WordAt(x, at, e.tag) && WordAt(x, at + 4, |e.iids|)
    && forall j | 0 <= j < |e.iids| :: WordAt(x, at + z.entry + Times(j, z.mod) + 4, e.iids[j])
  }

  /** From `at` on, `x` holds these entries, one behind the other. */
  predicate TableAt(x: seq<byte>, at: nat, entries: seq<TagEntry>, z: Sizes)
    decreases |entries|
  {
    entries == []
    || (EntryAt(x, at, entries[0], z) && TableAt(x, at + z.entry + |entries[0].iids| * z.mod, entries[1..], z))
  }

  /** How far the walk steps from an entry with `n` modules: whole tag entries. */
  function Stride(n: nat, z: Sizes): nat
    requires z.entry > 0
  {
    (z.entry + n * z.mod) / z.entry * z.entry
  }

  /** The strided step from one entry reaches the next one. */
  lemma {:induction false} StepReaches(x: seq<byte>, at: nat, entries: seq<TagEntry>, z: Sizes, i: nat)
    requires ValidSizes(z) && i < |entries| && TableAt(x, at, entries[i..], z)
    ensures EntryAt(x, at, entries[i], z) && TableAt(x, at + Stride(|entries[i].iids|, z), entries[i + 1..], z)
  {
    assert entries[i..][0] == entries[i] && entries[i..][1..] == entries[i + 1..];
    WholeEntries(|entries[i].iids|, z.entry, z.mod);
  }

  /** Entry `i` is the first one with this tag that has a module. */
  predicate FirstHit(entries: seq<TagEntry>, tag: nat, i: nat) {
    && i < |entries| && entries[i].tag == tag && entries[i].iids != []
    && NoHit(entries[..i], tag)
  }

  predicate NoHit(entries: seq<TagEntry>, tag: nat) {
    forall j | 0 <= j < |entries| :: entries[j].tag == tag ==> entries[j].iids == []
  }

  /**
   The walk of graph_set_acdb_param over the bytes of the tag table, behind the word that counts its entries:
   the first module of the first entry with this tag that has one; 0 if there is none.
   */
  method Translate(x: seq<byte>, tag: nat, z: Sizes, ghost entries: seq<TagEntry>) returns (miid: nat)
    requires ValidSizes(z) && WordAt(x, 0, |entries|) && TableAt(x, 4, entries, z)
    ensures NoHit(entries, tag) ==> miid == 0
    ensures !NoHit(entries, tag) ==> exists i: nat :: FirstHit(entries, tag, i) && miid == entries[i].iids[0]
  {
    miid := 0;
    var count := Dec32(x, 0);
    var at := 4;
    assert entries[0..] == entries;
    for i := 0 to count
      invariant miid == 0 && NoHit(entries[..i], tag) && TableAt(x, at, entries[i..], z)
    {
      StepReaches(x, at, entries, z, i);
      var found, first, stride := Visit(x, at, tag, z, entries[i]);
      if found {
        assert FirstHit(entries, tag, i);
        return first;
      }
      assert entries[..i + 1] == entries[..i] + [entries[i]];
      at := at + stride;
    }
    assert entries[..count] == entries;
  }

  /** One round of that walk. */
  method Visit(x: seq<byte>, at: nat, tag: nat, z: Sizes, ghost e: TagEntry) returns (found: bool, first: nat, stride: nat)
    requires ValidSizes(z) && EntryAt(x, at, e, z)
    ensures stride == Stride(|e.iids|, z)
    ensures found <==> e.tag == tag && e.iids != []
    ensures found ==> first == e.iids[0]
  {
    var modules := Dec32(x, at + 4);
    stride := Stride(modules, z);
    found, first := false, 0;
    if Dec32(x, at) == tag && modules > 0 {
      assert WordAt(x, at + z.entry + Times(0, z.mod) + 4, e.iids[0]);
      found, first := true, Dec32(x, at + z.entry + 4);
    }
  }

  /** The two walks visit the same entries of every table exactly if a module record is a multiple of a tag entry. */
  lemma WalksAgreeExactly(entry: nat, mod: nat)
    requires entry > 0
    ensures (forall counts :: StridedWalk(counts, entry, mod) == ByteWalk(counts, entry, mod)) <==> mod % entry == 0
  {
    if mod % entry == 0 {
      forall counts: seq<nat> ensures StridedWalk(counts, entry, mod) == ByteWalk(counts, entry, mod) {
        WalksAgree(counts, entry, mod);
      }
    } else {
      var one: seq<nat> := [1];
      assert one[..0] == [];
      assert ByteWalk(one, entry, mod) == entry + 1 * mod;
      assert StridedWalk(one, entry, mod) == (entry + 1 * mod) / entry * entry;
      if StridedWalk(one, entry, mod) == ByteWalk(one, entry, mod) {
        OneEntry(entry, mod);
      }
    }
  }

  lemma OneEntry(entry: nat, mod: nat)
    requires entry > 0 && (entry + mod) / entry * entry == entry + mod
    ensures mod % entry == 0
  {
    var k := (entry + mod) / entry;
    assert k >= 1;
    assert k * entry == (k - 1) * entry + entry;
    DivModOf(k - 1, entry, 0);
  }
}
