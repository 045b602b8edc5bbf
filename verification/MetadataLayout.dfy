/** The binary layout of metadata payloads and metadata_copy (service/src/metadata.c). */
module MetadataLayout {
  import opened Common
  import opened Bytes
  import opened Metadata
  import opened MetadataBuffers

  // ---------------------------------------------------------------- the documented layout

  function EncodeKvs(s: seq<KV>): (b: seq<byte>)
    requires forall i | 0 <= i < |s| :: s[i].key < WORD && s[i].value < WORD
    ensures |b| == 8 * |s|
  {
    if s == [] then []
    else EncodeKvs(s[..|s| - 1]) + (Enc32(s[|s| - 1].key) + Enc32(s[|s| - 1].value))
  }

  function EncodeWords(s: seq<nat>): (b: seq<byte>)
    requires forall i | 0 <= i < |s| :: s[i] < WORD
    ensures |b| == 4 * |s|
  {
    if s == [] then [] else EncodeWords(s[..|s| - 1]) + Enc32(s[|s| - 1])
  }

  ghost predicate Encodable(m: Meta) {
    && m.props.Some? && m.propId < WORD && |m.gkv| < WORD && |m.ckv| < WORD && |m.props.value| < WORD
    && (forall i | 0 <= i < |m.gkv| :: m.gkv[i].key < WORD && m.gkv[i].value < WORD)
    && (forall i | 0 <= i < |m.ckv| :: m.ckv[i].key < WORD && m.ckv[i].value < WORD)
    && (forall i | 0 <= i < |m.props.value| :: m.props.value[i] < WORD)
  }

  /** A count, then the pairs. */
  function EncodeVector(s: seq<KV>): (b: seq<byte>)
    requires |s| < WORD && forall i | 0 <= i < |s| :: s[i].key < WORD && s[i].value < WORD
    ensures |b| == 4 + 8 * |s|
  {
    Enc32(|s|) + EncodeKvs(s)
  }

  /** The property id, a count, then the properties. */
  function EncodeProps(id: nat, s: seq<nat>): (b: seq<byte>)
    requires id < WORD && |s| < WORD && forall i | 0 <= i < |s| :: s[i] < WORD
    ensures |b| == 8 + 4 * |s|
  {
    Enc32(id) + (Enc32(|s|) + EncodeWords(s))
  }

  function Encode(m: Meta): seq<byte>
    requires Encodable(m)
  {
    EncodeVector(m.gkv) + (EncodeVector(m.ckv) + EncodeProps(m.propId, m.props.value))
  }

  // ---------------------------------------------------------------- the layout macros

  predicate HasCkvCount(x: seq<byte>) {
    4 <= |x| && 8 + 8 * Dec32(x, 0) <= |x|
  }

  function NumGkv(x: seq<byte>): nat
    requires HasCkvCount(x)
  {
    Dec32(x, 0)
  }

  function AtNumCkv(x: seq<byte>): nat
    requires HasCkvCount(x)
  {
    4 + NumGkv(x) * 8
  }

  function NumCkv(x: seq<byte>): nat
    requires HasCkvCount(x)
  {
    Dec32(x, AtNumCkv(x))
  }

  function AtPropId(x: seq<byte>): nat
    requires HasCkvCount(x)
  {
    AtNumCkv(x) + 4 + NumCkv(x) * 8
  }

  /** The payload reaches as far as its own counts say. */
  predicate Complete(x: seq<byte>) {
    && HasCkvCount(x) && AtPropId(x) + 8 <= |x|
    && AtPropId(x) + 8 + 4 * Dec32(x, AtPropId(x) + 4) <= |x|
  }

  function DecodeKvs(x: seq<byte>, at: nat, n: nat): (s: seq<KV>)
    requires at + 8 * n <= |x|
    ensures |s| == n
  {
    if n == 0 then []
    else DecodeKvs(x, at, n - 1) + [KV(Dec32(x, at + 8 * (n - 1)), Dec32(x, at + 8 * (n - 1) + 4))]
  }

  function DecodeWords(x: seq<byte>, at: nat, n: nat): (s: seq<nat>)
    requires at + 4 * n <= |x|
    ensures |s| == n
  {
    if n == 0 then [] else DecodeWords(x, at, n - 1) + [Dec32(x, at + 4 * (n - 1))]
  }

  function Decode(x: seq<byte>): Meta
    requires Complete(x)
  {
    var p := AtPropId(x);
    Meta(DecodeKvs(x, 4, NumGkv(x)), DecodeKvs(x, AtNumCkv(x) + 4, NumCkv(x)),
         Some(DecodeWords(x, p + 8, Dec32(x, p + 4))), Dec32(x, p))
  }

  // ---------------------------------------------------------------- round trip

  lemma {:induction false} KvsRoundTrip(x: seq<byte>, at: nat, s: seq<KV>)
    requires forall i | 0 <= i < |s| :: s[i].key < WORD && s[i].value < WORD
    requires At(x, at, EncodeKvs(s))
    ensures DecodeKvs(x, at, |s|) == s
  {
    if s != [] {
      var n := |s| - 1;
      var k, v := Enc32(s[n].key), Enc32(s[n].value);
      AtSplit(x, at, EncodeKvs(s[..n]), k + v);
      AtSplit(x, at + 8 * n, k, v);
      KvsRoundTrip(x, at, s[..n]);
      DecAt(x, at + 8 * n, s[n].key);
      DecAt(x, at + 8 * n + 4, s[n].value);
    }
  }

  lemma {:induction false} WordsRoundTrip(x: seq<byte>, at: nat, s: seq<nat>)
    requires forall i | 0 <= i < |s| :: s[i] < WORD
    requires At(x, at, EncodeWords(s))
    ensures DecodeWords(x, at, |s|) == s
  {
    if s != [] {
      var n := |s| - 1;
      AtSplit(x, at, EncodeWords(s[..n]), Enc32(s[n]));
      WordsRoundTrip(x, at, s[..n]);
      DecAt(x, at + 4 * n, s[n]);
    }
  }

  ghost predicate VectorBack(x: seq<byte>, at: nat, s: seq<KV>) {
    at + 4 + 8 * |s| <= |x| && Dec32(x, at) == |s| && DecodeKvs(x, at + 4, |s|) == s
  }

  ghost predicate PropsBack(x: seq<byte>, at: nat, id: nat, s: seq<nat>) {
    at + 8 + 4 * |s| <= |x| && Dec32(x, at) == id && Dec32(x, at + 4) == |s| && DecodeWords(x, at + 8, |s|) == s
  }

  lemma VectorRoundTrip(x: seq<byte>, at: nat, s: seq<KV>)
    requires |s| < WORD && forall i | 0 <= i < |s| :: s[i].key < WORD && s[i].value < WORD
    requires At(x, at, EncodeVector(s))
    ensures VectorBack(x, at, s)
  {
    AtSplit(x, at, Enc32(|s|), EncodeKvs(s));
    DecAt(x, at, |s|);
    KvsRoundTrip(x, at + 4, s);
  }

  lemma PropsRoundTrip(x: seq<byte>, at: nat, id: nat, s: seq<nat>)
    requires id < WORD && |s| < WORD && forall i | 0 <= i < |s| :: s[i] < WORD
    requires At(x, at, EncodeProps(id, s))
    ensures PropsBack(x, at, id, s)
  {
    AtSplit(x, at, Enc32(id), Enc32(|s|) + EncodeWords(s));
    AtSplit(x, at + 4, Enc32(|s|), EncodeWords(s));
    DecAt(x, at, id);
    DecAt(x, at + 4, |s|);
    WordsRoundTrip(x, at + 8, s);
  }

  /** Every metadata value written in the layout, whatever follows it, reads back exactly. */
  lemma LayoutRoundTrip(m: Meta, rest: seq<byte>)
    requires Encodable(m)
    ensures Complete(Encode(m) + rest) && Decode(Encode(m) + rest) == m
  {
    AtStart(Encode(m), rest);
    PiecesAt(m, Encode(m) + rest);
    EncodedPieces(m, Encode(m) + rest);
    Assembled(m, Encode(m) + rest);
  }

  /** What stands where in an encoding, read back. */
  ghost predicate ReadsBack(m: Meta, x: seq<byte>)
    requires m.props.Some?
  {
    && VectorBack(x, 0, m.gkv) && VectorBack(x, 4 + 8 * |m.gkv|, m.ckv)
    && PropsBack(x, 8 + 8 * |m.gkv| + 8 * |m.ckv|, m.propId, m.props.value)
  }

  lemma EncodedPieces(m: Meta, x: seq<byte>)
    requires Encodable(m) && At(x, 0, EncodeVector(m.gkv)) && At(x, 4 + 8 * |m.gkv|, EncodeVector(m.ckv))
    requires At(x, 8 + 8 * |m.gkv| + 8 * |m.ckv|, EncodeProps(m.propId, m.props.value))
    ensures ReadsBack(m, x)
  {
    assert VectorBack(x, 0, m.gkv) by {
      VectorRoundTrip(x, 0, m.gkv);
    }
    assert VectorBack(x, 4 + 8 * |m.gkv|, m.ckv) by {
      VectorRoundTrip(x, 4 + 8 * |m.gkv|, m.ckv);
    }
    assert PropsBack(x, 8 + 8 * |m.gkv| + 8 * |m.ckv|, m.propId, m.props.value) by {
      PropsRoundTrip(x, 8 + 8 * |m.gkv| + 8 * |m.ckv|, m.propId, m.props.value);
    }
  }

  lemma PiecesAt(m: Meta, x: seq<byte>)
    requires Encodable(m) && At(x, 0, Encode(m))
    ensures At(x, 0, EncodeVector(m.gkv)) && At(x, 4 + 8 * |m.gkv|, EncodeVector(m.ckv))
    ensures At(x, 8 + 8 * |m.gkv| + 8 * |m.ckv|, EncodeProps(m.propId, m.props.value))
  {
    var g, c, p := EncodeVector(m.gkv), EncodeVector(m.ckv), EncodeProps(m.propId, m.props.value);
    AtSplit(x, 0, g, c + p);
    AtSplit(x, |g|, c, p);
  }

  lemma Assembled(m: Meta, x: seq<byte>)
    requires m.props.Some? && ReadsBack(m, x)
    ensures Complete(x) && Decode(x) == m
  {
    assert HasCkvCount(x) && NumGkv(x) == |m.gkv| && NumCkv(x) == |m.ckv|;
  }

  // ---------------------------------------------------------------- metadata_copy

  method ReadKvs(x: seq<byte>, at: nat, n: nat) returns (a: array<KV>)
    requires at + 8 * n <= |x|
    ensures fresh(a) && a.Length == n && a[..] == DecodeKvs(x, at, n)
  {
    a := new KV[n](_ => KV(0, 0));
    for i := 0 to n
      invariant a[..i] == DecodeKvs(x, at, i)
    {
      a[i] := KV(Dec32(x, at + 8 * i), Dec32(x, at + 8 * i + 4));
    }
  }

  method ReadWords(x: seq<byte>, at: nat, n: nat) returns (a: array<nat>)
    requires at + 4 * n <= |x|
    ensures fresh(a) && a.Length == n && a[..] == DecodeWords(x, at, n)
  {
    a := new nat[n](_ => 0);
    for i := 0 to n
      invariant a[..i] == DecodeWords(x, at, i)
    {
      a[i] := Dec32(x, at + 4 * i);
    }
  }

  /** Which of the three allocations of metadata_copy fails first, if any. */
  datatype Memory = Plenty | NoGkv | NoCkv | NoProps

  /** metadata_copy; whatever vectors the destination still points to are abandoned. */
  method Copy(dest: MetaData, payload: Option<seq<byte>>, limit: nat, memory: Memory) returns (ret: Status)
    requires dest.Valid()
    requires payload.Some? ==> HasCkvCount(payload.value)
                               && (NumGkv(payload.value) <= limit && NumCkv(payload.value) <= limit ==> Complete(payload.value))
    modifies dest
    ensures dest.Valid()
    ensures payload.None? ==> ret == Ok && dest.Value() == old(dest.Value())
    ensures payload.Some? && (NumGkv(payload.value) > limit || NumCkv(payload.value) > limit) ==>
              ret == Invalid && dest.Value() == old(dest.Value())
    ensures payload.Some? && NumGkv(payload.value) <= limit && NumCkv(payload.value) <= limit ==>
              && ret == (if memory.Plenty? then Ok else NoMem)
              && dest.Value() == match memory
                                 case Plenty => Decode(payload.value)
                                 case NoGkv => old(dest.Value()).(gkv := [])
                                 case _ => EMPTY
  {
    if payload.None? {
      return Ok;
    }
    var x := payload.value;
    if NumGkv(x) > limit || NumCkv(x) > limit {
      return Invalid;
    }
    ret := CopyVectors(dest, x, memory);
  }

  /** The part of metadata_copy after its limit check: a failed allocation leaves empty metadata, the first one only an empty gkv. */
  method CopyVectors(dest: MetaData, x: seq<byte>, memory: Memory) returns (ret: Status)
    requires dest.Valid() && Complete(x)
    modifies dest
    ensures dest.Valid()
    ensures ret == if memory.Plenty? then Ok else NoMem
    ensures dest.Value() == match memory
                            case Plenty => Decode(x)
                            case NoGkv => old(dest.Value()).(gkv := [])
                            case _ => EMPTY
  {
    if memory.NoGkv? {
      dest.gkv, dest.numGkv := null, 0;
      return NoMem;
    }
    var g := ReadKvs(x, 4, NumGkv(x));
    dest.gkv, dest.numGkv := g, NumGkv(x);
    if memory.NoCkv? {
      dest.Free();
      return NoMem;
    }
    var c := ReadKvs(x, AtNumCkv(x) + 4, NumCkv(x));
    dest.ckv, dest.numCkv, dest.propId := c, NumCkv(x), Dec32(x, AtPropId(x));
    if memory.NoProps? {
      dest.Free();
      return NoMem;
    }
    CopyProps(dest, x);
    ret := Ok;
  }

  /** The last of the three vectors. */
  method CopyProps(dest: MetaData, x: seq<byte>)
    requires Complete(x) && dest.gkv != null && dest.ckv != null && dest.gkv != dest.ckv
    requires dest.numGkv == dest.gkv.Length && dest.gkv[..] == DecodeKvs(x, 4, NumGkv(x))
    requires dest.numCkv == dest.ckv.Length && dest.ckv[..] == DecodeKvs(x, AtNumCkv(x) + 4, NumCkv(x))
    requires dest.propId == Dec32(x, AtPropId(x))
    modifies dest
    ensures dest.Valid() && dest.Value() == Decode(x)
  {
    var p := AtPropId(x);
    var w := ReadWords(x, p + 8, Dec32(x, p + 4));
    dest.Fill(dest.gkv, dest.ckv, w, dest.propId);
  }
}
