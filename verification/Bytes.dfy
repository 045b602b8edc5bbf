/** Little-endian 32-bit words in byte sequences. */
module Bytes {

  type byte = x: nat | x < 256

  const WORD: nat := 0x1_0000_0000

  function Enc32(w: nat): (b: seq<byte>)
    requires w < WORD
    ensures |b| == 4
  {
    var w1 := w / 256;
    var w2 := w1 / 256;
    var w3 := w2 / 256;
    [w % 256, w1 % 256, w2 % 256, w3]
  }

  function Dec32(b: seq<byte>, at: nat): (w: nat)
    requires at + 4 <= |b|
    ensures w < WORD
  {
    var b0: nat, b1: nat, b2: nat, b3: nat := b[at], b[at + 1], b[at + 2], b[at + 3];
    b0 + 0x100 * b1 + 0x1_0000 * b2 + 0x100_0000 * b3
  }

  lemma DecEnc(w: nat)
    requires w < WORD
    ensures Dec32(Enc32(w), 0) == w
  {
  }

  /** `piece` stands at offset `at` of `x`. */
  predicate At(x: seq<byte>, at: nat, piece: seq<byte>) {
    at + |piece| <= |x| && forall i | 0 <= i < |piece| :: piece[i] == x[at + i]
  }

  lemma AtSplit(x: seq<byte>, at: nat, a: seq<byte>, b: seq<byte>)
    requires At(x, at, a + b)
    ensures At(x, at, a) && At(x, at + |a|, b)
  {
    forall i | 0 <= i < |a| ensures a[i] == x[at + i] {
      assert (a + b)[i] == a[i];
    }
    forall i | 0 <= i < |b| ensures b[i] == x[at + |a| + i] {
      assert (a + b)[|a| + i] == b[i];
    }
  }

  lemma AtStart(a: seq<byte>, rest: seq<byte>)
    ensures At(a + rest, 0, a)
  {
  }

  /** Reading back a word that stands in a sequence. */
  lemma DecAt(x: seq<byte>, at: nat, w: nat)
    requires w < WORD && At(x, at, Enc32(w))
    ensures Dec32(x, at) == w
  {
    var e := Enc32(w);
    assert e[0] == x[at] && e[1] == x[at + 1] && e[2] == x[at + 2] && e[3] == x[at + 3];
    DecEnc(w);
  }
}
