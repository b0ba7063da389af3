/** Bytes, big-endian integers and length-prefixed encodings. */
module Bytes {
  type byte = x: int | 0 <= x < 256

  type bytes = seq<byte>

  function Pow256(w: nat): (p: nat)
    ensures p >= 1
  {
    if w == 0 then 1 else 256 * Pow256(w - 1)
  }

  /** The last `w` bytes of `n`, most significant first. */
  function BigEndian(n: nat, w: nat): (s: bytes)
    ensures |s| == w
  {
    if w == 0 then [] else BigEndian(n / 256, w - 1) + [n % 256]
  }

  function FromBigEndian(s: bytes): (n: nat)
  {
    if s == [] then 0 else 256 * FromBigEndian(s[..|s| - 1]) + s[|s| - 1]
  }

  lemma {:induction false} BigEndianRoundTrip(n: nat, w: nat)
    requires n < Pow256(w)
    ensures FromBigEndian(BigEndian(n, w)) == n
  {
    if w > 0 {
      BigEndianRoundTrip(n / 256, w - 1);
      assert BigEndian(n, w)[..w - 1] == BigEndian(n / 256, w - 1);
    }
  }

  lemma {:induction false} BigEndianInverse(s: bytes)
    ensures FromBigEndian(s) < Pow256(|s|)
    ensures BigEndian(FromBigEndian(s), |s|) == s
  {
    if s != [] {
      BigEndianInverse(s[..|s| - 1]);
    }
  }

  lemma Widths()
    ensures Pow256(4) == 0x1_0000_0000 && Pow256(8) == 0x1_0000_0000_0000_0000
  {
    assert Pow256(4) == 256 * (256 * (256 * (256 * 1)));
    assert Pow256(8) == 256 * (256 * (256 * (256 * Pow256(4))));
  }

  function Concat(parts: seq<bytes>): bytes {
    if parts == [] then [] else parts[0] + Concat(parts[1..])
  }

  lemma {:induction false} ConcatAppend(a: seq<bytes>, b: seq<bytes>)
    ensures Concat(a + b) == Concat(a) + Concat(b)
  {
    if a == [] {
      assert a + b == b;
    } else {
      var head, rest := a[0], a[1..];
      ConcatAppend(rest, b);
      assert (a + b)[0] == head && (a + b)[1..] == rest + b;
      assert head + (Concat(rest) + Concat(b)) == (head + Concat(rest)) + Concat(b);
    }
  }
}
