/** Bytes, byte order and the reversal that the network packer performs. */
module Bytes {

  type Byte = x: nat | x < 256

  function Pow256(n: nat): nat { if n == 0 then 1 else 256 * Pow256(n - 1) }

  /** `n` bytes of a number, least significant first. */
  function LittleEndian(w: nat, n: nat): (s: seq<Byte>)
    ensures |s| == n
  {
    if n == 0 then [] else [w % 256] + LittleEndian(w / 256, n - 1)
  }

  /** `n` bytes of a number, most significant first: network byte order. */
  function BigEndian(w: nat, n: nat): (s: seq<Byte>)
    ensures |s| == n
  {
    if n == 0 then [] else BigEndian(w / 256, n - 1) + [w % 256]
  }

  function FromLittleEndian(s: seq<Byte>): (w: nat)
    ensures w < Pow256(|s|)
  {
    if s == [] then 0 else var low: nat := s[0]; low + 256 * FromLittleEndian(s[1..])
  }

  function FromBigEndian(s: seq<Byte>): (w: nat)
    ensures w < Pow256(|s|)
  {
    if s == [] then 0 else var low: nat := s[|s| - 1]; low + 256 * FromBigEndian(s[..|s| - 1])
  }

  function Reverse(s: seq<Byte>): (r: seq<Byte>)
    ensures |r| == |s|
    ensures forall i :: 0 <= i < |s| ==> r[i] == s[|s| - 1 - i]
  {
    if s == [] then [] else Reverse(s[1..]) + [s[0]]
  }

  lemma ReverseTwice(s: seq<Byte>)
    ensures Reverse(Reverse(s)) == s
  {
    forall i | 0 <= i < |s| ensures Reverse(Reverse(s))[i] == s[i] {
      assert Reverse(Reverse(s))[i] == Reverse(s)[|s| - 1 - i];
    }
  }

  lemma {:induction false} LittleRoundTrip(w: nat, n: nat)
    requires w < Pow256(n)
    ensures FromLittleEndian(LittleEndian(w, n)) == w
  {
    if n > 0 {
      LittleRoundTrip(w / 256, n - 1);
      assert LittleEndian(w, n)[1..] == LittleEndian(w / 256, n - 1);
    }
  }

  lemma {:induction false} LittleOnto(s: seq<Byte>)
    ensures LittleEndian(FromLittleEndian(s), |s|) == s
  {
    if s != [] {
      LittleOnto(s[1..]);
      var low: nat, high := s[0], FromLittleEndian(s[1..]);
      assert (low + 256 * high) % 256 == low && (low + 256 * high) / 256 == high;
    }
  }

  lemma {:induction false} BigRoundTrip(w: nat, n: nat)
    requires w < Pow256(n)
    ensures FromBigEndian(BigEndian(w, n)) == w
  {
    if n > 0 {
      BigRoundTrip(w / 256, n - 1);
      assert BigEndian(w, n)[..n - 1] == BigEndian(w / 256, n - 1);
    }
  }

  lemma {:induction false} BigOnto(s: seq<Byte>)
    ensures BigEndian(FromBigEndian(s), |s|) == s
  {
    if s != [] {
      BigOnto(s[..|s| - 1]);
      var low: nat, high := s[|s| - 1], FromBigEndian(s[..|s| - 1]);
      assert (low + 256 * high) % 256 == low && (low + 256 * high) / 256 == high;
    }
  }

  lemma {:induction false} BigIsReversedLittle(w: nat, n: nat)
    ensures Reverse(LittleEndian(w, n)) == BigEndian(w, n)
  {
    if n > 0 {
      BigIsReversedLittle(w / 256, n - 1);
      assert LittleEndian(w, n)[1..] == LittleEndian(w / 256, n - 1);
    }
  }

  lemma Pow256Step(w: nat, j: nat)
    ensures 0 < Pow256(j) && w / 256 / Pow256(j) == w / Pow256(j + 1)
  {
    var p := Pow256(j);
    Pow256Positive(j);
    DivTwice(w, p);
  }

  lemma {:induction false} Pow256Positive(j: nat)
    ensures 0 < Pow256(j)
  {
    if j > 0 {
      Pow256Positive(j - 1);
    }
  }

  lemma DivTwice(w: nat, p: nat)
    requires 0 < p
    ensures w / 256 / p == w / (256 * p)
  {
    var a, b := w / 256, w % 256;
    var q, r := a / p, a % p;
    assert a == p * q + r;
    Regroup(p, q);
    assert w == 256 * p * q + (256 * r + b);
    QuotientUnique(256 * p, q, 256 * r + b);
  }

  lemma Regroup(p: nat, q: nat)
    ensures 256 * (p * q) == 256 * p * q
  {
  }

  lemma QuotientUnique(p: nat, q: nat, r: nat)
    requires r < p
    ensures (p * q + r) / p == q
  {
    var d := (p * q + r) / p - q;
    assert p * d + (p * q + r) % p == r;
    assert d == 0;
  }

  /** Byte `j` of the little-endian form is digit `j` of the number in base 256. */
  lemma {:induction false} LittleEndianDigit(w: nat, n: nat, j: nat)
    requires j < n
    ensures 0 < Pow256(j) && LittleEndian(w, n)[j] == w / Pow256(j) % 256
  {
    Pow256Positive(j);
    if j > 0 {
      LittleEndianDigit(w / 256, n - 1, j - 1);
      Pow256Step(w, j - 1);
    }
  }

  /** And byte `j` of the big-endian form is digit `n - 1 - j`. */
  lemma BigEndianDigit(w: nat, n: nat, j: nat)
    requires j < n
    ensures 0 < Pow256(n - 1 - j) && BigEndian(w, n)[j] == w / Pow256(n - 1 - j) % 256
  {
    hide LittleEndian, BigEndian, Pow256, Reverse;
    BigIsReversedLittle(w, n);
    LittleEndianDigit(w, n, n - 1 - j);
  }
}
