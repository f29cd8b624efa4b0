/** Octets and big-endian integers. */
module Bytes {
  datatype Option<+T> = None | Some(value: T)

  type Byte = b: int | 0 <= b < 256
  type Octets = seq<Byte>

  function Pow(b: nat, n: nat): nat {
    if n == 0 then 1 else b * Pow(b, n - 1)
  }

  /** The n low-order octets of v in two's complement, most significant first. */
  function BE(v: int, n: nat): (s: Octets)
    ensures |s| == n
    decreases n
  {
    if n == 0 then [] else BE(v / 256, n - 1) + [v % 256]
  }

  /** Unsigned value of an octet string. */
  function Unsigned(s: Octets): nat {
    if s == [] then 0 else 256 * Unsigned(s[..|s| - 1]) + s[|s| - 1]
  }

  /** Two's complement value of an octet string. */
  function Signed(s: Octets): int {
    if s != [] && s[0] >= 128 then Unsigned(s) - Pow(256, |s|) else Unsigned(s)
  }

  /** v shifted right by k octets (arithmetic shift, as on a signed C integer). */
  function Shift(v: int, k: nat): int
    decreases k
  {
    if k == 0 then v else Shift(v / 256, k - 1)
  }

  lemma {:induction false} PowPositive(b: nat, n: nat)
    requires b >= 1
    ensures Pow(b, n) >= 1
  {
    if n > 0 { PowPositive(b, n - 1); }
  }

  lemma {:induction false} PowMonotone(b: nat, m: nat, n: nat)
    requires b >= 1 && m <= n
    ensures Pow(b, m) <= Pow(b, n)
    decreases n
  {
    if m < n {
      PowMonotone(b, m, n - 1);
      assert Pow(b, n) == b * Pow(b, n - 1) >= Pow(b, n - 1);
    }
  }

  lemma {:induction false} UnsignedBE(v: int, n: nat)
    requires 0 <= v < Pow(256, n)
    ensures Unsigned(BE(v, n)) == v
  {
    if n > 0 {
      UnsignedBE(v / 256, n - 1);
      assert BE(v, n)[..n - 1] == BE(v / 256, n - 1);
    }
  }

  lemma {:induction false} UnsignedBound(s: Octets)
    ensures Unsigned(s) < Pow(256, |s|)
  {
    if s != [] { UnsignedBound(s[..|s| - 1]); }
  }

  /** Encoding depends on the value only modulo 256^n. */
  lemma {:induction false} BEWraps(v: int, n: nat)
    ensures BE(v + Pow(256, n), n) == BE(v, n)
    decreases n
  {
    if n > 0 {
      BEWraps(v / 256, n - 1);
      var p := Pow(256, n - 1);
      assert (v + 256 * p) / 256 == v / 256 + p;
      assert (v + 256 * p) % 256 == v % 256;
    }
  }

  lemma {:induction false} BEIndex(v: int, n: nat, j: nat)
    requires j < n
    ensures BE(v, n)[j] == Shift(v, n - 1 - j) % 256
    decreases n
  {
    if j < n - 1 { BEIndex(v / 256, n - 1, j); }
  }

  lemma Scale256(h: int, p: int)
    ensures h * (256 * p) == 256 * (h * p)
  {}

  lemma {:induction false} ShiftRange(v: int, k: nat, lo: int, hi: int)
    ensures lo <= Shift(v, k) < hi <==> lo * Pow(256, k) <= v < hi * Pow(256, k)
    decreases k
  {
    if k > 0 {
      ShiftRange(v / 256, k - 1, lo, hi);
      Scale256(lo, Pow(256, k - 1));
      Scale256(hi, Pow(256, k - 1));
    }
  }

  lemma {:induction false} SignedBE(v: int, n: nat)
    requires n >= 1
    requires -128 * Pow(256, n - 1) <= v < 128 * Pow(256, n - 1)
    ensures Signed(BE(v, n)) == v
  {
    ShiftRange(v, n - 1, -128, 128);
    BEIndex(v, n, 0);
    ShiftRange(v, n - 1, 0, 128);
    var p := Pow(256, n - 1);
    assert Pow(256, n) == 256 * p;
    if v >= 0 {
      UnsignedBE(v, n);
    } else {
      assert v + Pow(256, n) >= 128 * p;
      BEWraps(v, n);
      UnsignedBE(v + Pow(256, n), n);
    }
  }

  lemma MulMonotone(a: int, b: int, p: nat)
    requires a <= b
    ensures a * p <= b * p
  {}

  lemma BEHead(v: int, n: nat)
    requires 1 <= n && 0 <= v < Pow(256, n)
    ensures BE(v, n)[0] == v / Pow(256, n - 1)
  {
    hide BE, Shift;
    var p := Pow(256, n - 1);
    PowPositive(256, n - 1);
    BEIndex(v, n, 0);
    var x := Shift(v, n - 1);
    ShiftRange(v, n - 1, x, x + 1);
    ShiftRange(v, n - 1, 0, 256);
    DivUnique(v, p, x);
  }

  lemma ProductOrder(a: int, b: int, p: nat)
    requires p > 0
    ensures a * p < b * p ==> a < b
  {
    if b <= a { MulMonotone(b, a, p); }
  }

  lemma DivUnique(v: int, p: nat, x: int)
    requires p > 0 && x * p <= v < (x + 1) * p
    ensures v / p == x
  {
    var q := v / p;
    assert v == q * p + v % p;
    ProductOrder(q, x + 1, p);
    ProductOrder(x, q + 1, p);
    assert x * p < (q + 1) * p;
  }
}
