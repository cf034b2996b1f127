/** Bit strings (most significant bit first) and the two's-complement integer
    operations the entropy coders use on them. */
module Bits {

  function Pow2(n: nat): (r: nat)
    ensures r > 0
  {
    if n == 0 then 1 else 2 * Pow2(n - 1)
  }

  function Abs(x: int): nat {
    if x < 0 then -x else x
  }

  /** The low n bits of the two's-complement form of v. */
  function ToBits(v: int, n: nat): (bs: seq<bool>)
    ensures |bs| == n
    decreases n
  {
    if n == 0 then [] else ToBits(v / 2, n - 1) + [v % 2 == 1]
  }

  /** Arithmetic right shift. */
  function Shr(v: int, n: nat): (r: int)
    ensures v >= 0 ==> 0 <= r <= v
    decreases n
  {
    if n == 0 then v else Shr(v / 2, n - 1)
  }

  function FromBits(bs: seq<bool>): nat {
    if bs == [] then 0 else 2 * FromBits(bs[..|bs| - 1]) + (if bs[|bs| - 1] then 1 else 0)
  }

  /** Position of the highest one bit, counted from 1; 0 for v == 0. */
  function BitLen(v: nat): nat {
    if v == 0 then 0 else 1 + BitLen(v / 2)
  }

  /** Figure F.12 of ITU-T T.81: the value named by s extra bits. */
  function Extend(x: int, s: nat): int
    requires s > 0
  {
    if x < Pow2(s - 1) then x - Pow2(s) + 1 else x
  }

  /** Storing an int into a 16-bit JCOEF. */
  function ToShort(v: int): (r: int)
    ensures -32768 <= r < 32768
  {
    (v + 32768) % 65536 - 32768
  }

  lemma Pow2Add(m: nat, n: nat)
    ensures Pow2(m + n) == Pow2(m) * Pow2(n)
  {
    if m > 0 {
      Pow2Add(m - 1, n);
      assert Pow2(m + n) == 2 * (Pow2(m - 1) * Pow2(n));
    }
  }

  lemma Pow2Mono(m: nat, n: nat)
    requires m <= n
    ensures Pow2(m) <= Pow2(n)
  {
    if m < n { Pow2Mono(m, n - 1); }
  }

  lemma DivBounds(v: int, d: int, q: int)
    requires d > 0 && q * d <= v < (q + 1) * d
    ensures v / d == q
  {
    var z := v / d - q;
    assert v - q * d == d * z + v % d by {
      assert d * (q + z) == q * d + d * z;
    }
    assert (q + 1) * d == q * d + d;
    MulUnit(d, z);
  }

  lemma MulUnit(d: int, z: int)
    requires d > 0
    ensures z >= 1 ==> d * z >= d
    ensures z <= -1 ==> d * z <= -d
  {
  }

  lemma MulDouble(x: int, y: int)
    ensures x * (2 * y) == 2 * (x * y)
  {
  }

  lemma ModDouble(v: int, p: int)
    requires p > 0
    ensures v % (2 * p) == 2 * ((v / 2) % p) + v % 2
  {
    var h := (v / 2) % p;
    var q := v / 2 / p;
    assert v / 2 == p * q + h;
    assert (2 * p) * q == 2 * (p * q);
    assert (2 * p) * q == q * (2 * p) && (q + 1) * (2 * p) == q * (2 * p) + 2 * p;
    DivBounds(v, 2 * p, q);
  }

  lemma MulLe(x: int, y: int, d: nat)
    requires x <= y
    ensures x * d <= y * d
  {
  }

  lemma MulSucc(x: int, d: int)
    ensures (x + 1) * d == x * d + d
  {
  }

  lemma {:induction false} ShrSucc(v: int, n: nat)
    ensures Shr(v, n + 1) == Shr(v, n) / 2
    decreases n
  {
    if n > 0 { ShrSucc(v / 2, n - 1); }
  }

  lemma {:induction false} ShrShl(m: int, n: nat)
    ensures Shr(m * Pow2(n), n) == m
    decreases n
  {
    if n > 0 {
      MulDouble(m, Pow2(n - 1));
      ShrShl(m, n - 1);
    }
  }

  /** Shifting right and back left clears the low bits. */
  lemma {:induction false} ShrBounds(v: int, n: nat)
    ensures Shr(v, n) * Pow2(n) <= v < Shr(v, n) * Pow2(n) + Pow2(n)
    decreases n
  {
    if n > 0 {
      ShrBounds(v / 2, n - 1);
      MulDouble(Shr(v, n), Pow2(n - 1));
    }
  }

  lemma {:induction false} FromToBits(v: int, n: nat)
    ensures FromBits(ToBits(v, n)) == v % Pow2(n)
    decreases n
  {
    if n > 0 {
      var bs := ToBits(v, n);
      assert bs[..|bs| - 1] == ToBits(v / 2, n - 1);
      FromToBits(v / 2, n - 1);
      ModDouble(v, Pow2(n - 1));
    }
  }

  lemma {:induction false} FromBitsBound(bs: seq<bool>)
    ensures FromBits(bs) < Pow2(|bs|)
  {
    if bs != [] { FromBitsBound(bs[..|bs| - 1]); }
  }

  lemma {:induction false} ToFromBits(bs: seq<bool>)
    ensures ToBits(FromBits(bs), |bs|) == bs
  {
    if bs != [] { ToFromBits(bs[..|bs| - 1]); }
  }

  lemma {:induction false} FromBitsConcat(a: seq<bool>, b: seq<bool>)
    ensures FromBits(a + b) == FromBits(a) * Pow2(|b|) + FromBits(b)
  {
    if b == [] {
      assert a + b == a;
    } else {
      var ab := a + b;
      assert ab[..|ab| - 1] == a + b[..|b| - 1];
      FromBitsConcat(a, b[..|b| - 1]);
      assert Pow2(|b|) == 2 * Pow2(|b| - 1);
      MulDouble(FromBits(a), Pow2(|b| - 1));
    }
  }

  lemma {:induction false} ToBitsSplit(v: int, m: nat, n: nat)
    ensures ToBits(v, m + n) == ToBits(Shr(v, n), m) + ToBits(v, n)
    decreases n
  {
    if n > 0 {
      ToBitsSplit(v / 2, m, n - 1);
    }
  }

  /** Only v modulo 2^n matters to its low n bits. */
  lemma {:induction false} ToBitsMod(v: int, w: int, n: nat)
    requires v % Pow2(n) == w % Pow2(n)
    ensures ToBits(v, n) == ToBits(w, n)
  {
    FromToBits(v, n);
    FromToBits(w, n);
    ToFromBits(ToBits(v, n));
    ToFromBits(ToBits(w, n));
  }

  lemma {:induction false} BitLenBounds(v: nat)
    requires v > 0
    ensures BitLen(v) > 0 && Pow2(BitLen(v) - 1) <= v < Pow2(BitLen(v))
  {
    if v > 1 { BitLenBounds(v / 2); }
  }

  lemma {:induction false} BitLenLimit(v: nat, n: nat)
    requires v < Pow2(n)
    ensures BitLen(v) <= n
  {
    if v > 0 { BitLenBounds(v); if BitLen(v) > n { Pow2Mono(n, BitLen(v) - 1); } }
  }

  /** A nonzero value survives being sent as BitLen(|v|) extra bits, negative
      values as the complement of their magnitude. */
  lemma ExtendInverts(v: int)
    requires v != 0
    ensures var s := BitLen(Abs(v));
            s > 0 && Extend(FromBits(ToBits(if v < 0 then v - 1 else v, s)), s) == v
  {
    var s := BitLen(Abs(v));
    BitLenBounds(Abs(v));
    var e := if v < 0 then v - 1 else v;
    FromToBits(e, s);
    if v < 0 {
      DivBounds(e, Pow2(s), -1);
    } else {
      DivBounds(e, Pow2(s), 0);
    }
  }

  lemma ToShortId(v: int)
    requires -32768 <= v < 32768
    ensures ToShort(v) == v
  {
  }
}
