/** Successive approximation of single coefficients: how the bits of one scan turn
    a value known to the previous precision into one known to the next. */
module Coefficients {
  import opened Bits
  import opened AcCoding

  predicate Short(x: int) {
    -32768 <= x < 32768
  }

  /** JCOEF, a short. */
  type Coef = x: int | Short(x) witness 0

  predicate Shorts(c: Block) {
    forall i :: 0 <= i < 64 ==> Short(c[i])
  }

  /** What the decoder must hold before a scan of band p for the image block c. */
  predicate Prior(p: Band, prev: Block, c: Block)
    requires p.Se <= 63
  {
    (p.Ah != 0 ==> p.Ah == p.Al + 1) &&
    forall k :: p.Ss <= k <= p.Se ==> prev[k] == if p.Ah == 0 then 0 else Trunc(c[k], p.Ah)
  }

  /** The decoder's block once the coefficients before hi are done. */
  function Mixed(p: Band, prev: Block, c: Block, hi: nat): Block {
    seq(64, i requires 0 <= i < 64 => if p.Ss <= i < hi then Trunc(c[i], p.Al) else prev[i])
  }

  // ----- single coefficients -----

  lemma TruncBounds(x: int, al: nat)
    requires Short(x)
    ensures Short(Trunc(x, al))
  {
    ShrBounds(Abs(x), al);
  }

  lemma TruncZero(x: int, al: nat)
    ensures Trunc(x, al) == 0 <==> Mag(x, al) == 0
    ensures x < 0 ==> Trunc(x, al) <= 0
    ensures x >= 0 ==> Trunc(x, al) >= 0
  {
    if Mag(x, al) > 0 { MulLe(1, Mag(x, al), Pow2(al)); }
  }

  lemma MagHalves(x: int, al: nat)
    ensures Mag(x, al + 1) == Mag(x, al) / 2
  {
    ShrSucc(Abs(x), al);
  }

  /** One bit more of magnitude, in terms of the truncated values. */
  lemma TruncStep(x: int, al: nat)
    ensures var bit := if Mag(x, al) % 2 == 1 then Pow2(al) else 0;
            Trunc(x, al) == Trunc(x, al + 1) + (if x < 0 then -bit else bit)
  {
    var h := Mag(x, al) / 2;
    MagHalves(x, al);
    MulDouble(h, Pow2(al));
    NegMul(2 * h, Pow2(al));
    MulSucc(2 * h, Pow2(al));
  }

  /** Bit al of the two's-complement form of a value truncated to al + 1 is clear. */
  lemma BitClear(x: int, al: nat)
    ensures Shr(Trunc(x, al + 1), al) % 2 == 0
  {
    var m: int := Mag(x, al + 1);
    var h := if x < 0 then -m else m;
    MulDouble(m, Pow2(al));
    NegMul(m, 2 * Pow2(al));
    MulDouble(h, Pow2(al));
    NegMul(2 * h, Pow2(al));
    assert Trunc(x, al + 1) == (2 * h) * Pow2(al);
    ShrShl(2 * h, al);
  }

  /** The correction bit adds the next bit of the magnitude. */
  lemma CorrectIs(x: int, al: nat)
    requires Short(x) && Mag(x, al) > 1
    ensures Trunc(x, al + 1) != 0
    ensures ToShort(Correct(Trunc(x, al + 1), al, Mag(x, al) % 2 == 1)) == Trunc(x, al)
  {
    MagHalves(x, al);
    TruncZero(x, al + 1);
    TruncStep(x, al);
    BitClear(x, al);
    TruncBounds(x, al);
    ToShortId(Trunc(x, al));
    CorrectAdds(Trunc(x, al + 1), al, Mag(x, al) % 2 == 1);
  }

  lemma CorrectAdds(v: int, al: nat, bit: bool)
    requires Shr(v, al) % 2 == 0
    ensures Correct(v, al, bit) == if !bit then v else if v >= 0 then v + Pow2(al) else v - Pow2(al)
  {
  }

  lemma NegMul(x: int, y: int)
    ensures (-x) * y == -(x * y)
    ensures x % 2 == 0 ==> x * y == 2 * (x / 2 * y)
  {
  }

  lemma NewIs(x: int, al: nat)
    requires Short(x) && Mag(x, al) == 1
    ensures Trunc(x, al + 1) == 0
    ensures ToShort(NewCoef(al, x >= 0)) == Trunc(x, al)
  {
    MagHalves(x, al);
    TruncZero(x, al + 1);
    TruncBounds(x, al);
    ToShortId(Trunc(x, al));
  }

  lemma StillZero(x: int, al: nat)
    requires Mag(x, al) == 0
    ensures Trunc(x, al + 1) == 0 && Trunc(x, al) == 0
  {
    MagHalves(x, al);
    TruncZero(x, al);
    TruncZero(x, al + 1);
  }

  lemma FirstIs(x: int, al: nat)
    requires Short(x) && Mag(x, al) > 0
    ensures var s := BitLen(Mag(x, al));
            s > 0 && ToShort(Extend(FromBits(ToBits(ExtraBits(x, Mag(x, al)), s)), s) * Pow2(al)) == Trunc(x, al)
  {
    var a: int := Mag(x, al);
    var v := if x < 0 then -a else a;
    ExtendInverts(v);
    NegMul(a, Pow2(al));
    TruncBounds(x, al);
    ToShortId(Trunc(x, al));
  }
}
