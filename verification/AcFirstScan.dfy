/** The first scan of an AC band, block by block: decoding inverts encoding. */
module AcFirstScan {
  import opened Bits
  import opened Wrappers
  import opened Tokens
  import opened AcCoding
  import opened Coefficients

  ghost predicate FirstScan(p: Band, T: Tables, prev: Block, c: Block) {
    AcBand(p) && p.Ah == 0 && Prior(p, prev, c) && Shorts(c) &&
    p.id in T && Sound(T[p.id])
  }

  /** The coefficients in lo..hi vanish at this precision. */
  ghost predicate Vanish(p: Band, c: Block, lo: nat, hi: nat)
    requires hi <= 64
  {
    forall i :: lo <= i < hi ==> Mag(c[i], p.Al) == 0
  }

  /** Every coefficient of the band fits the magnitude categories the encoder accepts. */
  ghost predicate InRange(p: Band, c: Block) {
    forall i :: p.Ss <= i <= p.Se && i < 64 ==> BitLen(Mag(c[i], p.Al)) <= 10
  }

  lemma MixedOverZeros(p: Band, T: Tables, prev: Block, c: Block, lo: nat, hi: nat)
    requires FirstScan(p, T, prev, c) && p.Ss <= lo <= hi <= p.Se + 1 && Vanish(p, c, lo, hi)
    ensures Mixed(p, prev, c, lo) == Mixed(p, prev, c, hi)
  {
    forall i | lo <= i < hi ensures Trunc(c[i], p.Al) == 0 {
      TruncZero(c[i], p.Al);
    }
  }

  lemma MixedStep(p: Band, prev: Block, c: Block, k: nat)
    requires p.Ss <= k < 64
    ensures Mixed(p, prev, c, k + 1) == Mixed(p, prev, c, k)[k := Trunc(c[k], p.Al)]
  {
  }

  lemma ReadZrl(p: Band, read: Reader, k: nat, blk: Block, bits: seq<bool>, rest: seq<bool>)
    requires k <= p.Se <= 63 && read(bits) == Some((0xF0, rest))
    ensures DecFirst(p, read, k, blk, bits) == DecFirst(p, read, k + 16, blk, rest)
  {
  }

  lemma ReadCoef(p: Band, read: Reader, k: nat, r: nat, s: nat, x: nat, blk: Block,
                 bits: seq<bool>, bits1: seq<bool>, rest: seq<bool>)
    requires k + r <= p.Se <= 63 && r <= 15 && 1 <= s <= 15
    requires read(bits) == Some((r * 16 + s, bits1)) && GetBits(s, bits1) == Some((x, rest))
    ensures DecFirst(p, read, k, blk, bits)
         == DecFirst(p, read, k + r + 1, blk[k + r := ToShort(Extend(x, s) * Pow2(p.Al))], rest)
  {
  }

  /** n ZRLs skip 16 n coefficients. */
  lemma {:induction false} ReadZrls(p: Band, T: Tables, k: nat, n: nat, blk: Block, rest: seq<bool>)
    requires p.id in T && Sound(T[p.id]) && Covers(T, Zrls(p.id, n))
    requires n > 0 ==> k + 16 * n <= p.Se + 16
    requires p.Se <= 63
    ensures DecFirst(p, T[p.id].read, k, blk, Emit(T, Zrls(p.id, n), rest))
         == DecFirst(p, T[p.id].read, k + 16 * n, blk, rest)
    decreases n
  {
    hide DecFirst;
    if n > 0 {
      ReadSymbol(T, p.id, 0xF0, Zrls(p.id, n - 1), rest);
      ReadZrl(p, T[p.id].read, k, blk, Emit(T, Zrls(p.id, n), rest), Emit(T, Zrls(p.id, n - 1), rest));
      ReadZrls(p, T, k + 16, n - 1, blk, rest);
    }
  }

  /** One nonzero coefficient after r <= 15 zeros. */
  function CoefTokens(p: Band, x: int, r: nat): seq<Token> {
    [Sym(p.id, r * 16 + BitLen(Mag(x, p.Al))), Raw(ExtraBits(x, Mag(x, p.Al)), BitLen(Mag(x, p.Al)))]
  }

  lemma CoefInverts(p: Band, T: Tables, prev: Block, c: Block, k: nat, r: nat, rest: seq<bool>)
    requires FirstScan(p, T, prev, c) && InRange(p, c)
    requires p.Ss + r <= k <= p.Se && Mag(c[k], p.Al) > 0 && Covers(T, CoefTokens(p, c[k], r))
    requires r <= 15
    ensures DecFirst(p, T[p.id].read, k - r, Mixed(p, prev, c, k), Emit(T, CoefTokens(p, c[k], r), rest))
         == DecFirst(p, T[p.id].read, k + 1, Mixed(p, prev, c, k + 1), rest)
  {
    hide DecFirst, Extend, Mixed, ToBits, FromBits, Trunc, Emit, Covers, BitLen, GetBits, Mag;
    var s := BitLen(Mag(c[k], p.Al));
    BitLenBounds(Mag(c[k], p.Al));
    var toks := CoefTokens(p, c[k], r);
    var raw := [toks[1]];
    assert toks == [toks[0]] + raw && raw == raw + [];
    ReadSymbol(T, p.id, r * 16 + s, raw, rest);
    ReadRaw(T, toks[1].v, s, [], rest);
    EmitNothing(T, rest);
    ReadCoef(p, T[p.id].read, k - r, r, s, FromBits(ToBits(toks[1].v, s)), Mixed(p, prev, c, k),
             Emit(T, toks, rest), Emit(T, raw, rest), rest);
    FirstIs(c[k], p.Al);
    MixedStep(p, prev, c, k);
  }

  /** The ZRLs and the symbol of the nonzero coefficient k after zeros from j on. */
  function RunTokens(p: Band, x: int, r: nat): seq<Token> {
    Zrls(p.id, r / 16) + CoefTokens(p, x, r % 16)
  }

  lemma RunInverts(p: Band, T: Tables, prev: Block, c: Block, j: nat, k: nat, rest: seq<bool>)
    requires FirstScan(p, T, prev, c) && InRange(p, c)
    requires p.Ss <= j <= k <= p.Se && Vanish(p, c, j, k) && Mag(c[k], p.Al) > 0
    requires Covers(T, RunTokens(p, c[k], k - j))
    ensures DecFirst(p, T[p.id].read, j, Mixed(p, prev, c, j), Emit(T, RunTokens(p, c[k], k - j), rest))
         == DecFirst(p, T[p.id].read, k + 1, Mixed(p, prev, c, k + 1), rest)
  {
    hide DecFirst;
    var r := k - j;
    var zrls, coef := Zrls(p.id, r / 16), CoefTokens(p, c[k], r % 16);
    EmitConcat(T, zrls, coef, rest);
    MixedOverZeros(p, T, prev, c, j, k);
    ReadZrls(p, T, j, r / 16, Mixed(p, prev, c, k), Emit(T, coef, rest));
    CoefInverts(p, T, prev, c, k, r % 16, rest);
  }

  /** Decoding code from coefficient j on gets to its trailing zeros, with every
      coefficient before them in place. */
  ghost predicate ResumesFirst(p: Band, T: Tables, prev: Block, c: Block, j: nat, code: BlockCode, rest: seq<bool>)
    requires FirstScan(p, T, prev, c) && Covers(T, code.toks)
  {
    code.r <= p.Se + 1 - p.Ss && code.br == [] &&
    var end := p.Se + 1 - code.r;
    Vanish(p, c, end, p.Se + 1) && (code.toks == [] ==> end == j) &&
    DecFirst(p, T[p.id].read, j, Mixed(p, prev, c, j), Emit(T, code.toks, rest))
      == DecFirst(p, T[p.id].read, end, Mixed(p, prev, c, end), rest)
  }

  lemma FirstFromCoef(p: Band, c: Block, k: nat, r: nat)
    requires k <= p.Se <= 63 && Mag(c[k], p.Al) > 0
    ensures FirstFrom(p, c, k, r) == Prepend(RunTokens(p, c[k], r), FirstFrom(p, c, k + 1, 0))
    ensures RunTokens(p, c[k], r) != []
  {
  }

  lemma ResumesAfter(p: Band, T: Tables, prev: Block, c: Block, j: nat, k: nat, more: BlockCode, rest: seq<bool>)
    requires FirstScan(p, T, prev, c) && InRange(p, c)
    requires p.Ss <= j <= k <= p.Se && Vanish(p, c, j, k) && Mag(c[k], p.Al) > 0
    requires Covers(T, RunTokens(p, c[k], k - j) + more.toks)
    requires Covers(T, more.toks) && ResumesFirst(p, T, prev, c, k + 1, more, rest)
    ensures ResumesFirst(p, T, prev, c, j, Prepend(RunTokens(p, c[k], k - j), more), rest)
  {
    hide DecFirst, Mixed, Mag;
    EmitConcat(T, RunTokens(p, c[k], k - j), more.toks, rest);
    RunInverts(p, T, prev, c, j, k, Emit(T, more.toks, rest));
    FirstFromCoef(p, c, k, k - j);
  }

  /** From a point k after the vanishing coefficients j..k, decoding what the
      encoder emits leads to the start of the trailing zeros with all earlier
      coefficients in place. */
  lemma {:induction false} FirstInverts(p: Band, T: Tables, prev: Block, c: Block, j: nat, k: nat, rest: seq<bool>)
    requires FirstScan(p, T, prev, c) && InRange(p, c)
    requires p.Ss <= j <= k <= p.Se + 1 && Vanish(p, c, j, k)
    requires Covers(T, FirstFrom(p, c, k, k - j).toks)
    ensures ResumesFirst(p, T, prev, c, j, FirstFrom(p, c, k, k - j), rest)
    decreases p.Se + 1 - k
  {
    hide DecFirst, Mixed, Mag;
    if k > p.Se {
    } else if Mag(c[k], p.Al) == 0 {
      FirstInverts(p, T, prev, c, j, k + 1, rest);
    } else {
      var more := FirstFrom(p, c, k + 1, 0);
      FirstFromCoef(p, c, k, k - j);
      CoversConcat(T, RunTokens(p, c[k], k - j), more.toks);
      FirstInverts(p, T, prev, c, k + 1, k + 1, rest);
      ResumesAfter(p, T, prev, c, j, k, more, rest);
    }
  }

  // ----- trailing zeros -----

  /** From a point k with r vanishing coefficients before it, exactly the vanishing
      coefficients at the end of the band are left to the end-of-band. */
  lemma {:induction false} TrailingFrom(p: Band, c: Block, k: nat, r: nat)
    requires p.Se <= 63 && p.Ss + r <= k <= p.Se + 1 && Vanish(p, c, k - r, k)
    requires k - r > p.Ss ==> Mag(c[k - r - 1], p.Al) > 0
    ensures var n := FirstFrom(p, c, k, r).r;
            p.Ss + n <= p.Se + 1 && Vanish(p, c, p.Se + 1 - n, p.Se + 1) && FirstFrom(p, c, k, r).br == [] &&
            (p.Ss + n <= p.Se ==> Mag(c[p.Se - n], p.Al) > 0) &&
            (FirstFrom(p, c, k, r).toks == [] <==> Vanish(p, c, k, p.Se + 1))
    decreases p.Se + 1 - k
  {
    hide Mag, BitLen, Zrls;
    if k <= p.Se {
      if Mag(c[k], p.Al) == 0 {
        TrailingFrom(p, c, k + 1, r + 1);
      } else {
        TrailingFrom(p, c, k + 1, 0);
      }
    }
  }

  /** A first scan of a band leaves to the end-of-band the zeros after the last nonzero
      coefficient, all of them and nothing else. */
  lemma TrailingZeros(p: Band, c: Block)
    requires AcBand(p) && p.Ah == 0
    ensures var n := AcCode(p, c).r;
            p.Ss + n <= p.Se + 1 && Vanish(p, c, p.Se + 1 - n, p.Se + 1) && AcCode(p, c).br == [] &&
            (p.Ss + n <= p.Se ==> Mag(c[p.Se - n], p.Al) > 0) &&
            (AcCode(p, c).toks == [] <==> Vanish(p, c, p.Ss, p.Se + 1))
  {
    TrailingFrom(p, c, p.Ss, 0);
  }

  lemma {:induction false} NothingAfter(p: Band, c: Block, k: nat, r: nat)
    requires p.Se <= 63 && k <= p.Se + 1 && Vanish(p, c, k, p.Se + 1)
    ensures FirstFrom(p, c, k, r).toks == []
    decreases p.Se + 1 - k
  {
    hide Mag, BitLen, Zrls;
    if k <= p.Se { NothingAfter(p, c, k + 1, r + 1); }
  }

  /** The tokens of a band end with those of its last nonzero coefficient m: no zero run
      is coded after it. */
  lemma {:induction false} EndsWithLast(p: Band, c: Block, k: nat, r: nat, m: nat)
    requires k <= m <= p.Se <= 63 && Mag(c[m], p.Al) > 0 && Vanish(p, c, m + 1, p.Se + 1)
    ensures var toks, a := FirstFrom(p, c, k, r).toks, Mag(c[m], p.Al);
            |toks| >= 2 && toks[|toks| - 2].Sym? && toks[|toks| - 1] == Raw(ExtraBits(c[m], a), BitLen(a))
    decreases m - k
  {
    hide Mag, BitLen, Zrls;
    if k < m {
      if Mag(c[k], p.Al) == 0 {
        EndsWithLast(p, c, k + 1, r + 1, m);
      } else {
        EndsWithLast(p, c, k + 1, 0, m);
      }
    } else {
      NothingAfter(p, c, k + 1, 0);
    }
  }
}
