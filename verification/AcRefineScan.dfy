/** Refinement of an AC band, block by block: decoding inverts encoding. */
module AcRefineScan {
  import opened Bits
  import opened Wrappers
  import opened Tokens
  import opened AcCoding
  import opened Coefficients

  ghost predicate RefineScan(p: Band, T: Tables, prev: Block, c: Block) {
    AcBand(p) && p.Ah != 0 && Prior(p, prev, c) && Shorts(c) &&
    p.id in T && Sound(T[p.id])
  }

  /** The correction bits of the already nonzero coefficients in lo..hi. */
  function Corrections(p: Band, c: Block, lo: nat, hi: nat): seq<bool>
    requires hi <= 64
    decreases hi - lo
  {
    if lo >= hi then []
    else (if Mag(c[lo], p.Al) > 1 then [Mag(c[lo], p.Al) % 2 == 1] else []) + Corrections(p, c, lo + 1, hi)
  }

  /** Number of coefficients in lo..hi that stay zero. */
  function Zeros(p: Band, c: Block, lo: nat, hi: nat): nat
    requires hi <= 64
    decreases hi - lo
  {
    if lo >= hi then 0
    else (if Mag(c[lo], p.Al) == 0 then 1 else 0) + Zeros(p, c, lo + 1, hi)
  }

  /** No coefficient in lo..hi becomes nonzero in this scan. */
  ghost predicate Quiet(p: Band, c: Block, lo: nat, hi: nat)
    requires hi <= 64
  {
    forall i :: lo <= i < hi ==> Mag(c[i], p.Al) != 1
  }

  /** All coefficients in lo..hi stay zero. */
  ghost predicate AllZero(p: Band, c: Block, lo: nat, hi: nat)
    requires hi <= 64
  {
    forall i :: lo <= i < hi ==> Mag(c[i], p.Al) == 0
  }

  lemma {:induction false} Snoc(p: Band, c: Block, lo: nat, hi: nat)
    requires lo <= hi < 64
    ensures Corrections(p, c, lo, hi + 1)
         == Corrections(p, c, lo, hi) + (if Mag(c[hi], p.Al) > 1 then [Mag(c[hi], p.Al) % 2 == 1] else [])
    ensures Zeros(p, c, lo, hi + 1) == Zeros(p, c, lo, hi) + (if Mag(c[hi], p.Al) == 0 then 1 else 0)
    decreases hi - lo
  {
    hide Mag;
    if lo < hi {
      Snoc(p, c, lo + 1, hi);
    }
  }

  lemma {:induction false} AllZeroCounts(p: Band, c: Block, lo: nat, hi: nat)
    requires lo <= hi <= 64 && AllZero(p, c, lo, hi)
    ensures Corrections(p, c, lo, hi) == [] && Zeros(p, c, lo, hi) == hi - lo && Quiet(p, c, lo, hi)
    decreases hi - lo
  {
    hide Mag;
    if lo < hi {
      AllZeroCounts(p, c, lo + 1, hi);
    }
  }

  lemma {:induction false} AppendZeros(p: Band, c: Block, lo: nat, mid: nat, hi: nat)
    requires lo <= mid <= hi <= 64 && AllZero(p, c, mid, hi)
    ensures Corrections(p, c, lo, hi) == Corrections(p, c, lo, mid)
    ensures Zeros(p, c, lo, hi) == Zeros(p, c, lo, mid) + hi - mid
    decreases hi
  {
    hide Mag;
    if mid < hi {
      AppendZeros(p, c, lo, mid, hi - 1);
      Snoc(p, c, lo, hi - 1);
    }
  }

  // ----- single steps of the decoder -----

  lemma MixedNext(p: Band, prev: Block, c: Block, k: nat)
    requires p.Ss <= k < 64
    ensures Mixed(p, prev, c, k + 1) == Mixed(p, prev, c, k)[k := Trunc(c[k], p.Al)]
    ensures Mixed(p, prev, c, k)[k] == prev[k]
  {
  }

  /** Passing the coefficient k, which does not become nonzero, corrects it with
      its correction bit, if it has one. */
  lemma PassOne(p: Band, T: Tables, prev: Block, c: Block, k: nat)
    requires RefineScan(p, T, prev, c) && p.Ss <= k <= p.Se && Mag(c[k], p.Al) != 1
    ensures var cur := Mixed(p, prev, c, k);
            if Mag(c[k], p.Al) == 0 then cur[k] == 0 && Mixed(p, prev, c, k + 1) == cur
            else cur[k] != 0 &&
                 cur[k := ToShort(Correct(cur[k], p.Al, Mag(c[k], p.Al) % 2 == 1))] == Mixed(p, prev, c, k + 1)
  {
    hide Mag, Trunc, Correct, ToShort, Mixed;
    MixedNext(p, prev, c, k);
    assert prev[k] == Trunc(c[k], p.Al + 1);
    if Mag(c[k], p.Al) == 0 {
      StillZero(c[k], p.Al);
      assert Mixed(p, prev, c, k)[k := 0] == Mixed(p, prev, c, k);
    } else {
      CorrectIs(c[k], p.Al);
    }
  }

  /** Before the coefficient k that becomes nonzero, or stays zero, the decoder
      holds zero. */
  lemma HoldsZero(p: Band, T: Tables, prev: Block, c: Block, k: nat)
    requires RefineScan(p, T, prev, c) && p.Ss <= k <= p.Se && Mag(c[k], p.Al) <= 1
    ensures Mixed(p, prev, c, k)[k] == 0
  {
    hide Mag, Trunc, Mixed;
    MixedNext(p, prev, c, k);
    assert prev[k] == Trunc(c[k], p.Al + 1);
    if Mag(c[k], p.Al) == 0 { StillZero(c[k], p.Al); } else { NewIs(c[k], p.Al); }
  }

  lemma NoCorrections(p: Band, c: Block, k: nat, rest: seq<bool>)
    requires k <= 64
    ensures Corrections(p, c, k, k) + rest == rest
  {
  }

  lemma HeadBit(p: Band, c: Block, j: nat, k: nat, rest: seq<bool>)
    requires j < k <= 64
    ensures var bits, more := Corrections(p, c, j, k) + rest, Corrections(p, c, j + 1, k) + rest;
            if Mag(c[j], p.Al) > 1 then bits != [] && bits[0] == (Mag(c[j], p.Al) % 2 == 1) && bits[1..] == more
            else bits == more
  {
    hide Mag;
  }

  /** Skipping the n zeros before k, with the correction bits in between, leads to k. */
  lemma {:induction false} SkipInverts(p: Band, T: Tables, prev: Block, c: Block, j: nat, k: nat, rest: seq<bool>)
    requires RefineScan(p, T, prev, c) && p.Ss <= j <= k <= p.Se
    requires Quiet(p, c, j, k) && Mag(c[k], p.Al) <= 1
    ensures Skip(p, j, Zeros(p, c, j, k), Mixed(p, prev, c, j), Corrections(p, c, j, k) + rest)
         == Some((k, Mixed(p, prev, c, k), rest))
    decreases k - j
  {
    hide Mag, Trunc, Correct, ToShort, Mixed, Corrections;
    var bits := Corrections(p, c, j, k) + rest;
    NoCorrections(p, c, k, rest);
    if j == k {
      HoldsZero(p, T, prev, c, k);
    } else {
      PassOne(p, T, prev, c, j);
      SkipInverts(p, T, prev, c, j + 1, k, rest);
      HeadBit(p, c, j, k, rest);
    }
  }

  /** The end-of-band correction bits finish the block. */
  lemma {:induction false} TailInverts(p: Band, T: Tables, prev: Block, c: Block, j: nat, rest: seq<bool>)
    requires RefineScan(p, T, prev, c) && p.Ss <= j <= p.Se + 1 && Quiet(p, c, j, p.Se + 1)
    ensures CorrectTail(p, j, Mixed(p, prev, c, j), Corrections(p, c, j, p.Se + 1) + rest)
         == Some((Mixed(p, prev, c, p.Se + 1), rest))
    decreases p.Se + 1 - j
  {
    hide Mag, Trunc, Correct, ToShort, Mixed, Corrections;
    var bits := Corrections(p, c, j, p.Se + 1) + rest;
    NoCorrections(p, c, p.Se + 1, rest);
    if j <= p.Se {
      PassOne(p, T, prev, c, j);
      TailInverts(p, T, prev, c, j + 1, rest);
      HeadBit(p, c, j, p.Se + 1, rest);
    }
  }

  lemma {:induction false} EmitCorrections(T: Tables, br: seq<bool>, rest: seq<bool>)
    ensures Covers(T, CorrectionTokens(br)) && Emit(T, CorrectionTokens(br), rest) == br + rest
  {
    hide ToBits;
    if br == [] {
      assert br + rest == rest;
    } else {
      EmitCorrections(T, br[1..], rest);
      var toks := CorrectionTokens(br);
      assert toks[1..] == CorrectionTokens(br[1..]);
      OneBit(br[0]);
      assert TokenBits(T, toks[0]) == [br[0]];
      assert br + rest == [br[0]] + (br[1..] + rest);
    }
  }

  lemma OneBit(b: bool)
    ensures ToBits(if b then 1 else 0, 1) == [b]
  {
    assert ToBits((if b then 1 else 0) / 2, 0) == [];
  }

  lemma ReadZrl(p: Band, read: Reader, j: nat, blk: Block, bits: seq<bool>, bits1: seq<bool>,
                k: nat, blk1: Block, rest: seq<bool>)
    requires j <= p.Se <= 63 && read(bits) == Some((0xF0, bits1))
    requires Skip(p, j, 15, blk, bits1) == Some((k, blk1, rest))
    ensures DecRefine(p, read, j, blk, bits) == DecRefine(p, read, k + 1, blk1, rest)
  {
    hide Skip;
  }

  lemma ReadNew(p: Band, read: Reader, j: nat, r: nat, blk: Block, bits: seq<bool>, bits1: seq<bool>,
                k: nat, blk1: Block, rest: seq<bool>)
    requires j <= p.Se <= 63 && r <= 15 && read(bits) == Some((r * 16 + 1, bits1)) && bits1 != []
    requires Skip(p, j, r, blk, bits1[1..]) == Some((k, blk1, rest)) && k <= p.Se
    ensures DecRefine(p, read, j, blk, bits)
         == DecRefine(p, read, k + 1, blk1[k := ToShort(NewCoef(p.Al, bits1[0]))], rest)
  {
    hide Skip, ToShort, NewCoef;
  }

  /** Between j and k no coefficient becomes nonzero; the coefficients from q on
      stay zero, and at most 15 do before q. */
  ghost predicate AtRun(p: Band, c: Block, j: nat, q: nat, k: nat) {
    p.Ss <= j <= q <= k <= 64 && Quiet(p, c, j, k) && Zeros(p, c, j, q) <= 15 && AllZero(p, c, q, k)
  }

  /** The 16th zero from j on, which the first ZRL reaches. */
  function Sixteenth(p: Band, c: Block, j: nat, q: nat): nat
    requires q <= 64 && Zeros(p, c, j, q) <= 15
  {
    q + 15 - Zeros(p, c, j, q)
  }

  lemma ToSixteenth(p: Band, c: Block, j: nat, q: nat, k: nat)
    requires AtRun(p, c, j, q, k) && Zeros(p, c, j, k) > 15
    ensures var m := Sixteenth(p, c, j, q);
            m < k && Zeros(p, c, j, m) == 15 && Corrections(p, c, j, m) == Corrections(p, c, j, k) &&
            AllZero(p, c, m, k) && m + Zeros(p, c, j, k) == k + 15
  {
    hide Mag, Zeros, Corrections;
    AppendZeros(p, c, j, q, k);
    var m := Sixteenth(p, c, j, q);
    AppendZeros(p, c, j, q, m);
  }

  /** The first ZRL, with the correction bits it carries. */
  lemma ZrlInverts(p: Band, T: Tables, prev: Block, c: Block, j: nat, q: nat, k: nat, more: seq<Token>, rest: seq<bool>)
    requires RefineScan(p, T, prev, c) && AtRun(p, c, j, q, k) && k <= p.Se && Zeros(p, c, j, k) > 15
    requires Covers(T, [Sym(p.id, 0xF0)] + (CorrectionTokens(Corrections(p, c, j, k)) + more))
    ensures Covers(T, more)
    ensures DecRefine(p, T[p.id].read, j, Mixed(p, prev, c, j),
                      Emit(T, [Sym(p.id, 0xF0)] + (CorrectionTokens(Corrections(p, c, j, k)) + more), rest))
         == DecRefine(p, T[p.id].read, Sixteenth(p, c, j, q) + 1, Mixed(p, prev, c, Sixteenth(p, c, j, q) + 1),
                      Emit(T, more, rest))
  {
    hide Mag, Zeros, Corrections, DecRefine, Mixed, Skip;
    var br := Corrections(p, c, j, k);
    var m := Sixteenth(p, c, j, q);
    var toks := CorrectionTokens(br) + more;
    ReadSymbol(T, p.id, 0xF0, toks, rest);
    EmitConcat(T, CorrectionTokens(br), more, rest);
    var tail := Emit(T, more, rest);
    EmitCorrections(T, br, tail);
    ToSixteenth(p, c, j, q, k);
    SkipInverts(p, T, prev, c, j, m, tail);
    ReadZrl(p, T[p.id].read, j, Mixed(p, prev, c, j), Emit(T, [Sym(p.id, 0xF0)] + toks, rest), br + tail,
            m, Mixed(p, prev, c, m), tail);
    PassOne(p, T, prev, c, m);
  }

  /** Further ZRLs over zeros only. */
  lemma {:induction false} ZrlsInvert(p: Band, T: Tables, prev: Block, c: Block, j: nat, n: nat, rest: seq<bool>)
    requires RefineScan(p, T, prev, c) && p.Ss <= j && j + 16 * n <= p.Se && AllZero(p, c, j, j + 16 * n)
    requires Covers(T, Zrls(p.id, n))
    ensures DecRefine(p, T[p.id].read, j, Mixed(p, prev, c, j), Emit(T, Zrls(p.id, n), rest))
         == DecRefine(p, T[p.id].read, j + 16 * n, Mixed(p, prev, c, j + 16 * n), rest)
    decreases n
  {
    hide Mag, Zeros, Corrections, DecRefine, Mixed, Emit, Covers;
    EmitNothing(T, rest);
    if n > 0 {
      var k := j + 16;
      AllZeroCounts(p, c, j, k);
      AllZeroCounts(p, c, j, j);
      var br := Corrections(p, c, j, k);
      var more := Zrls(p.id, n - 1);
      assert CorrectionTokens(br) + more == more;
      ZrlInverts(p, T, prev, c, j, j, k, more, rest);
      ZrlsInvert(p, T, prev, c, k, n - 1, rest);
    }
  }

  /** Where the decoder stands after the ZRLs due at k. */
  function AfterZrls(p: Band, c: Block, j: nat, k: nat): int
    requires k <= 64
  {
    k - Zeros(p, c, j, k) % 16
  }

  /** All ZRLs due at k leave fewer than 16 zeros before k. */
  lemma ZrlTokensInvert(p: Band, T: Tables, prev: Block, c: Block, j: nat, q: nat, k: nat, rest: seq<bool>)
    requires RefineScan(p, T, prev, c) && AtRun(p, c, j, q, k) && k <= p.Se && Zeros(p, c, j, k) > 15
    requires Covers(T, ZrlTokens(p.id, Zeros(p, c, j, k), Corrections(p, c, j, k)))
    ensures p.Ss <= j <= AfterZrls(p, c, j, k) <= k && AllZero(p, c, AfterZrls(p, c, j, k), k)
    ensures DecRefine(p, T[p.id].read, j, Mixed(p, prev, c, j),
                      Emit(T, ZrlTokens(p.id, Zeros(p, c, j, k), Corrections(p, c, j, k)), rest))
         == DecRefine(p, T[p.id].read, AfterZrls(p, c, j, k), Mixed(p, prev, c, AfterZrls(p, c, j, k)), rest)
  {
    hide Mag, Zeros, Corrections, DecRefine, Mixed, Zrls;
    var r, br := Zeros(p, c, j, k), Corrections(p, c, j, k);
    var m := Sixteenth(p, c, j, q);
    var more := Zrls(p.id, r / 16 - 1);
    assert ZrlTokens(p.id, r, br) == [Sym(p.id, 0xF0)] + (CorrectionTokens(br) + more);
    ToSixteenth(p, c, j, q, k);
    ZrlInverts(p, T, prev, c, j, q, k, more, rest);
    ZrlsInvert(p, T, prev, c, m + 1, r / 16 - 1, rest);
  }

  /** The tokens of the newly nonzero coefficient x after r <= 15 zeros. */
  function NewTokens(p: Band, x: int, r: nat, br: seq<bool>): seq<Token> {
    [Sym(p.id, r * 16 + 1), Raw(if x < 0 then 0 else 1, 1)] + CorrectionTokens(br)
  }

  lemma NewInverts(p: Band, T: Tables, prev: Block, c: Block, j: nat, k: nat, rest: seq<bool>)
    requires RefineScan(p, T, prev, c) && p.Ss <= j <= k <= p.Se && Quiet(p, c, j, k)
    requires Zeros(p, c, j, k) <= 15 && Mag(c[k], p.Al) == 1
    requires Covers(T, NewTokens(p, c[k], Zeros(p, c, j, k), Corrections(p, c, j, k)))
    ensures DecRefine(p, T[p.id].read, j, Mixed(p, prev, c, j),
                      Emit(T, NewTokens(p, c[k], Zeros(p, c, j, k), Corrections(p, c, j, k)), rest))
         == DecRefine(p, T[p.id].read, k + 1, Mixed(p, prev, c, k + 1), rest)
  {
    hide Mag, Zeros, Corrections, DecRefine, Mixed, Skip, Trunc, ToShort, NewCoef;
    var r, br := Zeros(p, c, j, k), Corrections(p, c, j, k);
    var sign := Raw(if c[k] < 0 then 0 else 1, 1);
    var toks := [sign] + CorrectionTokens(br);
    assert NewTokens(p, c[k], r, br) == [Sym(p.id, r * 16 + 1)] + toks;
    ReadSymbol(T, p.id, r * 16 + 1, toks, rest);
    EmitCorrections(T, br, rest);
    OneBit(c[k] >= 0);
    assert Emit(T, toks, rest) == [c[k] >= 0] + (br + rest) by {
      assert toks[1..] == CorrectionTokens(br);
    }
    var bits1 := Emit(T, toks, rest);
    assert bits1[1..] == br + rest;
    SkipInverts(p, T, prev, c, j, k, rest);
    ReadNew(p, T[p.id].read, j, r, Mixed(p, prev, c, j), Emit(T, NewTokens(p, c[k], r, br), rest), bits1,
            k, Mixed(p, prev, c, k), rest);
    NewIs(c[k], p.Al);
    MixedNext(p, prev, c, k);
  }

  // ----- the whole block -----

  /** eob is the last coefficient of the band to become nonzero. */
  ghost predicate IsLastNew(p: Band, c: Block, eob: nat) {
    p.Ss <= eob <= p.Se <= 63 && Mag(c[eob], p.Al) == 1 && Quiet(p, c, eob + 1, p.Se + 1)
  }

  lemma {:induction false} LastNewIs(p: Band, c: Block, k: nat, eob: nat)
    requires 1 <= p.Ss <= k <= p.Se + 1 <= 64
    requires if eob == 0 then Quiet(p, c, p.Ss, k)
             else p.Ss <= eob < k && Mag(c[eob], p.Al) == 1 && Quiet(p, c, eob + 1, k)
    ensures var last := LastNew(p, c, k, eob);
            if last == 0 then Quiet(p, c, p.Ss, p.Se + 1) else IsLastNew(p, c, last)
    decreases p.Se + 1 - k
  {
    hide Mag;
    if k <= p.Se {
      LastNewIs(p, c, k + 1, if Mag(c[k], p.Al) == 1 then k else eob);
    }
  }

  /** Past the last newly nonzero coefficient nothing is emitted; zeros and
      correction bits are left to the end-of-band. */
  lemma {:induction false} QuietRest(p: Band, c: Block, j: nat, k: nat, eob: nat)
    requires j <= k <= p.Se + 1 <= 64 && eob < k && Quiet(p, c, k, p.Se + 1)
    ensures RefineFrom(p, c, k, Zeros(p, c, j, k), Corrections(p, c, j, k), eob)
         == BlockCode([], Zeros(p, c, j, p.Se + 1), Corrections(p, c, j, p.Se + 1))
    decreases p.Se + 1 - k
  {
    hide Mag, Zeros, Corrections;
    if k <= p.Se {
      Snoc(p, c, j, k);
      assert Corrections(p, c, j, k) + [] == Corrections(p, c, j, k);
      QuietRest(p, c, j, k + 1, eob);
    }
  }

  /** The ZRLs due before a nonzero coefficient k, if any. */
  function ZrlsDue(p: Band, c: Block, j: nat, k: nat): seq<Token>
    requires k <= 64
  {
    ZrlTokens(p.id, Zeros(p, c, j, k), Corrections(p, c, j, k))
  }

  /** Where the run to k starts over after those ZRLs. */
  function Restart(p: Band, c: Block, j: nat, k: nat): nat
    requires k <= 64
  {
    if Zeros(p, c, j, k) > 15 && AfterZrls(p, c, j, k) >= 0 then AfterZrls(p, c, j, k) else j
  }

  lemma RestartIs(p: Band, c: Block, j: nat, q: nat, k: nat)
    requires AtRun(p, c, j, q, k)
    ensures var i := Restart(p, c, j, k);
            AtRun(p, c, i, if i == j then q else i, k) && Zeros(p, c, i, k) <= 15 &&
            Zeros(p, c, i, k) == (if Zeros(p, c, j, k) > 15 then Zeros(p, c, j, k) % 16 else Zeros(p, c, j, k)) &&
            Corrections(p, c, i, k) == (if Zeros(p, c, j, k) > 15 then [] else Corrections(p, c, j, k))
  {
    hide Mag, Zeros, Corrections;
    if Zeros(p, c, j, k) > 15 {
      ToSixteenth(p, c, j, q, k);
      var i := Restart(p, c, j, k);
      AllZeroCounts(p, c, i, k);
      AllZeroCounts(p, c, i, i);
    }
  }

  lemma ZrlsDueInvert(p: Band, T: Tables, prev: Block, c: Block, j: nat, q: nat, k: nat, rest: seq<bool>)
    requires RefineScan(p, T, prev, c) && AtRun(p, c, j, q, k) && k <= p.Se
    requires Covers(T, ZrlsDue(p, c, j, k))
    ensures DecRefine(p, T[p.id].read, j, Mixed(p, prev, c, j), Emit(T, ZrlsDue(p, c, j, k), rest))
         == DecRefine(p, T[p.id].read, Restart(p, c, j, k), Mixed(p, prev, c, Restart(p, c, j, k)), rest)
  {
    hide Mag, Zeros, Corrections, DecRefine, Mixed;
    if Zeros(p, c, j, k) > 15 {
      hide ZrlTokens;
      ZrlTokensInvert(p, T, prev, c, j, q, k, rest);
    }
  }

  /** From the run j..k on, decoding what the encoder emits leads past the last
      newly nonzero coefficient, with everything before it in place. */
  ghost predicate ResumesRefine(p: Band, T: Tables, prev: Block, c: Block, j: nat, eob: nat,
                                code: BlockCode, rest: seq<bool>)
    requires RefineScan(p, T, prev, c) && Covers(T, code.toks) && eob <= p.Se
  {
    code.toks != [] &&
    code.r == Zeros(p, c, eob + 1, p.Se + 1) && code.br == Corrections(p, c, eob + 1, p.Se + 1) &&
    DecRefine(p, T[p.id].read, j, Mixed(p, prev, c, j), Emit(T, code.toks, rest))
      == DecRefine(p, T[p.id].read, eob + 1, Mixed(p, prev, c, eob + 1), rest)
  }

  /** What RefineFrom does at a coefficient that is or becomes nonzero. */
  lemma AtNonzero(p: Band, c: Block, j: nat, k: nat, eob: nat)
    requires j <= k <= p.Se <= 63 && k <= eob && Mag(c[k], p.Al) > 0
    ensures var z, r, br := ZrlsDue(p, c, j, k), Zeros(p, c, j, k), Corrections(p, c, j, k);
            var r1, br1 := if r > 15 then r % 16 else r, if r > 15 then [] else br;
            RefineFrom(p, c, k, r, br, eob) ==
            if Mag(c[k], p.Al) > 1 then
              Prepend(z, RefineFrom(p, c, k + 1, r1, br1 + [Mag(c[k], p.Al) % 2 == 1], eob))
            else
              Prepend(z, Prepend(NewTokens(p, c[k], r1, br1), RefineFrom(p, c, k + 1, 0, [], eob)))
  {
    hide Mag, Zeros, Corrections, Zrls, CorrectionTokens;
    var z, r, br := ZrlsDue(p, c, j, k), Zeros(p, c, j, k), Corrections(p, c, j, k);
    var r1, br1 := if r > 15 then r % 16 else r, if r > 15 then [] else br;
    var more := RefineFrom(p, c, k + 1, 0, [], eob).toks;
    SeqAssoc(z, NewTokens(p, c[k], r1, br1), more);
    SeqAssoc(z, [Sym(p.id, r1 * 16 + 1), Raw(if c[k] < 0 then 0 else 1, 1)], CorrectionTokens(br1));
  }

  lemma ResumesBack(p: Band, T: Tables, prev: Block, c: Block, j: nat, i: nat, eob: nat,
                    toks: seq<Token>, code: BlockCode, rest: seq<bool>)
    requires RefineScan(p, T, prev, c) && eob <= p.Se && Covers(T, toks + code.toks) && Covers(T, code.toks)
    requires ResumesRefine(p, T, prev, c, i, eob, code, rest)
    requires Covers(T, toks)
    requires DecRefine(p, T[p.id].read, j, Mixed(p, prev, c, j), Emit(T, toks, Emit(T, code.toks, rest)))
          == DecRefine(p, T[p.id].read, i, Mixed(p, prev, c, i), Emit(T, code.toks, rest))
    ensures ResumesRefine(p, T, prev, c, j, eob, Prepend(toks, code), rest)
  {
    hide Mag, Zeros, Corrections, DecRefine, Mixed, Emit;
    EmitConcat(T, toks, code.toks, rest);
  }

  lemma {:induction false} RefineInverts(p: Band, T: Tables, prev: Block, c: Block, j: nat, q: nat, k: nat, eob: nat,
                                         rest: seq<bool>)
    requires RefineScan(p, T, prev, c) && AtRun(p, c, j, q, k) && k <= eob && IsLastNew(p, c, eob)
    requires Covers(T, RefineFrom(p, c, k, Zeros(p, c, j, k), Corrections(p, c, j, k), eob).toks)
    ensures ResumesRefine(p, T, prev, c, j, eob,
                          RefineFrom(p, c, k, Zeros(p, c, j, k), Corrections(p, c, j, k), eob), rest)
    decreases p.Se + 1 - k
  {
    hide Mag, Zeros, Corrections, DecRefine, Mixed, Emit, ZrlTokens;
    if Mag(c[k], p.Al) == 0 {
      Snoc(p, c, j, k);
      assert Corrections(p, c, j, k) + [] == Corrections(p, c, j, k);
      RefineInverts(p, T, prev, c, j, q, k + 1, eob, rest);
    } else {
      NonzeroInverts(p, T, prev, c, j, q, k, eob, rest);
    }
  }

  lemma {:induction false} NonzeroInverts(p: Band, T: Tables, prev: Block, c: Block, j: nat, q: nat, k: nat, eob: nat,
                                          rest: seq<bool>)
    requires RefineScan(p, T, prev, c) && AtRun(p, c, j, q, k) && k <= eob && IsLastNew(p, c, eob)
    requires Covers(T, RefineFrom(p, c, k, Zeros(p, c, j, k), Corrections(p, c, j, k), eob).toks)
    requires Mag(c[k], p.Al) > 0
    ensures ResumesRefine(p, T, prev, c, j, eob,
                          RefineFrom(p, c, k, Zeros(p, c, j, k), Corrections(p, c, j, k), eob), rest)
    decreases p.Se + 1 - k, 0
  {
    hide Mag, Zeros, Corrections, DecRefine, Mixed, Emit, ZrlTokens, RefineFrom;
    AtNonzero(p, c, j, k, eob);
    RestartIs(p, c, j, q, k);
    var z, i := ZrlsDue(p, c, j, k), Restart(p, c, j, k);
    var code := if Mag(c[k], p.Al) > 1
                then RefineFrom(p, c, k + 1, Zeros(p, c, i, k), Corrections(p, c, i, k) + [Mag(c[k], p.Al) % 2 == 1], eob)
                else Prepend(NewTokens(p, c[k], Zeros(p, c, i, k), Corrections(p, c, i, k)),
                             RefineFrom(p, c, k + 1, 0, [], eob));
    CoversConcat(T, z, code.toks);
    ZrlsDueInvert(p, T, prev, c, j, q, k, Emit(T, code.toks, rest));
    if Mag(c[k], p.Al) > 1 {
      Snoc(p, c, i, k);
      RefineInverts(p, T, prev, c, i, k + 1, k + 1, eob, rest);
    } else {
      AfterNew(p, T, prev, c, i, k, eob, rest);
    }
    ResumesBack(p, T, prev, c, j, i, eob, z, code, rest);
  }

  lemma {:induction false} AfterNew(p: Band, T: Tables, prev: Block, c: Block, i: nat, k: nat, eob: nat, rest: seq<bool>)
    requires RefineScan(p, T, prev, c) && p.Ss <= i <= k <= eob && IsLastNew(p, c, eob)
    requires Quiet(p, c, i, k) && Zeros(p, c, i, k) <= 15 && Mag(c[k], p.Al) == 1
    requires Covers(T, NewTokens(p, c[k], Zeros(p, c, i, k), Corrections(p, c, i, k))
                       + RefineFrom(p, c, k + 1, 0, [], eob).toks)
    ensures ResumesRefine(p, T, prev, c, i, eob,
                          Prepend(NewTokens(p, c[k], Zeros(p, c, i, k), Corrections(p, c, i, k)),
                                  RefineFrom(p, c, k + 1, 0, [], eob)), rest)
    decreases p.Se + 1 - k, 0, 0
  {
    hide Mag, Zeros, Corrections, DecRefine, Mixed, Emit, ZrlTokens, RefineFrom;
    var new_ := NewTokens(p, c[k], Zeros(p, c, i, k), Corrections(p, c, i, k));
    var code := RefineFrom(p, c, k + 1, 0, [], eob);
    EmitConcat(T, new_, code.toks, rest);
    NewInverts(p, T, prev, c, i, k, Emit(T, code.toks, rest));
    AllZeroCounts(p, c, k + 1, k + 1);
    if k < eob {
      RefineInverts(p, T, prev, c, k + 1, k + 1, k + 1, eob, rest);
      ResumesBack(p, T, prev, c, i, k + 1, eob, new_, code, rest);
    } else {
      QuietRest(p, c, k + 1, k + 1, eob);
      EmitNothing(T, rest);
      assert new_ + code.toks == new_;
    }
  }

  /** Coefficients that do not become nonzero are zeros or need correction bits. */
  lemma {:induction false} SomethingLeft(p: Band, c: Block, lo: nat, hi: nat)
    requires lo < hi <= 64 && Quiet(p, c, lo, hi)
    ensures Zeros(p, c, lo, hi) > 0 || Corrections(p, c, lo, hi) != []
  {
    hide Mag;
  }
}
