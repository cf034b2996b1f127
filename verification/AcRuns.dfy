/** Whole runs of blocks in an AC scan. The encoder defers end-of-bands into one
    run-length symbol, so bits of one block may be emitted many blocks later; the
    decoder counts the run down. */
module AcRuns {
  import opened Bits
  import opened Wrappers
  import opened Tokens
  import opened AcCoding
  import opened Coefficients
  import First = AcFirstScan
  import Refine = AcRefineScan

  /** MAX_CORR_BITS - DCTSIZE2 + 1: above this the correction-bit buffer might
      overflow in the next block. */
  const CORR_BITS_LIMIT: nat := 937

  const MAX_EOBRUN: nat := 0x7FFF

  /** The encoder between blocks: tokens emitted, blocks in the pending
      end-of-band run, and the correction bits that go with it. */
  datatype AcState = AcState(toks: seq<Token>, eobrun: nat, be: seq<bool>)

  /** The symbol for a run of n end-of-bands. */
  function EobTokens(id: TableId, n: nat): seq<Token>
    requires n > 0
  {
    var nbits: int := BitLen(n) - 1;
    [Sym(id, nbits * 16)] + (if nbits > 0 then [Raw(n, nbits)] else [])
  }

  /** emit_eobrun */
  function Flush(id: TableId, st: AcState): AcState {
    if st.eobrun == 0 then st
    else AcState(st.toks + (EobTokens(id, st.eobrun) + CorrectionTokens(st.be)), 0, [])
  }

  function AddCode(id: TableId, st: AcState, code: BlockCode): AcState {
    var st1 := if code.toks == [] then st else var f := Flush(id, st); f.(toks := f.toks + code.toks);
    if code.r > 0 || code.br != [] then
      var st2 := AcState(st1.toks, st1.eobrun + 1, st1.be + code.br);
      if st2.eobrun == MAX_EOBRUN || |st2.be| > CORR_BITS_LIMIT then Flush(id, st2) else st2
    else st1
  }

  /** Encoding one block. */
  function AcStep(p: Band, st: AcState, c: Block): AcState
    requires AcBand(p)
  {
    AddCode(p.id, st, AcCode(p, c))
  }

  function AcFold(p: Band, st: AcState, cs: seq<Block>): AcState
    requires AcBand(p)
    decreases cs
  {
    if cs == [] then st else AcFold(p, AcStep(p, st, cs[0]), cs[1..])
  }

  /** What is still to be emitted for cs and at the end of the segment, when n
      end-of-bands with correction bits be are pending. */
  function Future(p: Band, n: nat, be: seq<bool>, cs: seq<Block>): seq<Token>
    requires AcBand(p)
  {
    Flush(p.id, AcFold(p, AcState([], n, be), cs)).toks
  }

  /** The invariant between blocks. */
  predicate AcInv(st: AcState) {
    st.eobrun < MAX_EOBRUN && |st.be| <= CORR_BITS_LIMIT && (st.be != [] ==> st.eobrun > 0)
  }

  // ----- decoder over several blocks -----

  type BlocksRead = Option<(seq<Block>, nat, seq<bool>)>

  function Prefixed(pre: seq<Block>, r: BlocksRead): BlocksRead {
    match r
    case None => None
    case Some((bs, n, bits)) => Some((pre + bs, n, bits))
  }

  function DecAcBlocks(p: Band, read: Reader, eobrun: nat, blks: seq<Block>, bits: seq<bool>): BlocksRead
    requires p.Se <= 63
    decreases blks
  {
    if blks == [] then Some(([], eobrun, bits))
    else
      match DecAcBlock(p, read, eobrun, blks[0], bits)
      case None => None
      case Some(d) => Prefixed([d.blk], DecAcBlocks(p, read, d.eobrun, blks[1..], d.bits))
  }

  /** Continues inside a block at coefficient j, then with further blocks. */
  function DecMid(p: Band, read: Reader, j: nat, blk: Block, blks: seq<Block>, bits: seq<bool>): BlocksRead
    requires p.Se <= 63
  {
    match DecAcFrom(p, read, j, blk, bits)
    case None => None
    case Some(d) => Prefixed([d.blk], DecAcBlocks(p, read, d.eobrun, blks, d.bits))
  }

  // ----- one block, in either mode -----

  ghost predicate Codable(p: Band, T: Tables, prev: Block, c: Block) {
    if p.Ah == 0 then First.FirstScan(p, T, prev, c) && First.InRange(p, c)
    else Refine.RefineScan(p, T, prev, c)
  }

  /** The first coefficient that is left to the end-of-band. */
  function Resume(p: Band, c: Block): int
    requires AcBand(p)
  {
    if p.Ah == 0 then p.Se + 1 - AcCode(p, c).r
    else var eob := LastNew(p, c, p.Ss, 0); if eob == 0 then p.Ss else eob + 1
  }

  function Final(p: Band, prev: Block, c: Block): Block {
    Mixed(p, prev, c, p.Se + 1)
  }

  /** Something is left to the end-of-band. */
  predicate Trailing(code: BlockCode) {
    code.r > 0 || code.br != []
  }

  lemma MixedStart(p: Band, prev: Block, c: Block)
    ensures Mixed(p, prev, c, p.Ss) == prev
  {
  }

  /** The tokens of a block take the decoder to its trailing part. */
  ghost predicate Resumes(p: Band, T: Tables, prev: Block, c: Block, rest: seq<bool>)
    requires Codable(p, T, prev, c) && Covers(T, AcCode(p, c).toks)
  {
    var code, j := AcCode(p, c), Resume(p, c);
    p.Ss <= j <= p.Se + 1 && (Trailing(code) <==> j <= p.Se) && (code.toks == [] ==> j == p.Ss) &&
    DecAcFrom(p, T[p.id].read, p.Ss, prev, Emit(T, code.toks, rest))
      == DecAcFrom(p, T[p.id].read, j, Mixed(p, prev, c, j), rest)
  }

  lemma BodyInverts(p: Band, T: Tables, prev: Block, c: Block, rest: seq<bool>)
    requires Codable(p, T, prev, c) && Covers(T, AcCode(p, c).toks)
    ensures Resumes(p, T, prev, c, rest)
  {
    MixedStart(p, prev, c);
    if p.Ah == 0 {
      FirstBody(p, T, prev, c, rest);
    } else {
      RefineBody(p, T, prev, c, rest);
    }
  }

  lemma FirstBody(p: Band, T: Tables, prev: Block, c: Block, rest: seq<bool>)
    requires p.Ah == 0 && Codable(p, T, prev, c) && Covers(T, AcCode(p, c).toks) && Mixed(p, prev, c, p.Ss) == prev
    ensures Resumes(p, T, prev, c, rest)
  {
    hide DecFirst, Mixed, Mag, FirstFrom, Emit;
    First.FirstInverts(p, T, prev, c, p.Ss, p.Ss, rest);
  }

  lemma RefineBody(p: Band, T: Tables, prev: Block, c: Block, rest: seq<bool>)
    requires p.Ah != 0 && Codable(p, T, prev, c) && Covers(T, AcCode(p, c).toks) && Mixed(p, prev, c, p.Ss) == prev
    ensures Resumes(p, T, prev, c, rest)
    ensures AcCode(p, c).br == Refine.Corrections(p, c, Resume(p, c), p.Se + 1)
    ensures Refine.Quiet(p, c, Resume(p, c), p.Se + 1)
  {
    hide DecRefine, Mixed, Mag, RefineFrom, Refine.Zeros, Refine.Corrections, LastNew;
    var eob := LastNew(p, c, p.Ss, 0);
    Refine.LastNewIs(p, c, p.Ss, 0);
    Refine.AllZeroCounts(p, c, p.Ss, p.Ss);
    var j := Resume(p, c);
    if eob == 0 {
      Refine.QuietRest(p, c, p.Ss, p.Ss, 0);
      EmitNothing(T, rest);
    } else {
      Refine.RefineInverts(p, T, prev, c, p.Ss, p.Ss, p.Ss, eob, rest);
    }
    if j <= p.Se {
      Refine.SomethingLeft(p, c, j, p.Se + 1);
    } else {
      Refine.AllZeroCounts(p, c, j, j);
    }
  }

  /** The correction bits of the trailing part finish the block. */
  lemma TailFinishes(p: Band, T: Tables, prev: Block, c: Block, rest: seq<bool>)
    requires Codable(p, T, prev, c) && Covers(T, AcCode(p, c).toks)
    ensures p.Ss <= Resume(p, c)
    ensures DecTail(p, Resume(p, c), Mixed(p, prev, c, Resume(p, c)), AcCode(p, c).br + rest)
         == Some((Final(p, prev, c), rest))
  {
    hide Mixed, Mag, DecRefine, CorrectTail, RefineFrom, FirstFrom, DecFirst, LastNew, Emit;
    MixedStart(p, prev, c);
    BodyInverts(p, T, prev, c, []);
    var j := Resume(p, c);
    if p.Ah == 0 {
      First.FirstInverts(p, T, prev, c, p.Ss, p.Ss, []);
      First.MixedOverZeros(p, T, prev, c, j, p.Se + 1);
      assert AcCode(p, c).br + rest == rest;
    } else {
      RefineBody(p, T, prev, c, []);
      Refine.TailInverts(p, T, prev, c, j, rest);
    }
  }

  // ----- the encoder's future -----

  /** Only the pending state matters to what is emitted next. */
  lemma AddAppends(id: TableId, st: AcState, code: BlockCode)
    ensures var st0 := AddCode(id, st.(toks := []), code);
            AddCode(id, st, code) == st0.(toks := st.toks + st0.toks)
  {
    hide EobTokens, CorrectionTokens;
    var f, f0 := Flush(id, st), Flush(id, st.(toks := []));
    assert f == f0.(toks := st.toks + f0.toks);
    var s1 := if code.toks == [] then st else f.(toks := f.toks + code.toks);
    var s0 := if code.toks == [] then st.(toks := []) else f0.(toks := f0.toks + code.toks);
    assert s1 == s0.(toks := st.toks + s0.toks);
    SeqAssoc(st.toks, s0.toks, EobTokens(id, s1.eobrun + 1) + CorrectionTokens(s1.be + code.br));
  }

  lemma StepAppends(p: Band, st: AcState, c: Block)
    requires AcBand(p)
    ensures var st0 := AcStep(p, st.(toks := []), c);
            AcStep(p, st, c) == st0.(toks := st.toks + st0.toks)
  {
    hide AcCode, AddCode;
    AddAppends(p.id, st, AcCode(p, c));
  }

  lemma {:induction false} FoldAppends(p: Band, st: AcState, cs: seq<Block>)
    requires AcBand(p)
    ensures var st0 := AcFold(p, st.(toks := []), cs);
            AcFold(p, st, cs) == st0.(toks := st.toks + st0.toks)
    decreases cs
  {
    hide AcStep;
    if cs == [] {
      assert st.toks + [] == st.toks;
    } else {
      StepAppends(p, st, cs[0]);
      var s1, s0 := AcStep(p, st, cs[0]), AcStep(p, st.(toks := []), cs[0]);
      FoldAppends(p, s1, cs[1..]);
      FoldAppends(p, s0, cs[1..]);
      SeqAssoc(st.toks, s0.toks, AcFold(p, s1.(toks := []), cs[1..]).toks);
    }
  }

  lemma FlushAppends(id: TableId, st: AcState)
    ensures Flush(id, st).toks == st.toks + Flush(id, st.(toks := [])).toks
  {
    hide EobTokens, CorrectionTokens;
    assert st.toks + [] == st.toks;
  }

  /** What a segment ends up as, from any point on. */
  lemma FutureIs(p: Band, st: AcState, cs: seq<Block>)
    requires AcBand(p)
    ensures Flush(p.id, AcFold(p, st, cs)).toks == st.toks + Future(p, st.eobrun, st.be, cs)
  {
    hide AcFold, Flush;
    FoldAppends(p, st, cs);
    var f, f0 := AcFold(p, st, cs), AcFold(p, st.(toks := []), cs);
    FlushAppends(p.id, f);
    FlushAppends(p.id, f0);
    SeqAssoc(st.toks, f0.toks, Flush(p.id, f.(toks := [])).toks);
  }

  /** The first block's own tokens come first in the future. */
  lemma FutureStep(p: Band, n: nat, be: seq<bool>, cs: seq<Block>)
    requires AcBand(p) && cs != []
    ensures var st := AcStep(p, AcState([], n, be), cs[0]);
            Future(p, n, be, cs) == st.toks + Future(p, st.eobrun, st.be, cs[1..])
  {
    hide AcStep, Flush;
    FutureIs(p, AcStep(p, AcState([], n, be), cs[0]), cs[1..]);
  }

  // ----- end-of-band runs -----

  lemma BitLenSplit(n: nat)
    requires 0 < n <= MAX_EOBRUN
    ensures var nbits := BitLen(n) - 1;
            0 <= nbits <= 14 && Pow2(nbits) + FromBits(ToBits(n, nbits)) == n
  {
    BitLenBounds(n);
    var nbits := BitLen(n) - 1;
    assert Pow2(15) == 0x8000;
    BitLenLimit(n, 15);
    FromToBits(n, nbits);
    assert Pow2(nbits + 1) == 2 * Pow2(nbits);
    ModTop(n, Pow2(nbits));
  }

  lemma ModTop(n: nat, d: nat)
    requires 0 < d <= n < 2 * d
    ensures n % d == n - d
  {
    DivBounds(n, d, 1);
  }

  function AfterEob(n: nat, r: Option<(Block, seq<bool>)>): Option<Decoded>
    requires n > 0
  {
    match r
    case None => None
    case Some((blk, bits)) => Some(Decoded(blk, n - 1, bits))
  }

  lemma DecodeEob(p: Band, read: Reader, j: nat, blk: Block, r: nat, x: nat,
                  bits: seq<bool>, bits1: seq<bool>, rest: seq<bool>)
    requires j <= p.Se <= 63 && r <= 14
    requires read(bits) == Some((r * 16, bits1)) && GetBits(r, bits1) == Some((x, rest))
    ensures DecAcFrom(p, read, j, blk, bits) == AfterEob(Pow2(r) + x, DecTail(p, j, blk, rest))
  {
    hide CorrectTail, GetBits, Pow2;
    if p.Ah == 0 { hide DecRefine; } else { hide DecFirst; }
  }

  /** Reading the end-of-band symbol of a run of n. */
  lemma ReadEob(p: Band, T: Tables, j: nat, blk: Block, n: nat, toks: seq<Token>, rest: seq<bool>)
    requires j <= p.Se <= 63 && p.id in T && Sound(T[p.id]) && 0 < n <= MAX_EOBRUN
    requires Covers(T, EobTokens(p.id, n) + toks)
    ensures Covers(T, toks)
    ensures DecAcFrom(p, T[p.id].read, j, blk, Emit(T, EobTokens(p.id, n) + toks, rest))
         == AfterEob(n, DecTail(p, j, blk, Emit(T, toks, rest)))
  {
    hide DecAcFrom, DecTail, BitLen, ToBits, FromBits, Pow2, AfterEob;
    var nbits := BitLen(n) - 1;
    BitLenSplit(n);
    var all := EobTokens(p.id, n) + toks;
    CoversConcat(T, EobTokens(p.id, n), toks);
    if nbits > 0 {
      var raw := [Raw(n, nbits)];
      SeqAssoc([Sym(p.id, nbits * 16)], raw, toks);
      ReadSymbol(T, p.id, nbits * 16, raw + toks, rest);
      ReadRaw(T, n, nbits, toks, rest);
      DecodeEob(p, T[p.id].read, j, blk, nbits, FromBits(ToBits(n, nbits)), Emit(T, all, rest),
                Emit(T, raw + toks, rest), Emit(T, toks, rest));
    } else {
      assert EobTokens(p.id, n) == [Sym(p.id, 0)];
      ReadSymbol(T, p.id, 0, toks, rest);
      NoBits(Emit(T, toks, rest), n);
      DecodeEob(p, T[p.id].read, j, blk, 0, 0, Emit(T, all, rest), Emit(T, toks, rest), Emit(T, toks, rest));
    }
  }

  lemma NoBits(bits: seq<bool>, n: nat)
    ensures GetBits(0, bits) == Some((0, bits)) && FromBits(ToBits(n, 0)) == 0
  {
    assert bits[0..] == bits;
  }

  /** The correction bits of a run of blocks. */
  function Tails(p: Band, cs: seq<Block>): seq<bool>
    requires AcBand(p)
  {
    if cs == [] then [] else AcCode(p, cs[0]).br + Tails(p, cs[1..])
  }

  lemma {:induction false} TailsSnoc(p: Band, cs: seq<Block>, c: Block)
    requires AcBand(p)
    ensures Tails(p, cs + [c]) == Tails(p, cs) + AcCode(p, c).br
    decreases cs
  {
    hide AcCode;
    if cs == [] {
      assert [c][1..] == [];
    } else {
      assert (cs + [c])[1..] == cs[1..] + [c];
      TailsSnoc(p, cs[1..], c);
    }
  }

  ghost predicate AllCodable(p: Band, T: Tables, prevs: seq<Block>, cs: seq<Block>) {
    AcBand(p) && p.id in T && |prevs| == |cs| && forall i :: 0 <= i < |cs| ==> Codable(p, T, prevs[i], cs[i])
  }

  /** No block emits anything before its end-of-band. */
  ghost predicate Empty(p: Band, cs: seq<Block>)
    requires AcBand(p)
  {
    forall i :: 0 <= i < |cs| ==> AcCode(p, cs[i]).toks == []
  }

  function Finals(p: Band, prevs: seq<Block>, cs: seq<Block>): seq<Block>
    requires |prevs| == |cs|
  {
    seq(|cs|, i requires 0 <= i < |cs| => Final(p, prevs[i], cs[i]))
  }

  lemma FinalsSplit(p: Band, prevs: seq<Block>, cs: seq<Block>)
    requires |prevs| == |cs| > 0
    ensures Finals(p, prevs, cs) == [Final(p, prevs[0], cs[0])] + Finals(p, prevs[1..], cs[1..])
  {
    hide Final;
  }

  lemma PrefixedTwice(a: seq<Block>, b: seq<Block>, r: BlocksRead)
    ensures Prefixed(a, Prefixed(b, r)) == Prefixed(a + b, r)
  {
    match r
    case None =>
    case Some((bs, _, _)) => SeqAssoc(a, b, bs);
  }

  lemma PrefixedNothing(r: BlocksRead)
    ensures Prefixed([], r) == r
  {
    match r
    case None =>
    case Some((bs, _, _)) => assert [] + bs == bs;
  }

  /** Inside a run, every block takes its own correction bits. */
  lemma {:induction false} RunTail(p: Band, T: Tables, prevs: seq<Block>, cs: seq<Block>, more: seq<Block>, rest: seq<bool>)
    requires AllCodable(p, T, prevs, cs) && Empty(p, cs)
    ensures DecAcBlocks(p, T[p.id].read, |cs|, prevs + more, Tails(p, cs) + rest)
         == Prefixed(Finals(p, prevs, cs), DecAcBlocks(p, T[p.id].read, 0, more, rest))
    decreases cs
  {
    hide Final, AcCode, DecTail, DecAcFrom, Codable;
    var read := T[p.id].read;
    if cs == [] {
      assert prevs + more == more && Tails(p, cs) + rest == rest;
      assert Finals(p, prevs, cs) == [];
      PrefixedNothing(DecAcBlocks(p, read, 0, more, rest));
    } else {
      var tail := Tails(p, cs[1..]) + rest;
      InRun(p, T, prevs[0], cs[0], |cs|, tail);
      SeqAssoc(AcCode(p, cs[0]).br, Tails(p, cs[1..]), rest);
      assert (prevs + more)[1..] == prevs[1..] + more;
      RunTail(p, T, prevs[1..], cs[1..], more, rest);
      FinalsSplit(p, prevs, cs);
      PrefixedTwice([Final(p, prevs[0], cs[0])], Finals(p, prevs[1..], cs[1..]), DecAcBlocks(p, read, 0, more, rest));
    }
  }

  /** A block decoded inside a run of n. */
  lemma InRun(p: Band, T: Tables, prev: Block, c: Block, n: nat, rest: seq<bool>)
    requires AcBand(p) && Codable(p, T, prev, c) && AcCode(p, c).toks == [] && n > 0
    ensures DecAcBlock(p, T[p.id].read, n, prev, AcCode(p, c).br + rest) == Some(Decoded(Final(p, prev, c), n - 1, rest))
  {
    hide Final, AcCode, DecTail, DecAcFrom, Mixed, Resume;
    BodyInverts(p, T, prev, c, []);
    MixedStart(p, prev, c);
    TailFinishes(p, T, prev, c, rest);
  }

  /** A pending run that is flushed: its first block resumes at its end-of-band,
      the others are in the run from their start. */
  lemma FlushInverts(p: Band, T: Tables, prevs: seq<Block>, cs: seq<Block>, more: seq<Block>, toks: seq<Token>, rest: seq<bool>)
    requires AllCodable(p, T, prevs, cs) && cs != [] && |cs| <= MAX_EOBRUN && Empty(p, cs[1..])
    requires Covers(T, AcCode(p, cs[0]).toks) && Trailing(AcCode(p, cs[0]))
    requires Covers(T, EobTokens(p.id, |cs|) + CorrectionTokens(Tails(p, cs)) + toks)
    ensures Covers(T, toks)
    ensures 0 <= Resume(p, cs[0])
    ensures DecMid(p, T[p.id].read, Resume(p, cs[0]), Mixed(p, prevs[0], cs[0], Resume(p, cs[0])), prevs[1..] + more,
                   Emit(T, EobTokens(p.id, |cs|) + CorrectionTokens(Tails(p, cs)) + toks, rest))
         == Prefixed(Finals(p, prevs, cs), DecAcBlocks(p, T[p.id].read, 0, more, Emit(T, toks, rest)))
  {
    hide Final, AcCode, DecTail, DecAcFrom, Mixed, Resume, Finals, EobTokens, CorrectionTokens, DecAcBlocks;
    var read := T[p.id].read;
    var br := Tails(p, cs);
    EmitConcat(T, EobTokens(p.id, |cs|) + CorrectionTokens(br), toks, rest);
    var tail := Emit(T, toks, rest);
    BodyInverts(p, T, prevs[0], cs[0], []);
    var j := Resume(p, cs[0]);
    ReadEob(p, T, j, Mixed(p, prevs[0], cs[0], j), |cs|, CorrectionTokens(br), tail);
    Refine.EmitCorrections(T, br, tail);
    SeqAssoc(AcCode(p, cs[0]).br, Tails(p, cs[1..]), tail);
    TailFinishes(p, T, prevs[0], cs[0], Tails(p, cs[1..]) + tail);
    RunTail(p, T, prevs[1..], cs[1..], more, tail);
    FinalsSplit(p, prevs, cs);
    PrefixedTwice([Final(p, prevs[0], cs[0])], Finals(p, prevs[1..], cs[1..]), DecAcBlocks(p, read, 0, more, tail));
  }

  // ----- a whole segment -----

  /** The tokens of a pending run. */
  function FlushTokens(id: TableId, n: nat, be: seq<bool>): seq<Token> {
    if n == 0 then [] else EobTokens(id, n) + CorrectionTokens(be)
  }

  /** The future once a block's end-of-band has been counted: the run is forced
      out if a counter or the bit buffer is about to overflow. */
  function Settled(p: Band, n: nat, be: seq<bool>, cs: seq<Block>): seq<Token>
    requires AcBand(p) && n > 0
  {
    if n == MAX_EOBRUN || |be| > CORR_BITS_LIMIT then FlushTokens(p.id, n, be) + Future(p, 0, [], cs)
    else Future(p, n, be, cs)
  }

  lemma FutureCases(p: Band, n: nat, be: seq<bool>, cs: seq<Block>)
    requires AcBand(p) && cs != [] && (n == 0 ==> be == [])
    ensures var code, more := AcCode(p, cs[0]), cs[1..];
            Future(p, n, be, cs) ==
            if code.toks == [] && Trailing(code) then Settled(p, n + 1, be + code.br, more)
            else if code.toks == [] then Future(p, n, be, more)
            else if Trailing(code) then FlushTokens(p.id, n, be) + (code.toks + Settled(p, 1, code.br, more))
            else FlushTokens(p.id, n, be) + (code.toks + Future(p, 0, [], more))
  {
    hide AcCode, Future, EobTokens, CorrectionTokens, AcStep, Settled, FlushTokens;
    var code, more := AcCode(p, cs[0]), cs[1..];
    FutureStep(p, n, be, cs);
    StepCases(p, n, be, cs[0]);
    var fl := FlushTokens(p.id, n, be);
    if code.toks == [] {
      SettledIs(p, n + 1, be + code.br, more);
      NoTokens(p, n, be, more);
    } else if Trailing(code) {
      SettledIs(p, 1, code.br, more);
      var s1 := SettledState(p.id, 1, code.br);
      var rest := Future(p, s1.eobrun, s1.be, more);
      SeqAssoc(fl + code.toks, s1.toks, rest);
      SeqAssoc(fl, code.toks, s1.toks + rest);
    } else {
      SeqAssoc(fl, code.toks, Future(p, 0, [], more));
    }
  }

  /** The state after counting an end-of-band. */
  function SettledState(id: TableId, n: nat, be: seq<bool>): AcState {
    if n == MAX_EOBRUN || |be| > CORR_BITS_LIMIT then AcState(FlushTokens(id, n, be), 0, []) else AcState([], n, be)
  }

  lemma SettledIs(p: Band, n: nat, be: seq<bool>, cs: seq<Block>)
    requires AcBand(p) && n > 0
    ensures var s := SettledState(p.id, n, be);
            Settled(p, n, be, cs) == s.toks + Future(p, s.eobrun, s.be, cs)
  {
    hide Future, FlushTokens;
    NoTokens(p, n, be, cs);
  }

  lemma StepCases(p: Band, n: nat, be: seq<bool>, c: Block)
    requires AcBand(p) && (n == 0 ==> be == [])
    ensures var code, fl := AcCode(p, c), FlushTokens(p.id, n, be);
            AcStep(p, AcState([], n, be), c) ==
            if code.toks == [] && Trailing(code) then SettledState(p.id, n + 1, be + code.br)
            else if code.toks == [] then AcState([], n, be)
            else if Trailing(code) then
              var s := SettledState(p.id, 1, code.br);
              s.(toks := fl + code.toks + s.toks)
            else AcState(fl + code.toks, 0, [])
  {
    hide AcCode, EobTokens, CorrectionTokens;
    var code, fl := AcCode(p, c), FlushTokens(p.id, n, be);
    assert [] + fl == fl && [] + code.br == code.br;
    var f1 := FlushTokens(p.id, n + 1, be + code.br);
    assert [] + f1 == f1;
    assert fl + code.toks + [] == fl + code.toks;
  }

  lemma NoTokens(p: Band, n: nat, be: seq<bool>, cs: seq<Block>)
    requires AcBand(p)
    ensures [] + Future(p, n, be, cs) == Future(p, n, be, cs)
  {
    hide Future;
  }

  // The decoder's side. The blocks prevs1/cs1 are pending: their end-of-bands
  // have been counted but not emitted.

  /** The decoder before cs, if it is at the start of the pending run. */
  function Ahead(p: Band, read: Reader, prevs1: seq<Block>, cs1: seq<Block>, prevs: seq<Block>, bits: seq<bool>): BlocksRead
    requires AcBand(p) && |prevs1| == |cs1| && (cs1 != [] ==> 0 <= Resume(p, cs1[0]))
  {
    if cs1 == [] then DecAcBlocks(p, read, 0, prevs, bits)
    else DecMid(p, read, Resume(p, cs1[0]), Mixed(p, prevs1[0], cs1[0], Resume(p, cs1[0])), prevs1[1..] + prevs, bits)
  }

  ghost predicate Pending(p: Band, T: Tables, prevs1: seq<Block>, cs1: seq<Block>) {
    AllCodable(p, T, prevs1, cs1) &&
    (cs1 != [] ==> Covers(T, AcCode(p, cs1[0]).toks) && Trailing(AcCode(p, cs1[0])) &&
                   Empty(p, cs1[1..]) && 0 <= Resume(p, cs1[0]))
  }

  /** Everything pending and everything in cs comes out, and rest is left. */
  function Done(p: Band, prevs1: seq<Block>, cs1: seq<Block>, prevs: seq<Block>, cs: seq<Block>, rest: seq<bool>): BlocksRead
    requires |prevs1| == |cs1| && |prevs| == |cs|
  {
    Some((Finals(p, prevs1, cs1) + Finals(p, prevs, cs), 0, rest))
  }

  lemma DoneMoves(p: Band, prevs1: seq<Block>, cs1: seq<Block>, prevs: seq<Block>, cs: seq<Block>, rest: seq<bool>)
    requires |prevs1| == |cs1| && |prevs| == |cs| > 0
    ensures Done(p, prevs1 + [prevs[0]], cs1 + [cs[0]], prevs[1..], cs[1..], rest) == Done(p, prevs1, cs1, prevs, cs, rest)
    ensures Prefixed(Finals(p, prevs1, cs1), Done(p, [], [], prevs, cs, rest)) == Done(p, prevs1, cs1, prevs, cs, rest)
  {
    hide Final;
    var a, b := Finals(p, prevs1, cs1), Finals(p, prevs, cs);
    assert Finals(p, prevs1 + [prevs[0]], cs1 + [cs[0]]) + Finals(p, prevs[1..], cs[1..]) == a + b;
    assert Finals(p, [], []) + b == b;
  }

  lemma PendingFlushes(p: Band, T: Tables, prevs1: seq<Block>, cs1: seq<Block>, prevs: seq<Block>,
                       toks: seq<Token>, rest: seq<bool>)
    requires Pending(p, T, prevs1, cs1) && |cs1| <= MAX_EOBRUN
    requires Covers(T, FlushTokens(p.id, |cs1|, Tails(p, cs1)) + toks)
    ensures Covers(T, toks)
    ensures Ahead(p, T[p.id].read, prevs1, cs1, prevs,
                  Emit(T, FlushTokens(p.id, |cs1|, Tails(p, cs1)) + toks, rest))
         == Prefixed(Finals(p, prevs1, cs1), DecAcBlocks(p, T[p.id].read, 0, prevs, Emit(T, toks, rest)))
  {
    hide Final, AcCode, DecMid, Mixed, EobTokens, CorrectionTokens, DecAcBlocks, Resume, Tails;
    if cs1 == [] {
      assert [] + toks == toks;
      assert Finals(p, prevs1, cs1) == [];
      PrefixedNothing(DecAcBlocks(p, T[p.id].read, 0, prevs, Emit(T, toks, rest)));
    } else {
      FlushInverts(p, T, prevs1, cs1, prevs, toks, rest);
    }
  }

  /** Starting a block is the same as continuing it from its first coefficient. */
  lemma StartBlock(p: Band, T: Tables, prev: Block, c: Block, prevs: seq<Block>, bits: seq<bool>)
    requires AcBand(p) && Codable(p, T, prev, c) && p.id in T && 0 <= Resume(p, c)
    ensures DecAcBlocks(p, T[p.id].read, 0, [prev] + prevs, bits) == DecMid(p, T[p.id].read, p.Ss, prev, prevs, bits)
    ensures Resume(p, c) == p.Ss ==>
      DecAcBlocks(p, T[p.id].read, 0, [prev] + prevs, bits) == Ahead(p, T[p.id].read, [prev], [c], prevs, bits)
  {
    hide AcCode, DecAcFrom, Resume;
    MixedStart(p, prev, c);
    assert ([prev] + prevs)[1..] == prevs;
    assert [prev][1..] + prevs == prevs;
  }

  /** The tokens of a block that starts outside a run. */
  lemma BlockAhead(p: Band, T: Tables, prev: Block, c: Block, prevs: seq<Block>, toks: seq<Token>, rest: seq<bool>)
    requires AcBand(p) && p.id in T && Codable(p, T, prev, c) && Covers(T, AcCode(p, c).toks + toks)
    ensures Covers(T, AcCode(p, c).toks) && Covers(T, toks) && 0 <= Resume(p, c)
    ensures DecAcBlocks(p, T[p.id].read, 0, [prev] + prevs, Emit(T, AcCode(p, c).toks + toks, rest))
         == if Trailing(AcCode(p, c)) then Ahead(p, T[p.id].read, [prev], [c], prevs, Emit(T, toks, rest))
            else Prefixed([Final(p, prev, c)], DecAcBlocks(p, T[p.id].read, 0, prevs, Emit(T, toks, rest)))
  {
    hide AcCode, DecAcFrom, Resume, DecAcBlocks, Mixed;
    EmitConcat(T, AcCode(p, c).toks, toks, rest);
    var tail := Emit(T, toks, rest);
    BodyInverts(p, T, prev, c, tail);
    StartBlock(p, T, prev, c, prevs, Emit(T, AcCode(p, c).toks, tail));
    var j := Resume(p, c);
    if j > p.Se {
      BandOver(p, T[p.id].read, Final(p, prev, c), tail);
    }
    assert [prev][1..] + prevs == prevs;
  }

  lemma BandOver(p: Band, read: Reader, blk: Block, bits: seq<bool>)
    requires AcBand(p)
    ensures DecAcFrom(p, read, p.Se + 1, blk, bits) == Some(Decoded(blk, 0, bits))
  {
  }

  /** From any point of a segment on, with any pending run, the decoder
      reconstructs all pending and all further blocks. */
  lemma {:induction false} SegmentInverts(p: Band, T: Tables, prevs1: seq<Block>, cs1: seq<Block>,
                                          prevs: seq<Block>, cs: seq<Block>, rest: seq<bool>)
    requires Pending(p, T, prevs1, cs1) && AllCodable(p, T, prevs, cs)
    requires |cs1| < MAX_EOBRUN && Covers(T, Future(p, |cs1|, Tails(p, cs1), cs))
    ensures Ahead(p, T[p.id].read, prevs1, cs1, prevs, Emit(T, Future(p, |cs1|, Tails(p, cs1), cs), rest))
         == Done(p, prevs1, cs1, prevs, cs, rest)
    decreases |cs|, 0
  {
    hide Final, AcCode, DecMid, Mixed, EobTokens, CorrectionTokens, DecAcBlocks, Resume, Finals, Tails, Settled, Codable, Ahead;
    var n, be := |cs1|, Tails(p, cs1);
    if cs == [] {
      SegmentEnds(p, T, prevs1, cs1, rest);
    } else {
      hide Future, FlushTokens;
      var code := AcCode(p, cs[0]);
      NoTails(p);
      FutureCases(p, n, be, cs);
      if code.toks == [] {
        EmptyBody(p, T, prevs[0], cs[0]);
        TailsSnoc(p, cs1, cs[0]);
        PendingGrows(p, T, prevs1, cs1, prevs, cs[0], Emit(T, Settled(p, n + 1, be + code.br, cs[1..]), rest));
        SettledInverts(p, T, prevs1 + [prevs[0]], cs1 + [cs[0]], prevs[1..], cs[1..], rest);
        DoneMoves(p, prevs1, cs1, prevs, cs, rest);
      } else {
        PendingFlushes(p, T, prevs1, cs1, prevs, code.toks + AfterBlock(p, cs), rest);
        BlockInverts(p, T, prevs, cs, rest);
        DoneMoves(p, prevs1, cs1, prevs, cs, rest);
      }
    }
  }

  lemma NoTails(p: Band)
    requires AcBand(p)
    ensures Tails(p, []) == []
  {
  }

  lemma EmptyBody(p: Band, T: Tables, prev: Block, c: Block)
    requires AcBand(p) && Codable(p, T, prev, c) && AcCode(p, c).toks == []
    ensures Trailing(AcCode(p, c)) && Resume(p, c) == p.Ss
  {
    hide AcCode, Resume, DecAcFrom;
    BodyInverts(p, T, prev, c, []);
  }

  lemma PendingGrows(p: Band, T: Tables, prevs1: seq<Block>, cs1: seq<Block>, prevs: seq<Block>, c: Block, bits: seq<bool>)
    requires Pending(p, T, prevs1, cs1) && prevs != [] && Codable(p, T, prevs[0], c)
    requires AcCode(p, c).toks == [] && Trailing(AcCode(p, c)) && Resume(p, c) == p.Ss
    ensures Pending(p, T, prevs1 + [prevs[0]], cs1 + [c])
    ensures Ahead(p, T[p.id].read, prevs1 + [prevs[0]], cs1 + [c], prevs[1..], bits)
         == Ahead(p, T[p.id].read, prevs1, cs1, prevs, bits)
  {
    hide AcCode, DecMid, Mixed, Resume, Codable, DecAcBlocks;
    var q, d := prevs1 + [prevs[0]], cs1 + [c];
    assert prevs == [prevs[0]] + prevs[1..];
    if cs1 == [] {
      StartBlock(p, T, prevs[0], c, prevs[1..], bits);
      assert q == [prevs[0]] && d == [c];
    } else {
      assert d[1..] == cs1[1..] + [c];
      assert q[1..] + prevs[1..] == prevs1[1..] + prevs;
    }
  }

  lemma SegmentEnds(p: Band, T: Tables, prevs1: seq<Block>, cs1: seq<Block>, rest: seq<bool>)
    requires Pending(p, T, prevs1, cs1) && |cs1| < MAX_EOBRUN && Covers(T, Future(p, |cs1|, Tails(p, cs1), []))
    ensures Ahead(p, T[p.id].read, prevs1, cs1, [], Emit(T, Future(p, |cs1|, Tails(p, cs1), []), rest))
         == Done(p, prevs1, cs1, [], [], rest)
  {
    hide Final, AcCode, DecMid, Mixed, EobTokens, CorrectionTokens, Resume, Tails, Codable, Ahead;
    var fl := FlushTokens(p.id, |cs1|, Tails(p, cs1));
    assert Future(p, |cs1|, Tails(p, cs1), []) == fl;
    assert fl + [] == fl;
    PendingFlushes(p, T, prevs1, cs1, [], [], rest);
    assert Finals(p, [], []) == [];
    assert DecAcBlocks(p, T[p.id].read, 0, [], rest) == Some(([], 0, rest));
  }

  /** What follows the tokens of the first block. */
  function AfterBlock(p: Band, cs: seq<Block>): seq<Token>
    requires AcBand(p) && cs != []
  {
    if Trailing(AcCode(p, cs[0])) then Settled(p, 1, AcCode(p, cs[0]).br, cs[1..]) else Future(p, 0, [], cs[1..])
  }

  /** A block that emits something starts afresh, outside any run. */
  lemma {:induction false} BlockInverts(p: Band, T: Tables, prevs: seq<Block>, cs: seq<Block>, rest: seq<bool>)
    requires AllCodable(p, T, prevs, cs) && cs != []
    requires Covers(T, AcCode(p, cs[0]).toks + AfterBlock(p, cs))
    ensures DecAcBlocks(p, T[p.id].read, 0, prevs, Emit(T, AcCode(p, cs[0]).toks + AfterBlock(p, cs), rest))
         == Done(p, [], [], prevs, cs, rest)
    decreases |cs| - 1, 2
  {
    hide Final, AcCode, DecMid, Mixed, EobTokens, CorrectionTokens, DecAcBlocks, Resume, Finals, Tails, Settled, Codable, Future;
    var code := AcCode(p, cs[0]);
    var more := AfterBlock(p, cs);
    assert prevs == [prevs[0]] + prevs[1..];
    BlockAhead(p, T, prevs[0], cs[0], prevs[1..], more, rest);
    var q, d := [prevs[0]], [cs[0]];
    assert d[1..] == [];
    DoneMoves(p, [], [], prevs, cs, rest);
    assert [] + q == q && [] + d == d;
    NoTails(p);
    if Trailing(code) {
      TailsSnoc(p, [], cs[0]);
      assert [] + code.br == code.br;
      SettledInverts(p, T, q, d, prevs[1..], cs[1..], rest);
    } else {
      SegmentInverts(p, T, [], [], prevs[1..], cs[1..], rest);
      OneFinal(p, prevs[0], cs[0]);
      DoneMoves1(p, prevs, cs, rest);
    }
  }

  lemma OneFinal(p: Band, prev: Block, c: Block)
    ensures Finals(p, [prev], [c]) == [Final(p, prev, c)]
  {
    hide Final;
  }

  lemma DoneMoves1(p: Band, prevs: seq<Block>, cs: seq<Block>, rest: seq<bool>)
    requires |prevs| == |cs| > 0
    ensures Prefixed([Final(p, prevs[0], cs[0])], Done(p, [], [], prevs[1..], cs[1..], rest)) == Done(p, [], [], prevs, cs, rest)
  {
    hide Final;
    var b := Finals(p, prevs[1..], cs[1..]);
    assert Finals(p, [], []) + b == b;
    FinalsSplit(p, prevs, cs);
    assert Finals(p, [], []) + Finals(p, prevs, cs) == Finals(p, prevs, cs);
  }

  lemma {:induction false} SettledInverts(p: Band, T: Tables, prevs1: seq<Block>, cs1: seq<Block>,
                                          prevs: seq<Block>, cs: seq<Block>, rest: seq<bool>)
    requires Pending(p, T, prevs1, cs1) && AllCodable(p, T, prevs, cs)
    requires 0 < |cs1| <= MAX_EOBRUN && Covers(T, Settled(p, |cs1|, Tails(p, cs1), cs))
    ensures Ahead(p, T[p.id].read, prevs1, cs1, prevs, Emit(T, Settled(p, |cs1|, Tails(p, cs1), cs), rest))
         == Done(p, prevs1, cs1, prevs, cs, rest)
    decreases |cs|, 1
  {
    hide Final, AcCode, DecMid, Mixed, EobTokens, CorrectionTokens, DecAcBlocks, Resume, Finals, Tails, Codable, Future, FlushTokens, Ahead;
    var n, be := |cs1|, Tails(p, cs1);
    if n == MAX_EOBRUN || |be| > CORR_BITS_LIMIT {
      PendingFlushes(p, T, prevs1, cs1, prevs, Future(p, 0, [], cs), rest);
      NoTails(p);
      SegmentInverts(p, T, [], [], prevs, cs, rest);
      AheadNothing(p, T[p.id].read, prevs, Emit(T, Future(p, 0, [], cs), rest));
      DonePrefix(p, prevs1, cs1, prevs, cs, rest);
    } else {
      SegmentInverts(p, T, prevs1, cs1, prevs, cs, rest);
    }
  }

  lemma AheadNothing(p: Band, read: Reader, prevs: seq<Block>, bits: seq<bool>)
    requires AcBand(p)
    ensures Ahead(p, read, [], [], prevs, bits) == DecAcBlocks(p, read, 0, prevs, bits)
  {
  }

  lemma DonePrefix(p: Band, prevs1: seq<Block>, cs1: seq<Block>, prevs: seq<Block>, cs: seq<Block>, rest: seq<bool>)
    requires |prevs1| == |cs1| && |prevs| == |cs|
    ensures Prefixed(Finals(p, prevs1, cs1), Done(p, [], [], prevs, cs, rest)) == Done(p, prevs1, cs1, prevs, cs, rest)
  {
    hide Final;
    var b := Finals(p, prevs, cs);
    assert Finals(p, [], []) + b == b;
  }

  /** A segment of an AC scan: decoding inverts encoding, whatever follows. */
  lemma AcSegment(p: Band, T: Tables, prevs: seq<Block>, cs: seq<Block>, rest: seq<bool>)
    requires AllCodable(p, T, prevs, cs) && Covers(T, Flush(p.id, AcFold(p, AcState([], 0, []), cs)).toks)
    ensures DecAcBlocks(p, T[p.id].read, 0, prevs, Emit(T, Flush(p.id, AcFold(p, AcState([], 0, []), cs)).toks, rest))
         == Some((Finals(p, prevs, cs), 0, rest))
  {
    hide Final, AcCode, DecAcBlocks, Codable;
    NoTails(p);
    SegmentInverts(p, T, [], [], prevs, cs, rest);
    AheadNothing(p, T[p.id].read, prevs, Emit(T, Future(p, 0, [], cs), rest));
    assert Finals(p, [], []) + Finals(p, prevs, cs) == Finals(p, prevs, cs);
  }
}
