/** Decoding a segment of a progressive scan undoes encoding it, in every mode. */
module ScanRoundTrip {
  import opened Bits
  import opened Wrappers
  import opened Tokens
  import opened AcCoding
  import opened Coefficients
  import opened DcCoding
  import opened AcRuns
  import opened EobRuns
  import opened ScanCoding
  import First = AcFirstScan

  /** A DC value after the scan. A refinement bit is merged into whatever value is
      there, so a block that missed earlier scans does no harm to others. */
  function DcAfter(s: Scan, prev: int, x: int): int {
    if s.Ah == 0 then DcTrunc(x, s.Al)
    else ToShort(if Shr(x, s.Al) % 2 == 1 then SetBit(prev, s.Al) else prev)
  }

  /** A block after the scan, from the block before it and the image's block. */
  function BlockAfter(s: Scan, prev: Block, c: Block): Block
    requires ScanOk(s)
  {
    if s.Ss > 0 then Final(BandOf(s), prev, c) else prev[0 := DcAfter(s, prev[0], c[0])]
  }

  function McuAfter(s: Scan, prev: Mcu, c: Mcu): Mcu
    requires ScanOk(s) && |prev| == |c|
  {
    seq(|c|, i requires 0 <= i < |c| => BlockAfter(s, prev[i], c[i]))
  }

  function McusAfter(s: Scan, prevs: seq<Mcu>, cs: seq<Mcu>): seq<Mcu>
    requires ScanOk(s) && McusShaped(s, prevs) && McusShaped(s, cs) && |prevs| == |cs|
  {
    seq(|cs|, i requires 0 <= i < |cs| => McuAfter(s, prevs[i], cs[i]))
  }

  /** Before an AC scan, the decoder must hold the block at the precision the scan
      builds on; otherwise it would misread the scan. */
  ghost predicate Ready(s: Scan, prev: Block, c: Block)
    requires ScanOk(s)
  {
    Shorts(c) && (s.Ss > 0 ==> Prior(BandOf(s), prev, c))
  }

  ghost predicate McuReady(s: Scan, prev: Mcu, c: Mcu)
    requires ScanOk(s)
  {
    |prev| == |c| == |s.membership| && forall i :: 0 <= i < |c| ==> Ready(s, prev[i], c[i])
  }

  ghost predicate McusReady(s: Scan, prevs: seq<Mcu>, cs: seq<Mcu>)
    requires ScanOk(s)
  {
    |prevs| == |cs| && forall i :: 0 <= i < |cs| ==> McuReady(s, prevs[i], cs[i])
  }

  /** The tables the scan refers to are sound. */
  ghost predicate SoundTables(s: Scan, T: Tables)
    requires ScanOk(s)
  {
    TablesFor(s, T) && forall id :: id in T ==> Sound(T[id])
  }

  /** A DC value known to the previous precision comes to be known to this one. */
  lemma DcAfterIs(s: Scan, prev: int, x: int)
    requires ScanOk(s) && Short(x) && (s.Ah != 0 ==> prev == DcTrunc(x, s.Ah))
    ensures DcAfter(s, prev, x) == DcTrunc(x, s.Al)
  {
    hide DcTrunc, SetBit, ToShort;
    if s.Ah != 0 {
      RefineDc(x, s.Al);
    }
  }

  // ----- DC scans -----

  /** The MCU when its blocks before hi are done. */
  function DcMixed(s: Scan, prev: Mcu, c: Mcu, hi: nat): (m: Mcu)
    requires |prev| == |c|
    ensures |m| == |c|
  {
    seq(|c|, i requires 0 <= i < |c| => if i < hi then prev[i][0 := DcAfter(s, prev[i][0], c[i][0])] else prev[i])
  }

  lemma DcMixedNext(s: Scan, prev: Mcu, c: Mcu, b: nat)
    requires |prev| == |c| && b < |c|
    ensures DcMixed(s, prev, c, b)[b] == prev[b]
    ensures DcMixed(s, prev, c, b)[b := prev[b][0 := DcAfter(s, prev[b][0], c[b][0])]] == DcMixed(s, prev, c, b + 1)
  {
    hide DcAfter;
  }

  lemma {:induction false} DcFirstInverts(s: Scan, T: Tables, lastDc: seq<int>, prev: Mcu, c: Mcu, b: nat, rest: seq<bool>)
    requires ScanOk(s) && s.Ss == 0 && s.Ah == 0 && SoundTables(s, T) && McuReady(s, prev, c)
    requires |lastDc| == |s.comps| && b <= |c| && Covers(T, EncDcFirst(s, lastDc, c, b).0)
    ensures DecDcFirst(s, T, Emit(T, EncDcFirst(s, lastDc, c, b).0, rest), lastDc, DcMixed(s, prev, c, b), b)
         == Some((rest, EncDcFirst(s, lastDc, c, b).1, DcMixed(s, prev, c, |c|)))
    decreases |c| - b
  {
    hide DiffTokens, ReadDiff, DcMixed, ToShort, Shr;
    if b < |c| {
      var ci, v := s.membership[b], Shr(c[b][0], s.Al);
      var d := DiffTokens(DcTable(s, b), v - lastDc[ci]);
      var more := EncDcFirst(s, lastDc[ci := v], c, b + 1).0;
      EmitConcat(T, d, more, rest);
      DiffInverts(T, DcTable(s, b), v - lastDc[ci], Emit(T, more, rest));
      assert Ready(s, prev[b], c[b]);
      DcTruncShort(c[b][0], s.Al);
      DcMixedNext(s, prev, c, b);
      DcFirstInverts(s, T, lastDc[ci := v], prev, c, b + 1, rest);
    }
  }

  lemma {:induction false} DcRefineInverts(s: Scan, T: Tables, prev: Mcu, c: Mcu, b: nat, rest: seq<bool>)
    requires ScanOk(s) && s.Ss == 0 && s.Ah != 0 && McuReady(s, prev, c) && b <= |c|
    ensures Covers(T, EncDcRefine(s, c, b))
    ensures DecDcRefine(s, Emit(T, EncDcRefine(s, c, b), rest), DcMixed(s, prev, c, b), b)
         == Some((rest, DcMixed(s, prev, c, |c|)))
    decreases |c| - b
  {
    hide DcMixed, ToShort, Shr, SetBit;
    if b < |c| {
      var x := Shr(c[b][0], s.Al);
      var toks, more := EncDcRefine(s, c, b), EncDcRefine(s, c, b + 1);
      DcRefineInverts(s, T, prev, c, b + 1, rest);
      assert toks[1..] == more;
      LowBit(x);
      DcMixedNext(s, prev, c, b);
      var bits := Emit(T, toks, rest);
      assert bits == [x % 2 == 1] + Emit(T, more, rest);
      assert bits[1..] == Emit(T, more, rest);
    }
  }

  lemma LowBit(x: int)
    ensures ToBits(x, 1) == [x % 2 == 1]
  {
    assert ToBits(x / 2, 0) == [];
  }

  function DcMcuTokens(s: Scan, lastDc: seq<int>, c: Mcu): (res: (seq<Token>, seq<int>))
    requires ScanOk(s) && s.Ss == 0 && |lastDc| == |s.comps| && |c| == |s.membership|
    ensures |res.1| == |lastDc|
  {
    if s.Ah == 0 then EncDcFirst(s, lastDc, c, 0) else (EncDcRefine(s, c, 0), lastDc)
  }

  function DcTokens(s: Scan, lastDc: seq<int>, cs: seq<Mcu>): seq<Token>
    requires ScanOk(s) && s.Ss == 0 && |lastDc| == |s.comps| && McusShaped(s, cs)
    decreases cs
  {
    if cs == [] then []
    else
      var (toks, last) := DcMcuTokens(s, lastDc, cs[0]);
      toks + DcTokens(s, last, cs[1..])
  }

  lemma {:induction false} DcFold(s: Scan, st: EncState, cs: seq<Mcu>)
    requires ScanOk(s) && s.Ss == 0 && |st.lastDc| == |s.comps| && McusShaped(s, cs)
    ensures EncFold(s, st, cs).ac == st.ac.(toks := st.ac.toks + DcTokens(s, st.lastDc, cs))
    decreases cs
  {
    hide EncDcFirst, EncDcRefine;
    if cs == [] {
      assert st.ac.toks + [] == st.ac.toks;
    } else {
      var (toks, last) := DcMcuTokens(s, st.lastDc, cs[0]);
      DcFold(s, EncMcu(s, st, cs[0]), cs[1..]);
      SeqAssoc(st.ac.toks, toks, DcTokens(s, last, cs[1..]));
    }
  }

  lemma DcMcuInverts(s: Scan, T: Tables, lastDc: seq<int>, eobrun: nat, prev: Mcu, c: Mcu, rest: seq<bool>)
    requires ScanOk(s) && s.Ss == 0 && SoundTables(s, T) && McuReady(s, prev, c)
    requires |lastDc| == |s.comps| && Covers(T, DcMcuTokens(s, lastDc, c).0)
    ensures DecMcu(s, T, DecState(Emit(T, DcMcuTokens(s, lastDc, c).0, rest), eobrun, lastDc), prev)
         == Some((DecState(rest, eobrun, DcMcuTokens(s, lastDc, c).1), McuAfter(s, prev, c)))
  {
    hide EncDcFirst, EncDcRefine, DecDcFirst, DecDcRefine, DcAfter;
    assert DcMixed(s, prev, c, 0) == prev;
    assert DcMixed(s, prev, c, |c|) == McuAfter(s, prev, c);
    if s.Ah == 0 {
      DcFirstInverts(s, T, lastDc, prev, c, 0, rest);
    } else {
      DcRefineInverts(s, T, prev, c, 0, rest);
    }
  }

  lemma McusAfterSplit(s: Scan, prevs: seq<Mcu>, cs: seq<Mcu>)
    requires ScanOk(s) && McusShaped(s, prevs) && McusShaped(s, cs) && |prevs| == |cs| > 0
    ensures McusAfter(s, prevs, cs) == [McuAfter(s, prevs[0], cs[0])] + McusAfter(s, prevs[1..], cs[1..])
  {
    hide McuAfter;
  }

  lemma {:induction false} DcSegmentInverts(s: Scan, T: Tables, lastDc: seq<int>, eobrun: nat,
                                            prevs: seq<Mcu>, cs: seq<Mcu>, rest: seq<bool>)
    requires ScanOk(s) && s.Ss == 0 && SoundTables(s, T) && McusReady(s, prevs, cs)
    requires |lastDc| == |s.comps| && McusShaped(s, cs) && McusShaped(s, prevs) && Covers(T, DcTokens(s, lastDc, cs))
    ensures var r := DecFold(s, T, DecState(Emit(T, DcTokens(s, lastDc, cs), rest), eobrun, lastDc), prevs);
            r.Some? && r.value.0.bits == rest && r.value.0.eobrun == eobrun && r.value.1 == McusAfter(s, prevs, cs)
    decreases cs
  {
    hide DcMcuTokens, DecMcu, McuAfter, McusAfter;
    if cs == [] {
      NoMcus(s);
    } else {
      var (toks, last) := DcMcuTokens(s, lastDc, cs[0]);
      var more := DcTokens(s, last, cs[1..]);
      EmitConcat(T, toks, more, rest);
      DcMcuInverts(s, T, lastDc, eobrun, prevs[0], cs[0], Emit(T, more, rest));
      DcSegmentInverts(s, T, last, eobrun, prevs[1..], cs[1..], rest);
      McusAfterSplit(s, prevs, cs);
    }
  }

  lemma NoMcus(s: Scan)
    requires ScanOk(s)
    ensures McusAfter(s, [], []) == []
  {
  }

  // ----- AC scans -----

  function Blocks(s: Scan, mcus: seq<Mcu>): seq<Block>
    requires ScanOk(s) && s.Ss > 0 && McusShaped(s, mcus)
  {
    seq(|mcus|, i requires 0 <= i < |mcus| => mcus[i][0])
  }

  lemma {:induction false} AcFoldIs(s: Scan, st: EncState, cs: seq<Mcu>)
    requires ScanOk(s) && s.Ss > 0 && |st.lastDc| == |s.comps| && McusShaped(s, cs)
    ensures EncFold(s, st, cs).ac == AcFold(BandOf(s), st.ac, Blocks(s, cs))
    decreases cs
  {
    hide AcStep;
    if cs != [] {
      AcFoldIs(s, EncMcu(s, st, cs[0]), cs[1..]);
      assert Blocks(s, cs)[1..] == Blocks(s, cs[1..]);
    }
  }

  function Boxed(blks: seq<Block>): seq<Mcu> {
    seq(|blks|, i requires 0 <= i < |blks| => [blks[i]])
  }

  lemma {:induction false} AcDecFoldIs(s: Scan, T: Tables, st: DecState, prevs: seq<Mcu>)
    requires ScanOk(s) && s.Ss > 0 && TablesFor(s, T) && |st.lastDc| == |s.comps| && McusShaped(s, prevs)
    ensures DecFold(s, T, st, prevs) ==
            match DecAcBlocks(BandOf(s), T[BandOf(s).id].read, st.eobrun, Blocks(s, prevs), st.bits)
            case None => None
            case Some((blks, eobrun, bits)) => Some((DecState(bits, eobrun, st.lastDc), Boxed(blks)))
    decreases prevs
  {
    hide DecAcBlock;
    if prevs == [] {
      assert Boxed([]) == [];
    } else {
      assert Blocks(s, prevs)[1..] == Blocks(s, prevs[1..]);
      match DecAcBlock(BandOf(s), T[BandOf(s).id].read, st.eobrun, prevs[0][0], st.bits)
      case None =>
      case Some(d) =>
        AcDecFoldIs(s, T, DecState(d.bits, d.eobrun, st.lastDc), prevs[1..]);
        match DecAcBlocks(BandOf(s), T[BandOf(s).id].read, d.eobrun, Blocks(s, prevs[1..]), d.bits)
        case None =>
        case Some((blks, _, _)) => assert Boxed([d.blk] + blks) == [[d.blk]] + Boxed(blks);
    }
  }

  lemma {:induction false} BlocksInRange(s: Scan, st: EncState, cs: seq<Mcu>)
    requires ScanOk(s) && s.Ss > 0 && s.Ah == 0 && |st.lastDc| == |s.comps| && McusShaped(s, cs)
    requires FoldInRange(s, st, cs)
    ensures forall i :: 0 <= i < |cs| ==> First.InRange(BandOf(s), cs[i][0])
    decreases cs
  {
    hide First.InRange, EncMcu, BandOf;
    if cs != [] {
      BlocksInRange(s, EncMcu(s, st, cs[0]), cs[1..]);
    }
  }

  lemma AcReady(s: Scan, T: Tables, prevs: seq<Mcu>, cs: seq<Mcu>)
    requires ScanOk(s) && s.Ss > 0 && SoundTables(s, T) && McusReady(s, prevs, cs)
    requires McusShaped(s, cs) && McusShaped(s, prevs) && FoldInRange(s, EncInit(s), cs)
    ensures AllCodable(BandOf(s), T, Blocks(s, prevs), Blocks(s, cs))
  {
    hide First.InRange, FoldInRange, Prior;
    if s.Ah == 0 { BlocksInRange(s, EncInit(s), cs); }
    forall i | 0 <= i < |cs| ensures Codable(BandOf(s), T, prevs[i][0], cs[i][0]) {
      assert McuReady(s, prevs[i], cs[i]);
      assert Ready(s, prevs[i][0], cs[i][0]);
    }
  }

  lemma AcAfter(s: Scan, prevs: seq<Mcu>, cs: seq<Mcu>)
    requires ScanOk(s) && s.Ss > 0 && |prevs| == |cs| && McusShaped(s, cs) && McusShaped(s, prevs)
    ensures Boxed(Finals(BandOf(s), Blocks(s, prevs), Blocks(s, cs))) == McusAfter(s, prevs, cs)
  {
    hide Final;
    forall i | 0 <= i < |cs| ensures McusAfter(s, prevs, cs)[i] == [Final(BandOf(s), prevs[i][0], cs[i][0])] {
      assert McuAfter(s, prevs[i], cs[i]) == [Final(BandOf(s), prevs[i][0], cs[i][0])];
    }
  }

  /** Whatever follows a segment, decoding it from the scan's initial state
      brings every block to the precision of the scan. */
  lemma SegmentRoundTrip(s: Scan, T: Tables, prevs: seq<Mcu>, cs: seq<Mcu>, rest: seq<bool>)
    requires ScanOk(s) && SoundTables(s, T) && McusReady(s, prevs, cs)
    requires McusShaped(s, cs) && McusShaped(s, prevs)
    requires FoldInRange(s, EncInit(s), cs) && Covers(T, SegmentTokens(s, cs))
    ensures var r := DecFold(s, T, DecInit(s, Emit(T, SegmentTokens(s, cs), rest)), prevs);
            r.Some? && r.value.0.bits == rest && r.value.0.eobrun == 0 && r.value.1 == McusAfter(s, prevs, cs)
  {
    hide FoldInRange, EncFold, DecFold, DecAcBlocks, McusAfter, AcFold, AllCodable;
    if s.Ss == 0 {
      DcFold(s, EncInit(s), cs);
      var toks := DcTokens(s, EncInit(s).lastDc, cs);
      assert [] + toks == toks;
      DcSegmentInverts(s, T, EncInit(s).lastDc, 0, prevs, cs, rest);
    } else {
      AcFoldIs(s, EncInit(s), cs);
      AcReady(s, T, prevs, cs);
      AcSegment(BandOf(s), T, Blocks(s, prevs), Blocks(s, cs), rest);
      AcDecFoldIs(s, T, DecInit(s, Emit(T, SegmentTokens(s, cs), rest)), prevs);
      AcAfter(s, prevs, cs);
    }
  }

  /** A segment of an AC scan is coded in runs, which its blocks determine: one
      end-of-band symbol serves as many blocks as it may. */
  lemma SegmentInRuns(s: Scan, cs: seq<Mcu>, gs: seq<seq<Block>>)
    requires ScanOk(s) && s.Ss > 0 && McusShaped(s, cs) && Runs(BandOf(s), gs) && Joined(gs) == Blocks(s, cs)
    ensures SegmentTokens(s, cs) == RunsTokens(BandOf(s), gs)
  {
    hide Runs, Joined, RunsTokens, EncFold, AcFold, Flush;
    AcFoldIs(s, EncInit(s), cs);
    SegmentOfRuns(BandOf(s), gs);
  }
}
