/** Every table of a scan is used: whatever the coefficients, a scan with at least one
    MCU counts at least one symbol of each of its tables. */
module ScanSymbols {
  import opened Bits
  import opened Tokens
  import opened AcCoding
  import opened DcCoding
  import opened AcRuns
  import opened ScanCoding
  import opened ScanRoundTrip
  import opened SymbolOutput
  import opened ProgressiveEncoder
  import First = AcFirstScan
  import Refine = AcRefineScan
  import Stream = ScanStream

  ghost predicate Uses(toks: seq<Token>, id: TableId) {
    exists i :: 0 <= i < |toks| && toks[i].Sym? && toks[i].id == id
  }

  lemma UsesPart(a: seq<Token>, b: seq<Token>, id: TableId)
    ensures Uses(a + b, id) <==> Uses(a, id) || Uses(b, id)
  {
    if Uses(a, id) {
      var i :| 0 <= i < |a| && a[i].Sym? && a[i].id == id;
      assert (a + b)[i] == a[i];
    }
    if Uses(b, id) {
      var i :| 0 <= i < |b| && b[i].Sym? && b[i].id == id;
      assert (a + b)[|a| + i] == b[i];
    }
  }

  lemma UsesFirst(toks: seq<Token>, id: TableId)
    requires toks != [] && toks[0].Sym? && toks[0].id == id
    ensures Uses(toks, id)
  {
  }

  // ----- AC scans -----

  /** A block emits a symbol, or leaves something to its end-of-band. */
  ghost predicate Coded(id: TableId, code: BlockCode) {
    (code.toks != [] && code.toks[0].Sym? && code.toks[0].id == id) || (code.toks == [] && Trailing(code))
  }

  lemma {:induction false} FirstCoded(p: Band, c: Block, k: nat, r: nat)
    requires p.Se <= 63 && k <= p.Se + 1 && (k > p.Se ==> r > 0)
    ensures Coded(p.id, FirstFrom(p, c, k, r))
    decreases 64 - k
  {
    if k <= p.Se {
      if Mag(c[k], p.Al) == 0 {
        FirstCoded(p, c, k + 1, r + 1);
      } else {
        First.FirstFromCoef(p, c, k, r);
      }
    }
  }

  /** In a first scan only zeros are left to the end-of-band. */
  lemma {:induction false} FirstRunOnly(p: Band, c: Block, k: nat, r: nat)
    requires p.Se <= 63
    ensures FirstFrom(p, c, k, r).br == []
    decreases 64 - k
  {
    hide Mag;
    if k <= p.Se {
      FirstRunOnly(p, c, k + 1, if Mag(c[k], p.Al) == 0 then r + 1 else 0);
    }
  }

  lemma {:induction false} RefineCoded(p: Band, c: Block, k: nat, r: nat, br: seq<bool>, eob: nat)
    requires p.Se <= 63 && k <= p.Se + 1 && (k > p.Se ==> r > 0 || br != [])
    ensures Coded(p.id, RefineFrom(p, c, k, r, br, eob))
    decreases 64 - k
  {
    hide Mag;
    if k <= p.Se {
      if Mag(c[k], p.Al) == 0 {
        RefineCoded(p, c, k + 1, r + 1, br, eob);
      } else {
        RefineNonzero(p, c, k, r, br, eob);
        if !(k <= eob && r > 15) && Mag(c[k], p.Al) > 1 {
          RefineCoded(p, c, k + 1, r, br + [Mag(c[k], p.Al) % 2 == 1], eob);
        }
      }
    }
  }

  lemma BlockCoded(p: Band, c: Block)
    requires AcBand(p)
    ensures Coded(p.id, AcCode(p, c))
  {
    if p.Ah == 0 {
      FirstCoded(p, c, p.Ss, 0);
    } else {
      RefineCoded(p, c, p.Ss, 0, [], LastNew(p, c, p.Ss, 0));
    }
  }

  /** A symbol has been emitted, or one is pending. */
  ghost predicate Due(id: TableId, st: AcState) {
    Uses(st.toks, id) || st.eobrun > 0
  }

  lemma FlushUses(id: TableId, st: AcState)
    ensures Due(id, st) ==> Uses(Flush(id, st).toks, id)
  {
    hide CorrectionTokens;
    if st.eobrun > 0 {
      var eob := EobTokens(id, st.eobrun);
      UsesFirst(eob + CorrectionTokens(st.be), id);
      UsesPart(st.toks, eob + CorrectionTokens(st.be), id);
    }
  }

  lemma StepDue(id: TableId, st: AcState, code: BlockCode)
    requires Due(id, st) || Coded(id, code)
    ensures Due(id, AddCode(id, st, code))
  {
    hide Flush, Uses;
    var f := Flush(id, st);
    FlushUses(id, st);
    FlushAppends(id, st);
    FlushedRun(id, st);
    UsesPart(f.toks, code.toks, id);
    if code.toks != [] && Coded(id, code) {
      UsesFirst(code.toks, id);
    }
    var st1 := if code.toks == [] then st else f.(toks := f.toks + code.toks);
    var st2 := AcState(st1.toks, st1.eobrun + 1, st1.be + code.br);
    FlushUses(id, st2);
  }

  lemma FlushedRun(id: TableId, st: AcState)
    ensures Flush(id, st).eobrun == 0
  {
  }

  lemma {:induction false} FoldDue(p: Band, st: AcState, cs: seq<Block>)
    requires AcBand(p) && (Due(p.id, st) || cs != [])
    ensures Due(p.id, AcFold(p, st, cs))
    decreases cs
  {
    hide Due, AcCode, AddCode;
    if cs != [] {
      BlockCoded(p, cs[0]);
      StepDue(p.id, st, AcCode(p, cs[0]));
      FoldDue(p, AcStep(p, st, cs[0]), cs[1..]);
    }
  }

  // ----- DC scans -----

  lemma {:induction false} DcUses(s: Scan, lastDc: seq<int>, mcu: Mcu, b: nat, x: nat)
    requires ScanOk(s) && |lastDc| == |s.comps| && |mcu| == |s.membership| && b <= x < |mcu|
    ensures Uses(EncDcFirst(s, lastDc, mcu, b).0, DcTable(s, x))
    decreases |mcu| - b
  {
    hide Uses;
    var ci := s.membership[b];
    var v := Shr(mcu[b][0], s.Al);
    var diff := DiffTokens(DcTable(s, b), v - lastDc[ci]);
    var more := EncDcFirst(s, lastDc[ci := v], mcu, b + 1).0;
    UsesPart(diff, more, DcTable(s, x));
    if b == x {
      UsesFirst(diff, DcTable(s, x));
    } else {
      DcUses(s, lastDc[ci := v], mcu, b + 1, x);
    }
  }

  /** Every component of the scan has blocks in an MCU. */
  predicate EveryCompCoded(s: Scan) {
    forall ci :: 0 <= ci < |s.comps| ==> ci in s.membership
  }

  /** A nonempty segment uses every table of its scan. */
  lemma SegmentUses(s: Scan, mcus: seq<Mcu>, id: TableId)
    requires ScanOk(s) && McusShaped(s, mcus) && mcus != [] && EveryCompCoded(s) && id in ScanTables(s)
    ensures Uses(SegmentTokens(s, mcus), id)
  {
    hide Uses, AcFold, EncFold, EncDcFirst, EncDcRefine, Flush, DcTokens, DiffTokens;
    var st := EncInit(s);
    if s.Ss > 0 {
      AcFoldIs(s, st, mcus);
      FoldDue(BandOf(s), st.ac, Blocks(s, mcus));
      FlushUses(BandOf(s).id, AcFold(BandOf(s), st.ac, Blocks(s, mcus)));
    } else {
      DcFold(s, st, mcus);
      DcTokensUse(s, st.lastDc, mcus, id);
      UsesPart(st.ac.toks, DcTokens(s, st.lastDc, mcus), id);
      NoRun(BandOf(s).id, EncFold(s, st, mcus).ac);
    }
  }

  lemma NoRun(id: TableId, st: AcState)
    ensures st.eobrun == 0 ==> Flush(id, st) == st
  {
  }

  lemma DcTokensUse(s: Scan, lastDc: seq<int>, mcus: seq<Mcu>, id: TableId)
    requires ScanOk(s) && s.Ss == 0 && McusShaped(s, mcus) && mcus != [] && EveryCompCoded(s) && id in ScanTables(s)
    requires |lastDc| == |s.comps|
    ensures Uses(DcTokens(s, lastDc, mcus), id)
  {
    hide Uses, EncDcFirst, DiffTokens;
    var ci :| 0 <= ci < |s.comps| && id == Dc(s.comps[ci].dcTbl);
    assert ci in s.membership;
    var x :| 0 <= x < |s.membership| && s.membership[x] == ci;
    DcUses(s, lastDc, mcus[0], 0, x);
    var (toks, last) := DcMcuTokens(s, lastDc, mcus[0]);
    UsesPart(toks, DcTokens(s, last, mcus[1..]), id);
  }

  /** A nonempty scan uses every table in its first segment. */
  lemma ScanUses(s: Scan, ri: nat, mcus: seq<Mcu>, id: TableId)
    requires ScanOk(s) && McusShaped(s, mcus) && mcus != [] && EveryCompCoded(s) && id in ScanTables(s)
    ensures Uses(Stream.ScanSegments(s, ri, mcus)[0], id)
  {
    hide Uses, Stream.EncodeMcus, Stream.EncodesOk, SegmentTokens, ScanTables;
    Stream.SegmentsAre(s, ri, Stream.StartEncoder(s, ri), mcus);
    var ints := Stream.Intervals(ri, mcus);
    FirstInterval(ri, mcus);
    SegmentUses(s, ints[0], id);
    var segs := Stream.SegmentsOf(s, ints);
    assert [] + segs == segs;
  }

  lemma FirstInterval(ri: nat, mcus: seq<Mcu>)
    requires mcus != []
    ensures Stream.Intervals(ri, mcus)[0] != []
  {
  }

  // ----- raw fields are never empty -----

  lemma RawsPart(a: seq<Token>, b: seq<Token>)
    ensures RawsOk(a + b) <==> RawsOk(a) && RawsOk(b)
  {
    if RawsOk(a + b) {
      assert forall i :: 0 <= i < |a| ==> a[i] == (a + b)[i];
      assert forall i :: 0 <= i < |b| ==> b[i] == (a + b)[|a| + i];
    }
  }

  lemma {:induction false} CorrectionRaws(br: seq<bool>)
    ensures RawsOk(CorrectionTokens(br))
  {
    if br != [] { CorrectionRaws(br[1..]); }
  }

  lemma {:induction false} ZrlRaws(id: TableId, n: nat)
    ensures RawsOk(Zrls(id, n))
  {
    if n > 0 { ZrlRaws(id, n - 1); }
  }

  lemma RunRaws(p: Band, x: int, r: nat)
    requires Mag(x, p.Al) > 0
    ensures RawsOk(First.RunTokens(p, x, r))
  {
    hide BitLen;
    ZrlRaws(p.id, r / 16);
    BitLenBounds(Mag(x, p.Al));
    RawsPart(Zrls(p.id, r / 16), First.CoefTokens(p, x, r % 16));
  }

  lemma {:induction false} FirstRaws(p: Band, c: Block, k: nat, r: nat)
    requires p.Se <= 63
    ensures RawsOk(FirstFrom(p, c, k, r).toks)
    decreases 64 - k
  {
    hide Mag, First.RunTokens;
    if k <= p.Se {
      if Mag(c[k], p.Al) == 0 {
        FirstRaws(p, c, k + 1, r + 1);
      } else {
        First.FirstFromCoef(p, c, k, r);
        FirstRaws(p, c, k + 1, 0);
        RunRaws(p, c[k], r);
        RawsPart(First.RunTokens(p, c[k], r), FirstFrom(p, c, k + 1, 0).toks);
      }
    }
  }

  lemma RefinePartRaws(p: Band, x: int, r: nat, br: seq<bool>)
    ensures RawsOk(Refine.NewTokens(p, x, r, br)) && RawsOk(ZrlTokens(p.id, r, br))
  {
    CorrectionRaws(br);
    ZrlRaws(p.id, r / 16 - if r > 15 then 1 else 0);
    var zrl := [Sym(p.id, 0xF0)];
    RawsPart(zrl, CorrectionTokens(br));
    RawsPart(zrl + CorrectionTokens(br), Zrls(p.id, r / 16 - if r > 15 then 1 else 0));
  }

  lemma {:induction false} RefineRaws(p: Band, c: Block, k: nat, r: nat, br: seq<bool>, eob: nat)
    requires p.Se <= 63
    ensures RawsOk(RefineFrom(p, c, k, r, br, eob).toks)
    decreases 64 - k
  {
    hide Mag, Refine.NewTokens, ZrlTokens, RawsOk;
    if k > p.Se {
      NoRaws();
    } else if Mag(c[k], p.Al) == 0 {
      RefineRaws(p, c, k + 1, r + 1, br, eob);
    } else {
      RefineNonzero(p, c, k, r, br, eob);
      var flush := k <= eob && r > 15;
      var r1, br1 := if flush then r % 16 else r, if flush then [] else br;
      if Mag(c[k], p.Al) == 1 {
        RefineRaws(p, c, k + 1, 0, [], eob);
      } else {
        RefineRaws(p, c, k + 1, r1, br1 + [Mag(c[k], p.Al) % 2 == 1], eob);
      }
      RefinePartRaws(p, c[k], r1, br1);
      RefinePartRaws(p, c[k], r, br);
      RawsPart(Refine.NewTokens(p, c[k], r1, br1), RefineFrom(p, c, k + 1, 0, [], eob).toks);
      RawsPart(ZrlTokens(p.id, r, br), AfterZrls(p, c, k, r1, br1, eob).toks);
    }
  }

  lemma NoRaws()
    ensures RawsOk([])
  {
  }

  lemma FlushRaws(id: TableId, st: AcState)
    requires RawsOk(st.toks)
    ensures RawsOk(Flush(id, st).toks)
  {
    hide BitLen;
    if st.eobrun > 0 {
      CorrectionRaws(st.be);
      RawsPart(EobTokens(id, st.eobrun), CorrectionTokens(st.be));
      RawsPart(st.toks, EobTokens(id, st.eobrun) + CorrectionTokens(st.be));
    }
  }

  lemma StepRaws(p: Band, st: AcState, c: Block)
    requires AcBand(p) && RawsOk(st.toks)
    ensures RawsOk(AcStep(p, st, c).toks)
  {
    hide Flush, RawsOk, FirstFrom, RefineFrom;
    var code := AcCode(p, c);
    if p.Ah == 0 {
      FirstRaws(p, c, p.Ss, 0);
    } else {
      RefineRaws(p, c, p.Ss, 0, [], LastNew(p, c, p.Ss, 0));
    }
    var f := Flush(p.id, st);
    FlushRaws(p.id, st);
    RawsPart(f.toks, code.toks);
    var st1 := if code.toks == [] then st else f.(toks := f.toks + code.toks);
    FlushRaws(p.id, AcState(st1.toks, st1.eobrun + 1, st1.be + code.br));
  }

  lemma {:induction false} FoldRaws(p: Band, st: AcState, cs: seq<Block>)
    requires AcBand(p) && RawsOk(st.toks)
    ensures RawsOk(AcFold(p, st, cs).toks)
    decreases cs
  {
    hide RawsOk, AcStep;
    if cs != [] {
      StepRaws(p, st, cs[0]);
      FoldRaws(p, AcStep(p, st, cs[0]), cs[1..]);
    }
  }

  lemma {:induction false} DcFirstRaws(s: Scan, lastDc: seq<int>, mcu: Mcu, b: nat)
    requires ScanOk(s) && |lastDc| == |s.comps| && |mcu| == |s.membership|
    ensures RawsOk(EncDcFirst(s, lastDc, mcu, b).0)
    decreases |mcu| - b
  {
    hide BitLen;
    if b < |mcu| {
      var ci := s.membership[b];
      var v := Shr(mcu[b][0], s.Al);
      DcFirstRaws(s, lastDc[ci := v], mcu, b + 1);
      RawsPart(DiffTokens(DcTable(s, b), v - lastDc[ci]), EncDcFirst(s, lastDc[ci := v], mcu, b + 1).0);
    }
  }

  lemma {:induction false} DcRefineRaws(s: Scan, mcu: Mcu, b: nat)
    ensures RawsOk(EncDcRefine(s, mcu, b))
    decreases |mcu| - b
  {
    if b < |mcu| { DcRefineRaws(s, mcu, b + 1); }
  }

  lemma {:induction false} DcTokensRaws(s: Scan, lastDc: seq<int>, mcus: seq<Mcu>)
    requires ScanOk(s) && s.Ss == 0 && McusShaped(s, mcus) && |lastDc| == |s.comps|
    ensures RawsOk(DcTokens(s, lastDc, mcus))
    decreases mcus
  {
    hide EncDcFirst, EncDcRefine, RawsOk;
    if mcus == [] {
      NoRaws();
    } else {
      DcFirstRaws(s, lastDc, mcus[0], 0);
      DcRefineRaws(s, mcus[0], 0);
      var (toks, last) := DcMcuTokens(s, lastDc, mcus[0]);
      DcTokensRaws(s, last, mcus[1..]);
      RawsPart(toks, DcTokens(s, last, mcus[1..]));
    }
  }

  lemma SegmentRaws(s: Scan, mcus: seq<Mcu>)
    requires ScanOk(s) && McusShaped(s, mcus)
    ensures RawsOk(SegmentTokens(s, mcus))
  {
    hide AcFold, EncFold, Flush, DcTokens, RawsOk;
    var st := EncInit(s);
    NoRaws();
    if s.Ss > 0 {
      AcFoldIs(s, st, mcus);
      FoldRaws(BandOf(s), st.ac, Blocks(s, mcus));
    } else {
      DcFold(s, st, mcus);
      DcTokensRaws(s, st.lastDc, mcus);
      RawsPart(st.ac.toks, DcTokens(s, st.lastDc, mcus));
    }
    FlushRaws(BandOf(s).id, EncFold(s, st, mcus).ac);
  }

  /** Gathering statistics over a scan raises no error but for coefficients out of range. */
  lemma ScanRaws(s: Scan, ri: nat, mcus: seq<Mcu>, T: Tables)
    requires ScanOk(s) && McusShaped(s, mcus)
    ensures AcceptsAll(true, T, Stream.ScanSegments(s, ri, mcus))
  {
    hide RawsOk, Stream.EncodeMcus, Stream.EncodesOk, SegmentTokens;
    Stream.SegmentsAre(s, ri, Stream.StartEncoder(s, ri), mcus);
    var ints := Stream.Intervals(ri, mcus);
    var segs := Stream.SegmentsOf(s, ints);
    assert [] + segs == segs;
    forall i | 0 <= i < |segs| ensures Acceptable(true, T, segs[i]) {
      SegmentRaws(s, ints[i]);
    }
  }
}
