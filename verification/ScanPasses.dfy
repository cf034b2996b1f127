/** Whole passes of the progressive Huffman encoder over the MCUs of a scan. */
module ScanPasses {
  import opened Tokens
  import opened AcCoding
  import opened AcRuns
  import opened ScanCoding
  import opened SymbolOutput
  import opened ProgressiveEncoder
  import Stream = ScanStream

  /** The segments of a scan so far, with the open one. */
  function Segs(e: Stream.Encoder): seq<seq<Token>> {
    e.done + [e.seg.ac.toks]
  }

  /** Encoding a block keeps the bounds on the run and the correction bits. */
  lemma StepKeeps(id: TableId, st: AcState, code: BlockCode)
    requires AcInv(st)
    ensures AcInv(AddCode(id, st, code))
  {
    hide EobTokens, CorrectionTokens;
  }

  lemma McuKeeps(s: Scan, ri: nat, e: Stream.Encoder, mcu: Mcu)
    requires ScanOk(s) && |e.seg.lastDc| == |s.comps| && |mcu| == |s.membership| && AcInv(e.seg.ac)
    ensures AcInv(Stream.EncodeMcu(s, ri, e, mcu).seg.ac)
  {
    hide AddCode, AcCode, EncDcFirst, EncDcRefine, Flush;
    if s.Ss > 0 {
      StepKeeps(BandOf(s).id, e.seg.ac, AcCode(BandOf(s), mcu[0]));
      StepKeeps(BandOf(s).id, EncInit(s).ac, AcCode(BandOf(s), mcu[0]));
    }
  }

  lemma AcceptsSegs(gather: bool, T: Tables, segs: seq<seq<Token>>, toks: seq<Token>)
    ensures AcceptsAll(gather, T, segs + [toks]) <==> AcceptsAll(gather, T, segs) && Acceptable(gather, T, toks)
  {
    hide Acceptable;
    var all := segs + [toks];
    assert all[|segs|] == toks;
    assert forall i :: 0 <= i < |segs| ==> all[i] == segs[i];
  }

  /** Flushing a coherent state appends the tokens of its pending run. */
  lemma FlushIs(id: TableId, st: AcState)
    requires AcInv(st)
    ensures Flush(id, st).toks == st.toks + FlushTokens(id, st.eobrun, st.be)
  {
    hide EobTokens, CorrectionTokens;
    assert st.toks + [] == st.toks;
  }

  /** A restart or the end of the pass adds the pending run. */
  lemma CloseAccepted(gather: bool, T: Tables, s: Scan, e: Stream.Encoder)
    requires ScanOk(s) && AcInv(e.seg.ac)
    ensures AcceptsAll(gather, T, Stream.EmitRestart(s, e).done) <==>
            AcceptsAll(gather, T, Segs(e)) && Acceptable(gather, T, FlushTokens(BandOf(s).id, e.seg.ac.eobrun, e.seg.ac.be))
  {
    hide Acceptable, AcceptsAll, FlushTokens, Flush;
    FlushIs(BandOf(s).id, e.seg.ac);
    AcceptsSegs(gather, T, e.done, e.seg.ac.toks);
    AcceptsSegs(gather, T, e.done, Flush(BandOf(s).id, e.seg.ac).toks);
    AcceptsConcat(gather, T, e.seg.ac.toks, FlushTokens(BandOf(s).id, e.seg.ac.eobrun, e.seg.ac.be));
  }

  /** The blocks of an MCU append their tokens to the segment. */
  lemma BlocksAppend(s: Scan, seg: EncState, mcu: Mcu)
    requires ScanOk(s) && |seg.lastDc| == |s.comps| && |mcu| == |s.membership|
    ensures EncMcu(s, seg, mcu).ac.toks == seg.ac.toks + BlockTokens(s, seg, mcu)
  {
    hide AcStep, EncDcFirst, EncDcRefine;
    if s.Ss > 0 {
      StepAppends(BandOf(s), seg.ac, mcu[0]);
    } else if s.Ah == 0 {
      assert [] + EncDcFirst(s, seg.lastDc, mcu, 0).0 == EncDcFirst(s, seg.lastDc, mcu, 0).0;
    } else {
      assert [] + EncDcRefine(s, mcu, 0) == EncDcRefine(s, mcu, 0);
    }
  }

  lemma McuAccepted(gather: bool, T: Tables, s: Scan, ri: nat, e: Stream.Encoder, mcu: Mcu)
    requires ScanOk(s) && |e.seg.lastDc| == |s.comps| && |mcu| == |s.membership| && AcInv(e.seg.ac)
    ensures AcceptsAll(gather, T, Segs(Stream.EncodeMcu(s, ri, e, mcu))) <==>
            AcceptsAll(gather, T, Segs(e)) && Acceptable(gather, T, McuTokens(s, ri, e, mcu))
  {
    hide Acceptable, AcceptsAll, FlushTokens, Flush, EncMcu, BlockTokens;
    var due := ri > 0 && e.togo == 0;
    var e1 := if due then Stream.EmitRestart(s, e) else e;
    var toks := BlockTokens(s, e1.seg, mcu);
    BlocksAppend(s, e1.seg, mcu);
    AcceptsSegs(gather, T, e1.done, e1.seg.ac.toks + toks);
    AcceptsConcat(gather, T, e1.seg.ac.toks, toks);
    AcceptsSegs(gather, T, e1.done, e1.seg.ac.toks);
    if due {
      CloseAccepted(gather, T, s, e);
      MustFlush(gather, T, s, ri, e, mcu);
      NothingAccepted(gather, T);
    }
  }

  /** If all of a scan is accepted, so is every part of it. */
  lemma {:induction false} PrefixAccepted(gather: bool, T: Tables, s: Scan, ri: nat, e: Stream.Encoder, mcus: seq<Mcu>)
    requires ScanOk(s) && |e.seg.lastDc| == |s.comps| && McusShaped(s, mcus) && AcInv(e.seg.ac)
    ensures AcInv(Stream.EncodeMcus(s, ri, e, mcus).seg.ac)
    ensures AcceptsAll(gather, T, Stream.FinishedSegments(s, Stream.EncodeMcus(s, ri, e, mcus))) ==> AcceptsAll(gather, T, Segs(e))
    decreases mcus
  {
    hide Stream.EncodeMcu, AcceptsAll, Acceptable, Segs, Stream.EmitRestart, FlushTokens;
    if mcus == [] {
      CloseAccepted(gather, T, s, e);
    } else {
      McuKeeps(s, ri, e, mcus[0]);
      McuAccepted(gather, T, s, ri, e, mcus[0]);
      PrefixAccepted(gather, T, s, ri, Stream.EncodeMcu(s, ri, e, mcus[0]), mcus[1..]);
    }
  }

  /** One pass over a scan: every MCU in turn, then the end of the pass. It succeeds
      if and only if no coefficient is out of range and no code is missing. A
      gathering pass counts exactly the symbols that an output pass writes. */
  method EncodePass(s: Scan, ri: nat, gather: bool, tables: map<TableId, EncTable>, ghost T: Tables, mcus: seq<Mcu>)
      returns (ok: bool, counts: map<TableId, seq<nat>>, out: seq<Byte>)
    requires ScanOk(s) && McusShaped(s, mcus) && DerivesAll(tables, T) && (gather || ScanTables(s) <= tables.Keys)
    ensures ok == (Stream.EncodesOk(s, ri, Stream.StartEncoder(s, ri), mcus) &&
                   AcceptsAll(gather, T, Stream.ScanSegments(s, ri, mcus)))
    ensures ok && gather ==> counts.Keys == ScanTables(s) && CountsAre(counts, Stream.ScanSegments(s, ri, mcus)) &&
                             SymbolsInAll(ScanTables(s), Stream.ScanSegments(s, ri, mcus))
    ensures ok && !gather ==> Stream.CoversAll(T, Stream.ScanSegments(s, ri, mcus)) &&
                              out == Stream.Render(T, Stream.ScanSegments(s, ri, mcus), 0, [])
  {
    hide SymbolSink.Valid, AcceptsAll, Acceptable, Stream.EncodeMcu, Stream.EncodeOk, Stream.Render, CountsAre, SymbolsInAll;
    hide McuTokens, FlushTokens, Stream.EmitRestart, Stream.CoversAll, Segs;
    counts, out := map[], [];
    var encoder := new PhuffEncoder(s, ri, gather, tables, T);
    ghost var start, segs := Stream.StartEncoder(s, ri), Stream.ScanSegments(s, ri, mcus);
    NothingYet(gather, T, s, ri);
    assert mcus[0..] == mcus;
    ok := true;
    for i := 0 to |mcus|
      invariant encoder.Valid() && AcceptsAll(gather, T, Segs(encoder.State()))
      invariant McusShaped(s, mcus[i..])
      invariant Stream.EncodeMcus(s, ri, encoder.State(), mcus[i..]) == Stream.EncodeMcus(s, ri, start, mcus)
      invariant Stream.EncodesOk(s, ri, encoder.State(), mcus[i..]) <==> Stream.EncodesOk(s, ri, start, mcus)
    {
      ghost var e := encoder.State();
      McuAccepted(gather, T, s, ri, e, mcus[i]);
      McuKeeps(s, ri, e, mcus[i]);
      assert mcus[i..][1..] == mcus[i + 1..];
      PrefixAccepted(gather, T, s, ri, Stream.EncodeMcu(s, ri, e, mcus[i]), mcus[i + 1..]);
      ok := encoder.EncodeMcu(mcus[i]);
      if !ok {
        return;
      }
    }
    assert mcus[|mcus|..] == [];
    CloseAccepted(gather, T, s, encoder.State());
    AcceptedCovers(T, segs);
    ok := encoder.FinishPass();
    if ok {
      counts := encoder.sink.counts;
      out := encoder.sink.writer.out;
    }
  }

  lemma NothingYet(gather: bool, T: Tables, s: Scan, ri: nat)
    ensures AcceptsAll(gather, T, Segs(Stream.StartEncoder(s, ri)))
  {
  }

  lemma AcceptedCovers(T: Tables, segs: seq<seq<Token>>)
    ensures AcceptsAll(false, T, segs) <==> Stream.CoversAll(T, segs)
  {
  }
}
