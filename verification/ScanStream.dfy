/** Whole progressive scans as byte streams, with restart intervals. */
module ScanStream {
  import opened Wrappers
  import opened Tokens
  import opened AcRuns
  import opened ScanCoding
  import opened ScanRoundTrip
  import opened ByteStream

  const RST0: nat := 0xD0

  // ----- encoder -----

  /** done: the segments already closed by a restart marker; seg: the current
      segment; togo and rst: restarts_to_go and next_restart_num. */
  datatype Encoder = Encoder(done: seq<seq<Token>>, seg: EncState, togo: nat, rst: nat)

  function StartEncoder(s: Scan, ri: nat): Encoder {
    Encoder([], EncInit(s), ri, 0)
  }

  /** emit_restart: the segment ends, all predictions start over. */
  function EmitRestart(s: Scan, e: Encoder): Encoder
    requires ScanOk(s)
  {
    e.(done := e.done + [Flush(BandOf(s).id, e.seg.ac).toks], seg := EncInit(s))
  }

  /** Encoding one MCU under restart interval ri (0: none). */
  function EncodeMcu(s: Scan, ri: nat, e: Encoder, mcu: Mcu): (e1: Encoder)
    requires ScanOk(s) && |e.seg.lastDc| == |s.comps| && |mcu| == |s.membership|
    ensures |e1.seg.lastDc| == |s.comps|
  {
    var due := ri > 0 && e.togo == 0;
    var e1 := if due then EmitRestart(s, e) else e;
    var seg := EncMcu(s, e1.seg, mcu);
    if ri == 0 then e1.(seg := seg)
    else if due then e1.(seg := seg, togo := ri - 1, rst := (e.rst + 1) % 8)
    else e1.(seg := seg, togo := e.togo - 1)
  }

  /** EncodeMcu raises no JERR_BAD_DCT_COEF. */
  ghost predicate EncodeOk(s: Scan, ri: nat, e: Encoder, mcu: Mcu)
    requires ScanOk(s) && |e.seg.lastDc| == |s.comps| && |mcu| == |s.membership|
  {
    McuInRange(s, if ri > 0 && e.togo == 0 then EncInit(s) else e.seg, mcu)
  }

  function EncodeMcus(s: Scan, ri: nat, e: Encoder, mcus: seq<Mcu>): (e1: Encoder)
    requires ScanOk(s) && |e.seg.lastDc| == |s.comps| && McusShaped(s, mcus)
    ensures |e1.seg.lastDc| == |s.comps|
    decreases mcus
  {
    if mcus == [] then e else EncodeMcus(s, ri, EncodeMcu(s, ri, e, mcus[0]), mcus[1..])
  }

  ghost predicate EncodesOk(s: Scan, ri: nat, e: Encoder, mcus: seq<Mcu>)
    requires ScanOk(s) && |e.seg.lastDc| == |s.comps| && McusShaped(s, mcus)
    decreases mcus
  {
    mcus == [] || (EncodeOk(s, ri, e, mcus[0]) && EncodesOk(s, ri, EncodeMcu(s, ri, e, mcus[0]), mcus[1..]))
  }

  /** finish_pass: the tokens of all segments. */
  function FinishedSegments(s: Scan, e: Encoder): seq<seq<Token>>
    requires ScanOk(s)
  {
    EmitRestart(s, e).done
  }

  ghost predicate CoversAll(T: Tables, segs: seq<seq<Token>>) {
    forall i :: 0 <= i < |segs| ==> Covers(T, segs[i])
  }

  function Marker(k: nat): Byte {
    RST0 + k % 8
  }

  /** The bytes of the segments, with restart markers between them; rest follows. */
  function Render(T: Tables, segs: seq<seq<Token>>, k: nat, rest: seq<Byte>): seq<Byte>
    requires CoversAll(T, segs) && segs != []
    decreases |segs|
  {
    SegmentBytes(Emit(T, segs[0], [])) +
    if |segs| == 1 then rest else [0xFF, Marker(k)] + Render(T, segs[1..], k + 1, rest)
  }

  // ----- decoder -----

  /** ahead: what is left of the data source; togo and rst: restarts_to_go and the
      number of the next expected marker; discarded: whole data bytes dropped at
      restarts, which the library warns about. */
  datatype Decoder = Decoder(ahead: Ahead, eobrun: nat, lastDc: seq<int>, togo: nat, rst: nat, discarded: nat)

  function StartDecoder(s: Scan, ri: nat, bytes: seq<Byte>): Decoder {
    Decoder(Look(bytes), 0, seq(|s.comps|, _ => 0), ri, 0, 0)
  }

  /** process_restart: unread bits are dropped and the expected marker is passed. */
  function ProcessRestart(s: Scan, ri: nat, d: Decoder): (d1: Option<Decoder>)
    ensures d1.Some? ==> |d1.value.lastDc| == |s.comps|
  {
    if d.ahead.marker != Marker(d.rst) then None
    else Some(Decoder(Look(d.ahead.rest), 0, seq(|s.comps|, _ => 0), ri, (d.rst + 1) % 8,
                      d.discarded + |d.ahead.bits| / 8))
  }

  function DecodeMcu(s: Scan, T: Tables, ri: nat, d: Decoder, mcu: Mcu): (res: Option<(Decoder, Mcu)>)
    requires ScanOk(s) && TablesFor(s, T) && |d.lastDc| == |s.comps| && |mcu| == |s.membership|
    ensures res.Some? ==> |res.value.0.lastDc| == |s.comps| && |res.value.1| == |mcu|
  {
    match if ri > 0 && d.togo == 0 then ProcessRestart(s, ri, d) else Some(d)
    case None => None
    case Some(d1) =>
      match DecMcu(s, T, DecState(d1.ahead.bits, d1.eobrun, d1.lastDc), mcu)
      case None => None
      case Some((st, mcu1)) =>
        Some((Decoder(d1.ahead.(bits := st.bits), st.eobrun, st.lastDc, (d1.togo - 1) % 0x1_0000_0000,
                      d1.rst, d1.discarded), mcu1))
  }

  function DecodeMcus(s: Scan, T: Tables, ri: nat, d: Decoder, mcus: seq<Mcu>): (res: Option<(Decoder, seq<Mcu>)>)
    requires ScanOk(s) && TablesFor(s, T) && |d.lastDc| == |s.comps| && McusShaped(s, mcus)
    ensures res.Some? ==> |res.value.0.lastDc| == |s.comps| && |res.value.1| == |mcus|
    decreases mcus
  {
    if mcus == [] then Some((d, []))
    else
      match DecodeMcu(s, T, ri, d, mcus[0])
      case None => None
      case Some((d1, mcu1)) =>
        match DecodeMcus(s, T, ri, d1, mcus[1..])
        case None => None
        case Some((d2, more)) => Some((d2, [mcu1] + more))
  }

  // ----- segments -----

  /** The MCUs of each restart interval. */
  function Intervals(ri: nat, mcus: seq<Mcu>): (r: seq<seq<Mcu>>)
    ensures r != []
    decreases |mcus|
  {
    if ri == 0 || |mcus| <= ri then [mcus] else [mcus[..ri]] + Intervals(ri, mcus[ri..])
  }

  /** Within an interval the encoder just encodes. */
  lemma {:induction false} EncodeWithin(s: Scan, ri: nat, e: Encoder, xs: seq<Mcu>)
    requires ScanOk(s) && |e.seg.lastDc| == |s.comps| && McusShaped(s, xs)
    requires ri > 0 ==> |xs| <= e.togo
    ensures EncodeMcus(s, ri, e, xs) == e.(seg := EncFold(s, e.seg, xs), togo := if ri > 0 then e.togo - |xs| else e.togo)
    ensures EncodesOk(s, ri, e, xs) <==> FoldInRange(s, e.seg, xs)
    decreases xs
  {
    hide EncMcu, McuInRange;
    if xs != [] {
      EncodeWithin(s, ri, EncodeMcu(s, ri, e, xs[0]), xs[1..]);
    }
  }

  lemma {:induction false} EncodeSplit(s: Scan, ri: nat, e: Encoder, xs: seq<Mcu>, ys: seq<Mcu>)
    requires ScanOk(s) && |e.seg.lastDc| == |s.comps| && McusShaped(s, xs) && McusShaped(s, ys)
    ensures McusShaped(s, xs + ys)
    ensures EncodeMcus(s, ri, e, xs + ys) == EncodeMcus(s, ri, EncodeMcus(s, ri, e, xs), ys)
    ensures EncodesOk(s, ri, e, xs + ys) <==> EncodesOk(s, ri, e, xs) && EncodesOk(s, ri, EncodeMcus(s, ri, e, xs), ys)
    decreases xs
  {
    hide EncodeMcu, EncodeOk;
    if xs == [] {
      assert xs + ys == ys;
    } else {
      assert (xs + ys)[1..] == xs[1..] + ys;
      EncodeSplit(s, ri, EncodeMcu(s, ri, e, xs[0]), xs[1..], ys);
    }
  }

  /** At the end of an interval, restarting early makes no difference. */
  lemma RestartEarly(s: Scan, ri: nat, e: Encoder, mcus: seq<Mcu>)
    requires ScanOk(s) && |e.seg.lastDc| == |s.comps| && McusShaped(s, mcus) && mcus != []
    requires ri > 0 && e.togo == 0
    ensures var r := EmitRestart(s, e).(togo := ri, rst := (e.rst + 1) % 8);
            EncodeMcus(s, ri, e, mcus) == EncodeMcus(s, ri, r, mcus) &&
            (EncodesOk(s, ri, e, mcus) <==> EncodesOk(s, ri, r, mcus))
  {
    hide EncMcu, McuInRange, Flush;
  }

  function SegmentsOf(s: Scan, ints: seq<seq<Mcu>>): seq<seq<Token>>
    requires ScanOk(s) && forall i :: 0 <= i < |ints| ==> McusShaped(s, ints[i])
  {
    seq(|ints|, i requires 0 <= i < |ints| => SegmentTokens(s, ints[i]))
  }

  lemma {:induction false} IntervalsShaped(s: Scan, ri: nat, mcus: seq<Mcu>)
    requires McusShaped(s, mcus)
    ensures forall i :: 0 <= i < |Intervals(ri, mcus)| ==> McusShaped(s, Intervals(ri, mcus)[i])
    decreases |mcus|
  {
    if ri > 0 && |mcus| > ri { IntervalsShaped(s, ri, mcus[ri..]); }
  }

  /** A fresh interval is about to be encoded. */
  predicate Fresh(s: Scan, ri: nat, e: Encoder) {
    e.seg == EncInit(s) && e.togo == ri
  }

  /** The segments are the intervals, each encoded on its own. */
  lemma {:induction false} SegmentsAre(s: Scan, ri: nat, e: Encoder, mcus: seq<Mcu>)
    requires ScanOk(s) && McusShaped(s, mcus) && Fresh(s, ri, e)
    ensures forall i :: 0 <= i < |Intervals(ri, mcus)| ==> McusShaped(s, Intervals(ri, mcus)[i])
    ensures FinishedSegments(s, EncodeMcus(s, ri, e, mcus)) == e.done + SegmentsOf(s, Intervals(ri, mcus))
    ensures EncodesOk(s, ri, e, mcus) ==>
      forall i :: 0 <= i < |Intervals(ri, mcus)| ==> FoldInRange(s, EncInit(s), Intervals(ri, mcus)[i])
    decreases |mcus|
  {
    hide EncMcu, McuInRange, Flush, EncodeMcus, EncodesOk, FoldInRange, EncFold;
    IntervalsShaped(s, ri, mcus);
    if ri == 0 || |mcus| <= ri {
      EncodeWithin(s, ri, e, mcus);
      assert SegmentsOf(s, [mcus]) == [SegmentTokens(s, mcus)];
    } else {
      var xs, ys := mcus[..ri], mcus[ri..];
      assert mcus == xs + ys;
      EncodeWithin(s, ri, e, xs);
      EncodeSplit(s, ri, e, xs, ys);
      var m := EncodeMcus(s, ri, e, xs);
      RestartEarly(s, ri, m, ys);
      var r := EmitRestart(s, m).(togo := ri, rst := (m.rst + 1) % 8);
      SegmentsAre(s, ri, r, ys);
      IntervalsShaped(s, ri, ys);
      assert SegmentsOf(s, Intervals(ri, mcus)) == [SegmentTokens(s, xs)] + SegmentsOf(s, Intervals(ri, ys));
      SeqAssoc(e.done, [SegmentTokens(s, xs)], SegmentsOf(s, Intervals(ri, ys)));
    }
  }

  // ----- round trip -----

  /** Within an interval the decoder just decodes. */
  lemma {:induction false} DecodeWithin(s: Scan, T: Tables, ri: nat, d: Decoder, xs: seq<Mcu>)
    requires ScanOk(s) && TablesFor(s, T) && |d.lastDc| == |s.comps| && McusShaped(s, xs)
    requires ri > 0 ==> |xs| <= d.togo < 0x1_0000_0000
    requires DecFold(s, T, DecState(d.ahead.bits, d.eobrun, d.lastDc), xs).Some?
    ensures var (st, ms), r := DecFold(s, T, DecState(d.ahead.bits, d.eobrun, d.lastDc), xs).value, DecodeMcus(s, T, ri, d, xs);
            r.Some? && r.value.1 == ms && (ri > 0 ==> r.value.0.togo == d.togo - |xs|) &&
            r.value.0.(togo := 0) == Decoder(d.ahead.(bits := st.bits), st.eobrun, st.lastDc, 0, d.rst, d.discarded)
    decreases xs
  {
    hide DecMcu;
    if xs != [] {
      var (d1, _) := DecodeMcu(s, T, ri, d, xs[0]).value;
      DecodeWithin(s, T, ri, d1, xs[1..]);
    }
  }

  lemma {:induction false} DecodeSplit(s: Scan, T: Tables, ri: nat, d: Decoder, xs: seq<Mcu>, ys: seq<Mcu>)
    requires ScanOk(s) && TablesFor(s, T) && |d.lastDc| == |s.comps| && McusShaped(s, xs) && McusShaped(s, ys)
    requires DecodeMcus(s, T, ri, d, xs).Some?
    ensures McusShaped(s, xs + ys)
    ensures var (d1, ms), r := DecodeMcus(s, T, ri, d, xs).value, DecodeMcus(s, T, ri, d, xs + ys);
            var more := DecodeMcus(s, T, ri, d1, ys);
            r.Some? == more.Some? &&
            (r.Some? ==> r.value.0 == more.value.0 && r.value.1 == ms + more.value.1)
    decreases xs
  {
    hide DecodeMcu;
    if xs == [] {
      assert xs + ys == ys;
      match DecodeMcus(s, T, ri, d, ys)
      case None =>
      case Some((_, more)) => assert [] + more == more;
    } else {
      assert (xs + ys)[1..] == xs[1..] + ys;
      var (d1, m) := DecodeMcu(s, T, ri, d, xs[0]).value;
      DecodeSplit(s, T, ri, d1, xs[1..], ys);
      var (d2, ms) := DecodeMcus(s, T, ri, d1, xs[1..]).value;
      match DecodeMcus(s, T, ri, d2, ys)
      case None =>
      case Some((_, more)) => SeqAssoc([m], ms, more);
    }
  }

  /** At the end of an interval, passing the marker early makes no difference. */
  lemma PassMarkerEarly(s: Scan, T: Tables, ri: nat, d: Decoder, mcus: seq<Mcu>)
    requires ScanOk(s) && TablesFor(s, T) && |d.lastDc| == |s.comps| && McusShaped(s, mcus) && mcus != []
    requires ri > 0 && d.togo == 0 && d.ahead.marker == Marker(d.rst)
    ensures ProcessRestart(s, ri, d).Some?
    ensures DecodeMcus(s, T, ri, d, mcus) == DecodeMcus(s, T, ri, ProcessRestart(s, ri, d).value, mcus)
  {
    hide DecMcu, Look;
  }

  /** The first interval of a scan is read back, up to its padding. */
  lemma IntervalInverts(s: Scan, T: Tables, ri: nat, d: Decoder, prevs: seq<Mcu>, cs: seq<Mcu>, m: Byte, rest: seq<Byte>)
    requires ScanOk(s) && SoundTables(s, T) && McusReady(s, prevs, cs) && McusShaped(s, cs) && McusShaped(s, prevs) && |prevs| == |cs|
    requires FoldInRange(s, EncInit(s), cs) && Covers(T, SegmentTokens(s, cs)) && 0 < m < 0xFF
    requires d.ahead == Look(SegmentBytes(Emit(T, SegmentTokens(s, cs), [])) + ([0xFF, m] + rest))
    requires d.eobrun == 0 && d.lastDc == EncInit(s).lastDc
    requires ri > 0 ==> |cs| <= d.togo < 0x1_0000_0000
    ensures var r := DecodeMcus(s, T, ri, d, prevs);
            r.Some? && r.value.1 == McusAfter(s, prevs, cs) && (ri > 0 ==> r.value.0.togo == d.togo - |cs|) &&
            r.value.0.rst == d.rst && r.value.0.discarded == d.discarded && r.value.0.eobrun == 0 &&
            r.value.0.ahead.marker == m && r.value.0.ahead.rest == rest && |r.value.0.ahead.bits| < 8
  {
    hide Look, SegmentBytes, DecFold, DecodeMcus, McusAfter, McusReady, FoldInRange, SegmentTokens;
    var bits := Emit(T, SegmentTokens(s, cs), []);
    SegmentFound(bits, m, rest);
    EmitRest(T, SegmentTokens(s, cs), Padding(|bits|));
    SegmentRoundTrip(s, T, prevs, cs, Padding(|bits|));
    DecodeWithin(s, T, ri, d, prevs);
  }

  lemma SubReady(s: Scan, prevs: seq<Mcu>, cs: seq<Mcu>, lo: nat, hi: nat)
    requires ScanOk(s) && McusReady(s, prevs, cs) && |prevs| == |cs| && lo <= hi <= |cs|
    ensures McusReady(s, prevs[lo..hi], cs[lo..hi])
    ensures McusShaped(s, prevs[lo..hi]) && McusShaped(s, cs[lo..hi])
  {
    hide Ready;
  }

  lemma AfterSplit(s: Scan, prevs: seq<Mcu>, cs: seq<Mcu>, n: nat)
    requires ScanOk(s) && McusShaped(s, prevs) && McusShaped(s, cs) && |prevs| == |cs| && n <= |cs|
    ensures McusAfter(s, prevs[..n], cs[..n]) + McusAfter(s, prevs[n..], cs[n..]) == McusAfter(s, prevs, cs)
  {
    hide McuAfter;
  }

  lemma RenderMore(T: Tables, segs: seq<seq<Token>>, k: nat, rest: seq<Byte>)
    requires CoversAll(T, segs) && |segs| > 1
    ensures CoversAll(T, segs[1..])
    ensures Render(T, segs, k, rest)
         == SegmentBytes(Emit(T, segs[0], [])) + ([0xFF, Marker(k)] + Render(T, segs[1..], k + 1, rest))
  {
    hide SegmentBytes;
  }

  /** From the start of an interval, the rest of the scan is read back: every
      marker is the expected one, no data is discarded. */
  lemma {:induction false} IntervalsInvert(s: Scan, T: Tables, ri: nat, d: Decoder, prevs: seq<Mcu>, cs: seq<Mcu>,
                                           m: Byte, rest: seq<Byte>, segs: seq<seq<Token>>)
    requires ScanOk(s) && SoundTables(s, T) && McusReady(s, prevs, cs) && McusShaped(s, cs) && McusShaped(s, prevs) && |prevs| == |cs|
    requires forall i :: 0 <= i < |Intervals(ri, cs)| ==> McusShaped(s, Intervals(ri, cs)[i])
    requires forall i :: 0 <= i < |Intervals(ri, cs)| ==> FoldInRange(s, EncInit(s), Intervals(ri, cs)[i])
    requires segs == SegmentsOf(s, Intervals(ri, cs)) && CoversAll(T, segs) && 0 < m < 0xFF && ri < 0x1_0000
    requires d.ahead == Look(Render(T, segs, d.rst, [0xFF, m] + rest))
    requires d.eobrun == 0 && d.lastDc == EncInit(s).lastDc && d.togo == ri && d.rst < 8
    ensures var r := DecodeMcus(s, T, ri, d, prevs);
            r.Some? && r.value.1 == McusAfter(s, prevs, cs) && r.value.0.eobrun == 0 &&
            r.value.0.discarded == d.discarded &&
            r.value.0.ahead.marker == m && r.value.0.ahead.rest == rest && |r.value.0.ahead.bits| < 8
    decreases |cs|
  {
    hide Look, SegmentBytes, DecodeMcus, McusAfter, McusReady, FoldInRange, SegmentTokens;
    if ri == 0 || |cs| <= ri {
      IntervalInverts(s, T, ri, d, prevs, cs, m, rest);
    } else {
      var xs, ys := cs[..ri], cs[ri..];
      RenderMore(T, segs, d.rst, [0xFF, m] + rest);
      var tail := Render(T, segs[1..], d.rst + 1, [0xFF, m] + rest);
      SubReady(s, prevs, cs, 0, ri);
      SubReady(s, prevs, cs, ri, |cs|);
      assert prevs[..ri] + prevs[ri..] == prevs;
      assert prevs[ri..] == prevs[ri..|cs|] && ys == cs[ri..|cs|];
      assert FoldInRange(s, EncInit(s), Intervals(ri, cs)[0]);
      assert Covers(T, segs[0]);
      IntervalInverts(s, T, ri, d, prevs[..ri], xs, Marker(d.rst), tail);
      DecodeSplit(s, T, ri, d, prevs[..ri], prevs[ri..]);
      var (d1, ms) := DecodeMcus(s, T, ri, d, prevs[..ri]).value;
      PassMarkerEarly(s, T, ri, d1, prevs[ri..]);
      var d2 := ProcessRestart(s, ri, d1).value;
      RestIntervals(s, T, ri, cs, segs);
      RenderMod(T, segs[1..], d.rst + 1, [0xFF, m] + rest);
      IntervalsInvert(s, T, ri, d2, prevs[ri..], ys, m, rest, segs[1..]);
      AfterSplit(s, prevs, cs, ri);
    }
  }

  lemma RestIntervals(s: Scan, T: Tables, ri: nat, cs: seq<Mcu>, segs: seq<seq<Token>>)
    requires ScanOk(s) && 0 < ri < |cs|
    requires forall i :: 0 <= i < |Intervals(ri, cs)| ==> McusShaped(s, Intervals(ri, cs)[i])
    requires forall i :: 0 <= i < |Intervals(ri, cs)| ==> FoldInRange(s, EncInit(s), Intervals(ri, cs)[i])
    requires segs == SegmentsOf(s, Intervals(ri, cs)) && CoversAll(T, segs)
    ensures Intervals(ri, cs)[1..] == Intervals(ri, cs[ri..])
    ensures forall i :: 0 <= i < |Intervals(ri, cs[ri..])| ==> McusShaped(s, Intervals(ri, cs[ri..])[i])
    ensures forall i :: 0 <= i < |Intervals(ri, cs[ri..])| ==> FoldInRange(s, EncInit(s), Intervals(ri, cs[ri..])[i])
    ensures segs[1..] == SegmentsOf(s, Intervals(ri, cs[ri..])) && CoversAll(T, segs[1..])
  {
    hide SegmentTokens, FoldInRange;
    var more := Intervals(ri, cs[ri..]);
    assert Intervals(ri, cs) == [cs[..ri]] + more;
    assert forall i :: 0 <= i < |more| ==> more[i] == Intervals(ri, cs)[i + 1];
  }

  lemma {:induction false} RenderMod(T: Tables, segs: seq<seq<Token>>, k: nat, rest: seq<Byte>)
    requires CoversAll(T, segs) && segs != []
    ensures Render(T, segs, k, rest) == Render(T, segs, k % 8, rest)
    decreases |segs|
  {
    hide SegmentBytes, Emit, Covers;
    if |segs| > 1 {
      SameMarker(k);
      RenderMod(T, segs[1..], k + 1, rest);
      RenderMod(T, segs[1..], k % 8 + 1, rest);
    }
  }

  lemma SameMarker(k: nat)
    ensures Marker(k % 8) == Marker(k) && (k % 8 + 1) % 8 == (k + 1) % 8
  {
  }

  /** The bytes of a scan, from start_pass to finish_pass. */
  function ScanSegments(s: Scan, ri: nat, cs: seq<Mcu>): (segs: seq<seq<Token>>)
    requires ScanOk(s) && McusShaped(s, cs)
    ensures segs != []
  {
    FinishedSegments(s, EncodeMcus(s, ri, StartEncoder(s, ri), cs))
  }

  /** A scan that the encoder writes without error, followed by any marker,
      brings every block to the precision of the scan. The decoder ends just
      before that marker with less than a byte of padding unread; it has met
      every restart marker in order and has discarded no data. */
  lemma ScanRoundTrips(s: Scan, T: Tables, ri: nat, prevs: seq<Mcu>, cs: seq<Mcu>, m: Byte, rest: seq<Byte>)
    requires ScanOk(s) && SoundTables(s, T) && McusReady(s, prevs, cs) && McusShaped(s, cs) && McusShaped(s, prevs) && |prevs| == |cs|
    requires EncodesOk(s, ri, StartEncoder(s, ri), cs) && CoversAll(T, ScanSegments(s, ri, cs))
    requires ri < 0x1_0000 && 0 < m < 0xFF
    ensures var r := DecodeMcus(s, T, ri, StartDecoder(s, ri, Render(T, ScanSegments(s, ri, cs), 0, [0xFF, m] + rest)), prevs);
            r.Some? && r.value.1 == McusAfter(s, prevs, cs) && r.value.0.eobrun == 0 && r.value.0.discarded == 0 &&
            r.value.0.ahead.marker == m && r.value.0.ahead.rest == rest && |r.value.0.ahead.bits| < 8
  {
    hide Look, DecodeMcus, McusAfter, McusReady, FoldInRange, SegmentTokens, EncodeMcus, EncodesOk, Render;
    SegmentsAre(s, ri, StartEncoder(s, ri), cs);
    var segs := SegmentsOf(s, Intervals(ri, cs));
    assert [] + segs == segs;
    IntervalsInvert(s, T, ri, StartDecoder(s, ri, Render(T, segs, 0, [0xFF, m] + rest)), prevs, cs, m, rest, segs);
  }

  // ----- where restarts are -----

  function AllMcus(ints: seq<seq<Mcu>>): seq<Mcu> {
    if ints == [] then [] else ints[0] + AllMcus(ints[1..])
  }

  /** Every restart interval but the last has ri MCUs; without restarts there is one. */
  lemma {:induction false} IntervalsAre(ri: nat, mcus: seq<Mcu>)
    ensures var ints := Intervals(ri, mcus);
            AllMcus(ints) == mcus && (ri == 0 ==> |ints| == 1) &&
            (forall i :: 0 <= i < |ints| - 1 ==> |ints[i]| == ri) &&
            (ri > 0 && mcus != [] ==> 1 <= |ints[|ints| - 1]| <= ri)
    decreases |mcus|
  {
    var ints := Intervals(ri, mcus);
    if ri == 0 || |mcus| <= ri {
      assert ints[1..] == [];
      assert mcus + [] == mcus;
    } else {
      IntervalsAre(ri, mcus[ri..]);
      assert ints[1..] == Intervals(ri, mcus[ri..]);
      assert mcus[..ri] + mcus[ri..] == mcus;
    }
  }
}
