/** Whole sequential scans as byte streams, with restart intervals. */
module SequentialScan {
  import opened Bits
  import opened Wrappers
  import opened Tokens
  import opened ByteStream
  import opened SequentialCoding
  import Stream = ScanStream

  // ----- segments -----

  predicate AllShaped(s: Layout, ints: seq<seq<Mcu>>) {
    forall i :: 0 <= i < |ints| ==> Shaped(s, ints[i])
  }

  function SegmentsOf(s: Layout, ints: seq<seq<Mcu>>): (r: seq<seq<Token>>)
    requires LayoutOk(s) && AllShaped(s, ints)
    ensures |r| == |ints|
  {
    seq(|ints|, i requires 0 <= i < |ints| => EncSegment(s, Zeros(s), ints[i]).0)
  }

  ghost predicate AllInRange(s: Layout, ints: seq<seq<Mcu>>)
    requires LayoutOk(s) && AllShaped(s, ints)
  {
    forall i :: 0 <= i < |ints| ==> SegmentInRange(s, Zeros(s), ints[i])
  }

  lemma {:induction false} IntervalsShaped(s: Layout, ri: nat, mcus: seq<Mcu>)
    requires Shaped(s, mcus)
    ensures AllShaped(s, Stream.Intervals(ri, mcus))
    decreases |mcus|
  {
    if ri > 0 && |mcus| > ri { IntervalsShaped(s, ri, mcus[ri..]); }
  }

  /** The tokens of a scan: every restart interval is coded on its own. */
  function ScanSegments(s: Layout, ri: nat, mcus: seq<Mcu>): (r: seq<seq<Token>>)
    requires LayoutOk(s) && Shaped(s, mcus)
    ensures r != []
  {
    IntervalsShaped(s, ri, mcus);
    SegmentsOf(s, Stream.Intervals(ri, mcus))
  }

  /** No block of the scan has a coefficient that is out of range. */
  ghost predicate ScanInRange(s: Layout, ri: nat, mcus: seq<Mcu>)
    requires LayoutOk(s) && Shaped(s, mcus)
  {
    IntervalsShaped(s, ri, mcus);
    AllInRange(s, Stream.Intervals(ri, mcus))
  }

  /** MCUs in the current restart interval. */
  function InInterval(ri: nat, n: nat): nat {
    if ri == 0 || n == 0 then n else (n - 1) % ri + 1
  }

  /** One more MCU goes into the last interval, or starts another one if that is full. */
  lemma {:induction false} IntervalsSnoc(ri: nat, mcus: seq<Mcu>, m: Mcu)
    ensures var ints := Stream.Intervals(ri, mcus);
            var last := ints[|ints| - 1];
            |last| == InInterval(ri, |mcus|) && (ri > 0 ==> |last| <= ri) &&
            Stream.Intervals(ri, mcus + [m]) ==
              if ri > 0 && |last| == ri then ints + [[m]] else ints[..|ints| - 1] + [last + [m]]
    decreases |mcus|
  {
    var all := mcus + [m];
    if ri > 0 && |mcus| >= ri {
      assert all[..ri] == mcus[..ri] && all[ri..] == mcus[ri..] + [m];
      if |mcus| == ri {
        assert mcus[ri..] + [m] == [m] && mcus[..ri] == mcus;
        assert Stream.Intervals(ri, [m]) == [[m]];
      } else {
        IntervalsSnoc(ri, mcus[ri..], m);
        SkipInterval(ri, |mcus|);
        var ints, rest := Stream.Intervals(ri, mcus), Stream.Intervals(ri, mcus[ri..]);
        assert ints == [mcus[..ri]] + rest;
        assert ints[|ints| - 1] == rest[|rest| - 1];
        assert ints[..|ints| - 1] == [mcus[..ri]] + rest[..|rest| - 1];
      }
      if |mcus| == ri { FullInterval(ri); }
    } else {
      assert Stream.Intervals(ri, mcus) == [mcus];
      assert [mcus][..0] + [all] == [all];
      if ri > 0 && |mcus| > 0 { SmallInterval(ri, |mcus|); }
    }
  }

  lemma SkipInterval(ri: nat, n: nat)
    requires 0 < ri < n
    ensures InInterval(ri, n) == InInterval(ri, n - ri)
  {
    var q, r := (n - 1 - ri) / ri, (n - 1 - ri) % ri;
    assert n - 1 - ri == q * ri + r;
    MulSucc(q, ri);
    MulSucc(q + 1, ri);
    DivBounds(n - 1, ri, q + 1);
  }

  lemma FullInterval(ri: nat)
    requires ri > 0
    ensures InInterval(ri, ri) == ri
  {
    DivBounds(ri - 1, ri, 0);
  }

  lemma SmallInterval(ri: nat, n: nat)
    requires 0 < n <= ri
    ensures InInterval(ri, n) == n
  {
    DivBounds(n - 1, ri, 0);
  }

  // ----- decoder -----

  /** As in progressive decoding: what lies ahead, the last DC values, restarts_to_go,
      the number of the next marker, and the bytes discarded at restarts. */
  datatype Decoder = Decoder(ahead: Ahead, lastDc: seq<int>, togo: nat, rst: nat, discarded: nat)

  function StartDecoder(s: Layout, ri: nat, bytes: seq<Byte>): Decoder {
    Decoder(Look(bytes), Zeros(s), ri, 0, 0)
  }

  /** process_restart */
  function ProcessRestart(s: Layout, ri: nat, d: Decoder): Option<Decoder> {
    if d.ahead.marker != Stream.Marker(d.rst) then None
    else Some(Decoder(Look(d.ahead.rest), Zeros(s), ri, (d.rst + 1) % 8, d.discarded + |d.ahead.bits| / 8))
  }

  /** decode_mcu */
  function DecodeMcu(s: Layout, T: Tables, ri: nat, d: Decoder, mcu: Mcu): (res: Option<(Decoder, Mcu)>)
    requires TablesFor(s, T) && |d.lastDc| == |s.comps| && |mcu| == |s.membership|
    ensures res.Some? ==> |res.value.0.lastDc| == |s.comps| && |res.value.1| == |mcu|
  {
    match if ri > 0 && d.togo == 0 then ProcessRestart(s, ri, d) else Some(d)
    case None => None
    case Some(d1) =>
      match DecBlocks(s, T, d1.ahead.bits, d1.lastDc, mcu, 0)
      case None => None
      case Some((bits, last, mcu1)) =>
        Some((Decoder(d1.ahead.(bits := bits), last, (d1.togo - 1) % 0x1_0000_0000, d1.rst, d1.discarded), mcu1))
  }

  // ----- round trip -----

  /** MCUs left in the current interval. */
  function Left(ri: nat, d: Decoder, ys: seq<Mcu>): (n: nat)
    ensures n <= |ys|
  {
    if ri == 0 || |ys| <= d.togo then |ys| else d.togo
  }

  /** The decoder is about to read the MCUs ys, the rest of a scan that is followed by
      marker m: their bits lie ahead, with padding before the next marker. */
  ghost predicate Faces(s: Layout, T: Tables, ri: nat, d: Decoder, ys: seq<Mcu>, padding: seq<bool>, m: Byte, rest: seq<Byte>)
    requires SoundFor(s, T)
  {
    |d.lastDc| == |s.comps| && Shaped(s, ys) && |padding| < 8 && d.rst < 8 && d.togo < 0x1_0000_0000 && 0 < m < 0xFF &&
    var n := Left(ri, d, ys);
    var now, later := ys[..n], ys[n..];
    Shaped(s, now) && Shaped(s, later) && SegmentInRange(s, d.lastDc, now) && Covers(T, EncSegment(s, d.lastDc, now).0) &&
    d.ahead.bits == Emit(T, EncSegment(s, d.lastDc, now).0, padding) &&
    if later == [] then d.ahead.marker == m && d.ahead.rest == rest
    else
      ScanInRange(s, ri, later) && Stream.CoversAll(T, ScanSegments(s, ri, later)) && d.ahead.marker == Stream.Marker(d.rst) &&
      d.ahead.rest == Stream.Render(T, ScanSegments(s, ri, later), d.rst + 1, [0xFF, m] + rest)
  }

  /** The segments of a scan: the first interval, and the scan of the others. */
  lemma FirstSegment(s: Layout, T: Tables, ri: nat, ys: seq<Mcu>)
    requires LayoutOk(s) && Shaped(s, ys) && ScanInRange(s, ri, ys) && Stream.CoversAll(T, ScanSegments(s, ri, ys))
    ensures var n := if ri == 0 || |ys| <= ri then |ys| else ri;
            Shaped(s, ys[..n]) && SegmentInRange(s, Zeros(s), ys[..n]) && Covers(T, EncSegment(s, Zeros(s), ys[..n]).0) &&
            ScanSegments(s, ri, ys)[0] == EncSegment(s, Zeros(s), ys[..n]).0 &&
            (n == |ys| ==> |ScanSegments(s, ri, ys)| == 1) &&
            (n < |ys| ==> Shaped(s, ys[n..]) && ScanInRange(s, ri, ys[n..]) && ScanSegments(s, ri, ys)[1..] == ScanSegments(s, ri, ys[n..]))
  {
    hide EncSegment, SegmentInRange, Covers;
    IntervalsShaped(s, ri, ys);
    var ints := Stream.Intervals(ri, ys);
    var n := if ri == 0 || |ys| <= ri then |ys| else ri;
    assert ys[..|ys|] == ys;
    assert ints[0] == ys[..n] && SegmentInRange(s, Zeros(s), ints[0]) && Covers(T, ScanSegments(s, ri, ys)[0]);
    if n < |ys| {
      var more := Stream.Intervals(ri, ys[n..]);
      assert ints == [ys[..n]] + more;
      assert forall i :: 0 <= i < |more| ==> more[i] == ints[i + 1];
    }
  }

  /** Before the first MCU of an interval, with the segments of the scan ahead. */
  lemma FacesSegments(s: Layout, T: Tables, ri: nat, d: Decoder, ys: seq<Mcu>, m: Byte, rest: seq<Byte>)
    requires SoundFor(s, T) && Shaped(s, ys) && ScanInRange(s, ri, ys) && Stream.CoversAll(T, ScanSegments(s, ri, ys))
    requires d.lastDc == Zeros(s) && d.togo == ri < 0x1_0000 && d.rst < 8 && 0 < m < 0xFF
    requires d.ahead == Look(Stream.Render(T, ScanSegments(s, ri, ys), d.rst, [0xFF, m] + rest))
    ensures Faces(s, T, ri, d, ys, Padding(|Emit(T, ScanSegments(s, ri, ys)[0], [])|), m, rest)
  {
    hide EncSegment, SegmentInRange, Covers, Look, Emit, ScanInRange, SegmentBytes;
    FirstSegment(s, T, ri, ys);
    var segs := ScanSegments(s, ri, ys);
    var n := Left(ri, d, ys);
    var bits := Emit(T, segs[0], []);
    EmitRest(T, segs[0], Padding(|bits|));
    if n == |ys| {
      SegmentFound(bits, m, rest);
    } else {
      Stream.RenderMore(T, segs, d.rst, [0xFF, m] + rest);
      SegmentFound(bits, Stream.Marker(d.rst), Stream.Render(T, segs[1..], d.rst + 1, [0xFF, m] + rest));
    }
  }

  /** Passing a restart marker, which is the expected one. Only padding is discarded. */
  lemma RestartFaces(s: Layout, T: Tables, ri: nat, d: Decoder, ys: seq<Mcu>, padding: seq<bool>, m: Byte, rest: seq<Byte>)
      returns (padding1: seq<bool>)
    requires SoundFor(s, T) && Faces(s, T, ri, d, ys, padding, m, rest) && ys != [] && 0 < ri < 0x1_0000 && d.togo == 0
    ensures |d.ahead.bits| < 8 && d.ahead.marker == Stream.Marker(d.rst)
    ensures var r := ProcessRestart(s, ri, d);
            r.Some? && r.value.togo == ri && r.value.discarded == d.discarded && Faces(s, T, ri, r.value, ys, padding1, m, rest)
  {
    hide SegmentInRange, Look, ScanInRange, SegmentBytes, Faces;
    AtRestart(s, T, ri, d, ys, padding, m, rest);
    Stream.RenderMod(T, ScanSegments(s, ri, ys), d.rst + 1, [0xFF, m] + rest);
    FacesSegments(s, T, ri, ProcessRestart(s, ri, d).value, ys, m, rest);
    padding1 := Padding(|Emit(T, ScanSegments(s, ri, ys)[0], [])|);
  }

  lemma AtRestart(s: Layout, T: Tables, ri: nat, d: Decoder, ys: seq<Mcu>, padding: seq<bool>, m: Byte, rest: seq<Byte>)
    requires SoundFor(s, T) && Faces(s, T, ri, d, ys, padding, m, rest) && ys != [] && ri > 0 && d.togo == 0
    ensures |d.ahead.bits| < 8 && d.ahead.marker == Stream.Marker(d.rst) && d.rst < 8 && 0 < m < 0xFF
    ensures Shaped(s, ys) && ScanInRange(s, ri, ys) && Stream.CoversAll(T, ScanSegments(s, ri, ys))
    ensures d.ahead.rest == Stream.Render(T, ScanSegments(s, ri, ys), d.rst + 1, [0xFF, m] + rest)
  {
    hide SegmentInRange, ScanInRange;
    assert ys[..0] == [] && ys[0..] == ys;
    assert EncSegment(s, d.lastDc, []).0 == [];
  }

  lemma OneLess(ys: seq<Mcu>, n: nat)
    requires 0 < n <= |ys|
    ensures ys[..n][0] == ys[0] && ys[..n][1..] == ys[1..][..n - 1] && ys[n..] == ys[1..][n - 1..]
  {
  }

  /** Reading one MCU within an interval. */
  lemma WithinFaces(s: Layout, T: Tables, ri: nat, d: Decoder, ys: seq<Mcu>, padding: seq<bool>, m: Byte, rest: seq<Byte>, blank: Mcu)
    requires SoundFor(s, T) && Faces(s, T, ri, d, ys, padding, m, rest) && ys != [] && (ri > 0 ==> d.togo > 0)
    requires McuBlank(blank) && |blank| == |s.membership| && McuShorts(ys[0])
    ensures var r := DecBlocks(s, T, d.ahead.bits, d.lastDc, blank, 0);
            r.Some? && r.value.2 == ys[0] &&
            Faces(s, T, ri, Decoder(d.ahead.(bits := r.value.0), r.value.1, (d.togo - 1) % 0x1_0000_0000, d.rst, d.discarded),
                  ys[1..], padding, m, rest)
  {
    hide EncBlocks, DecBlocks, BlocksInRange, ScanInRange, ScanSegments, McuShorts, McuBlank, Emit, Sound, Stream.CoversAll, Stream.Render;
    var n := Left(ri, d, ys);
    var now := ys[..n];
    OneLess(ys, n);
    var (toks, last) := EncBlocks(s, d.lastDc, ys[0], 0);
    var more := EncSegment(s, last, now[1..]).0;
    EmitConcat(T, toks, more, padding);
    assert blank[0..] == blank && blank[..0] == ys[0][..0];
    McuInverts(s, T, d.lastDc, blank, ys[0], 0, Emit(T, more, padding));
  }

  /** Reading one MCU, past a restart marker if one is due. */
  lemma NextFaces(s: Layout, T: Tables, ri: nat, d: Decoder, ys: seq<Mcu>, padding: seq<bool>, m: Byte, rest: seq<Byte>, blank: Mcu)
      returns (padding1: seq<bool>)
    requires SoundFor(s, T) && Faces(s, T, ri, d, ys, padding, m, rest) && ys != [] && ri < 0x1_0000
    requires McuBlank(blank) && |blank| == |s.membership| && McuShorts(ys[0])
    ensures ri > 0 && d.togo == 0 ==> |d.ahead.bits| < 8
    ensures |d.lastDc| == |s.comps| && DecodeMcu(s, T, ri, d, blank).Some?
    ensures var (d1, mcu) := DecodeMcu(s, T, ri, d, blank).value;
            mcu == ys[0] && d1.discarded == d.discarded && d1.ahead.marker != 0 && Faces(s, T, ri, d1, ys[1..], padding1, m, rest)
  {
    hide DecBlocks, McuShorts, McuBlank, Faces, Sound, ScanSegments, ScanInRange, Stream.CoversAll, Emit, Look, Padding;
    padding1 := padding;
    MarkerAhead(s, T, ri, d, ys, padding, m, rest);
    var d0 := d;
    if ri > 0 && d.togo == 0 {
      padding1 := RestartFaces(s, T, ri, d, ys, padding, m, rest);
      d0 := ProcessRestart(s, ri, d).value;
    }
    WithinFaces(s, T, ri, d0, ys, padding1, m, rest, blank);
    MarkerAhead(s, T, ri, d0, ys, padding1, m, rest);
  }

  lemma MarkerAhead(s: Layout, T: Tables, ri: nat, d: Decoder, ys: seq<Mcu>, padding: seq<bool>, m: Byte, rest: seq<Byte>)
    requires SoundFor(s, T) && Faces(s, T, ri, d, ys, padding, m, rest)
    ensures d.ahead.marker != 0 && |d.lastDc| == |s.comps|
    ensures ys == [] ==> d.ahead.marker == m && d.ahead.rest == rest && |d.ahead.bits| < 8
  {
    hide SegmentInRange, Covers, ScanInRange, Stream.CoversAll, Stream.Render, ScanSegments;
    if ys == [] {
      assert ys[..0] == [] && ys[0..] == [];
      assert EncSegment(s, d.lastDc, []).0 == [];
    }
  }

  function DecodeMcus(s: Layout, T: Tables, ri: nat, d: Decoder, mcus: seq<Mcu>): (res: Option<(Decoder, seq<Mcu>)>)
    requires TablesFor(s, T) && |d.lastDc| == |s.comps| && Shaped(s, mcus)
    ensures res.Some? ==> |res.value.0.lastDc| == |s.comps| && |res.value.1| == |mcus|
    decreases |mcus|
  {
    if mcus == [] then Some((d, []))
    else
      match DecodeMcu(s, T, ri, d, mcus[0])
      case None => None
      case Some((d1, mcu1)) =>
        match DecodeMcus(s, T, ri, d1, mcus[1..])
        case None => None
        case Some((d2, more)) => Some((d2, [mcu1] + more))
  }

  ghost predicate AllBlank(s: Layout, blanks: seq<Mcu>) {
    forall i :: 0 <= i < |blanks| ==> |blanks[i]| == |s.membership| && McuBlank(blanks[i])
  }

  ghost predicate AllShorts(mcus: seq<Mcu>) {
    forall i :: 0 <= i < |mcus| ==> McuShorts(mcus[i])
  }

  lemma {:induction false} RestFaces(s: Layout, T: Tables, ri: nat, d: Decoder, ys: seq<Mcu>, padding: seq<bool>, m: Byte, rest: seq<Byte>,
                                     blanks: seq<Mcu>)
    requires SoundFor(s, T) && Faces(s, T, ri, d, ys, padding, m, rest) && ri < 0x1_0000
    requires AllBlank(s, blanks) && |blanks| == |ys| && AllShorts(ys)
    ensures |d.lastDc| == |s.comps| && Shaped(s, blanks)
    ensures var r := DecodeMcus(s, T, ri, d, blanks);
            r.Some? && r.value.1 == ys && r.value.0.discarded == d.discarded &&
            r.value.0.ahead.marker == m && r.value.0.ahead.rest == rest && |r.value.0.ahead.bits| < 8
    decreases |ys|
  {
    hide DecodeMcu, McuShorts, McuBlank, Sound, Faces;
    MarkerAhead(s, T, ri, d, ys, padding, m, rest);
    if ys != [] {
      var padding1 := NextFaces(s, T, ri, d, ys, padding, m, rest, blanks[0]);
      var (d1, mcu) := DecodeMcu(s, T, ri, d, blanks[0]).value;
      RestFaces(s, T, ri, d1, ys[1..], padding1, m, rest, blanks[1..]);
    }
  }

  /** A sequential scan that the encoder writes without error, followed by any marker,
      is read back block by block. The decoder meets every restart marker in order,
      discards no data, and ends before the last marker with less than a byte unread. */
  lemma ScanRoundTrips(s: Layout, T: Tables, ri: nat, cs: seq<Mcu>, m: Byte, rest: seq<Byte>, blanks: seq<Mcu>)
    requires SoundFor(s, T) && Shaped(s, cs) && AllShorts(cs) && ScanInRange(s, ri, cs)
    requires Stream.CoversAll(T, ScanSegments(s, ri, cs)) && ri < 0x1_0000 && 0 < m < 0xFF
    requires AllBlank(s, blanks) && |blanks| == |cs| && Shaped(s, blanks)
    ensures var bytes := Stream.Render(T, ScanSegments(s, ri, cs), 0, [0xFF, m] + rest);
            var r := DecodeMcus(s, T, ri, StartDecoder(s, ri, bytes), blanks);
            r.Some? && r.value.1 == cs && r.value.0.discarded == 0 &&
            r.value.0.ahead.marker == m && r.value.0.ahead.rest == rest && |r.value.0.ahead.bits| < 8
  {
    hide Sound, Faces, Look, DecodeMcus, ScanInRange, ScanSegments;
    var bytes := Stream.Render(T, ScanSegments(s, ri, cs), 0, [0xFF, m] + rest);
    FacesSegments(s, T, ri, StartDecoder(s, ri, bytes), cs, m, rest);
    RestFaces(s, T, ri, StartDecoder(s, ri, bytes), cs, Padding(|Emit(T, ScanSegments(s, ri, cs)[0], [])|), m, rest, blanks);
  }
}
