/** Decoding a whole scan from a source that delivers its data in arbitrary pieces:
    however often the decoder has to give up and start an MCU again, the result is
    that of reading all of the data at once. */
module SuspendedScan {
  import opened Wrappers
  import opened Tokens
  import opened ByteStream
  import opened Coefficients
  import opened ScanCoding
  import opened ScanRoundTrip
  import DerivedTables
  import opened DecoderTables
  import opened BitReading
  import opened ProgressiveDecoder
  import Stream = ScanStream

  /** What reading the MCUs from decoder state d comes to. */
  ghost predicate Reads(s: Scan, T: Tables, ri: nat, d: Stream.Decoder, mcus: seq<Mcu>, dN: Stream.Decoder, fin: seq<Mcu>)
    requires ScanOk(s) && TablesFor(s, T) && |d.lastDc| == |s.comps| && McusShaped(s, mcus)
  {
    Stream.DecodeMcus(s, T, ri, d, mcus) == Some((dN, fin))
  }

  lemma McuDiscards(s: Scan, T: Tables, ri: nat, d: Stream.Decoder, mcu: Mcu)
    requires ScanOk(s) && TablesFor(s, T) && |d.lastDc| == |s.comps| && |mcu| == |s.membership|
    requires Stream.DecodeMcu(s, T, ri, d, mcu).Some?
    ensures var d1 := Stream.DecodeMcu(s, T, ri, d, mcu).value.0;
            d1.discarded >= d.discarded &&
            (d1.discarded == d.discarded ==> ri > 0 && d.togo == 0 ==> |d.ahead.bits| < 8) &&
            (d1.ahead.marker != 0 ==> d.ahead.marker != 0)
  {
    hide DecMcu, Look;
  }

  /** A run that discards nothing in all and ends before a marker has met only
      padding before every marker. */
  lemma {:induction false} CleanRun(s: Scan, T: Tables, ri: nat, d: Stream.Decoder, mcus: seq<Mcu>, dN: Stream.Decoder, fin: seq<Mcu>)
    requires ScanOk(s) && TablesFor(s, T) && |d.lastDc| == |s.comps| && McusShaped(s, mcus) && Reads(s, T, ri, d, mcus, dN, fin)
    ensures d.discarded <= dN.discarded && (dN.ahead.marker != 0 ==> d.ahead.marker != 0)
    ensures mcus != [] && d.discarded == dN.discarded ==> ri > 0 && d.togo == 0 ==> |d.ahead.bits| < 8
    decreases mcus
  {
    hide Stream.DecodeMcu;
    if mcus != [] {
      McuDiscards(s, T, ri, d, mcus[0]);
      var d1 := Stream.DecodeMcu(s, T, ri, d, mcus[0]).value.0;
      CleanRun(s, T, ri, d1, mcus[1..], dN, fin[1..]);
    }
  }

  /** The blocks of all MCUs, in separate arrays. */
  ghost predicate Separate(mcus: seq<seq<array<Coef>>>) {
    (forall i :: 0 <= i < |mcus| ==> Blocks64(mcus[i]) && Distinct(mcus[i])) &&
    forall i, j, a, b :: 0 <= i < |mcus| && 0 <= j < |mcus| && i != j && 0 <= a < |mcus[i]| && 0 <= b < |mcus[j]| ==>
      mcus[i][a] != mcus[j][b]
  }

  /** How much of the pending data arrives: at least a byte. */
  function Piece(pending: seq<Byte>, n: nat): (r: nat)
    requires pending != []
    ensures 0 < r <= |pending|
  {
    if n == 0 then 1 else if n < |pending| then n else |pending|
  }

  /** Calls decode_mcu until the MCU is there, delivering more data whenever it
      gives up; schedule says how much each time. */
  method DecodeOne(dec: PhuffDecoder, blocks: seq<array<Coef>>, pending0: seq<Byte>, schedule: seq<nat>, calls0: nat)
      returns (pending: seq<Byte>, calls: nat)
    requires dec.Valid() && dec.AtRestart() && Blocks64(blocks) && Distinct(blocks) && |blocks| == |dec.scan.membership|
    requires Stream.DecodeMcu(dec.scan, dec.T, dec.ri, dec.State(), Contents(blocks)).Some?
    requires Stream.DecodeMcu(dec.scan, dec.T, dec.ri, dec.State(), Contents(blocks)).value.0.ahead.marker != 0
    requires dec.reader.coming == pending0
    modifies dec, dec.reader, blocks
    ensures dec.Valid() && dec.reader.coming == pending
    ensures Stream.DecodeMcu(dec.scan, dec.T, dec.ri, old(dec.State()), old(Contents(blocks))) == Some((dec.State(), Contents(blocks)))
  {
    hide Stream.DecodeMcu, Look;
    pending, calls := pending0, calls0;
    var ok := dec.DecodeMcu(blocks);
    while !ok
      invariant dec.Valid() && dec.reader.coming == pending
      invariant ok ==>
        Stream.DecodeMcu(dec.scan, dec.T, dec.ri, old(dec.State()), old(Contents(blocks))) == Some((dec.State(), Contents(blocks)))
      invariant !ok ==> dec.AtRestart() && !dec.Complete()
      invariant !ok ==>
        Stream.DecodeMcu(dec.scan, dec.T, dec.ri, dec.State(), Contents(blocks))
          == old(Stream.DecodeMcu(dec.scan, dec.T, dec.ri, dec.State(), Contents(blocks)))
      decreases |pending|, if ok then 0 else 1
    {
      McuDiscards(dec.scan, dec.T, dec.ri, dec.State(), Contents(blocks));
      NotAllDelivered(dec.reader);
      var n := Piece(pending, if calls < |schedule| then schedule[calls] else 0);
      dec.reader.Deliver(pending[..n]);
      pending, calls := pending[n..], calls + 1;
      ok := dec.DecodeMcu(blocks);
    }
  }

  /** As long as the end of the segment has not been delivered, there is more to come. */
  lemma NotAllDelivered(reader: BitReader)
    requires !reader.Out(reader.Load()).complete && reader.View(reader.Load()).marker != 0
    ensures reader.coming != []
  {
    hide Look;
    assert reader.input + [] == reader.input;
  }

  /** The arrays of MCU i hold m. */
  ghost predicate Holds(mcus: seq<seq<array<Coef>>>, i: nat, m: Mcu)
    requires i < |mcus| && Blocks64(mcus[i])
    reads mcus[i]
  {
    Contents(mcus[i]) == m
  }

  ghost predicate HoldAll(mcus: seq<seq<array<Coef>>>, ms: seq<Mcu>)
    reads Arrays(mcus)
  {
    |ms| == |mcus| && forall i :: 0 <= i < |mcus| ==> Blocks64(mcus[i]) && Holds(mcus, i, ms[i])
  }

  ghost function Arrays(mcus: seq<seq<array<Coef>>>): set<array<Coef>> {
    set i, a | 0 <= i < |mcus| && 0 <= a < |mcus[i]| :: mcus[i][a]
  }

  lemma HoldsLength(mcus: seq<seq<array<Coef>>>, ms: seq<Mcu>)
    ensures HoldAll(mcus, ms) ==> |ms| == |mcus|
  {
  }

  /** What an MCU's arrays hold, array by array. */
  lemma HoldsEach(mcus: seq<seq<array<Coef>>>, i: nat, m: Mcu)
    requires i < |mcus| && Blocks64(mcus[i])
    ensures Holds(mcus, i, m) <==> |m| == |mcus[i]| && forall b :: 0 <= b < |m| ==> mcus[i][b][..] == m[b]
  {
  }

  /** The same for MCU i of a scan. */
  method DecodeNth(dec: PhuffDecoder, mcus: seq<seq<array<Coef>>>, i: nat, pending0: seq<Byte>, schedule: seq<nat>, calls0: nat,
                   ghost ms0: seq<Mcu>)
      returns (pending: seq<Byte>, calls: nat, ghost ms: seq<Mcu>)
    requires i < |mcus| == |ms0| && Separate(mcus) && HoldAll(mcus, ms0)
    requires dec.Valid() && dec.AtRestart() && Blocks64(mcus[i]) && Distinct(mcus[i]) && Contents(mcus[i]) == ms0[i]
    requires |ms0[i]| == |dec.scan.membership| && dec.reader.coming == pending0
    requires Stream.DecodeMcu(dec.scan, dec.T, dec.ri, dec.State(), ms0[i]).Some?
    requires Stream.DecodeMcu(dec.scan, dec.T, dec.ri, dec.State(), ms0[i]).value.0.ahead.marker != 0
    modifies dec, dec.reader, mcus[i]
    ensures dec.Valid() && dec.reader.coming == pending && |ms| == |mcus| && HoldAll(mcus, ms)
    ensures ms == ms0[i := Stream.DecodeMcu(dec.scan, dec.T, dec.ri, old(dec.State()), ms0[i]).value.1]
    ensures dec.State() == Stream.DecodeMcu(dec.scan, dec.T, dec.ri, old(dec.State()), ms0[i]).value.0
  {
    hide Stream.DecodeMcu;
    pending, calls := DecodeOne(dec, mcus[i], pending0, schedule, calls0);
    ms := ms0[i := Contents(mcus[i])];
    forall j | 0 <= j < |mcus| ensures Holds(mcus, j, ms[j]) {
      assert old(Holds(mcus, j, ms0[j]));
      if j != i {
        assert forall b :: 0 <= b < |mcus[j]| ==> mcus[j][b] !in mcus[i];
        HoldsEach(mcus, j, ms0[j]);
      }
    }
  }

  /** The first i MCUs are final, and reading on from d completes the others. */
  ghost predicate Along(s: Scan, T: Tables, ri: nat, d: Stream.Decoder, ms: seq<Mcu>, i: nat, dN: Stream.Decoder, fin: seq<Mcu>)
    requires ScanOk(s) && TablesFor(s, T) && |d.lastDc| == |s.comps|
  {
    i <= |ms| == |fin| && McusShaped(s, ms) && ms[..i] == fin[..i] && McusShaped(s, ms[i..]) &&
    Reads(s, T, ri, d, ms[i..], dN, fin[i..])
  }

  lemma AtStart(s: Scan, T: Tables, ri: nat, d: Stream.Decoder, start: seq<Mcu>, dN: Stream.Decoder, fin: seq<Mcu>)
    requires ScanOk(s) && TablesFor(s, T) && McusShaped(s, start) && |d.lastDc| == |s.comps|
    requires Reads(s, T, ri, d, start, dN, fin)
    ensures Along(s, T, ri, d, start, 0, dN, fin)
  {
    hide Stream.DecodeMcu;
    assert start[0..] == start && fin[0..] == fin;
  }

  lemma AtEnd(s: Scan, T: Tables, ri: nat, d: Stream.Decoder, ms: seq<Mcu>, dN: Stream.Decoder, fin: seq<Mcu>)
    requires ScanOk(s) && TablesFor(s, T) && |d.lastDc| == |s.comps| && Along(s, T, ri, d, ms, |ms|, dN, fin)
    ensures ms == fin && d == dN
  {
    hide Stream.DecodeMcu;
    assert ms[..|ms|] == ms && fin[..|ms|] == fin;
    assert ms[|ms|..] == [];
  }

  lemma NextMcu(s: Scan, T: Tables, ri: nat, d: Stream.Decoder, mcus: seq<seq<array<Coef>>>, ms: seq<Mcu>, i: nat,
                dN: Stream.Decoder, fin: seq<Mcu>)
    requires ScanOk(s) && TablesFor(s, T) && |d.lastDc| == |s.comps| && Along(s, T, ri, d, ms, i, dN, fin) && i < |ms|
    requires |mcus| == |ms| && Separate(mcus) && HoldAll(mcus, ms)
    requires d.discarded == dN.discarded && dN.ahead.marker != 0
    ensures Blocks64(mcus[i]) && Distinct(mcus[i]) && Contents(mcus[i]) == ms[i] && |ms[i]| == |s.membership|
    ensures ri > 0 && d.togo == 0 ==> |d.ahead.bits| < 8
    ensures Stream.DecodeMcu(s, T, ri, d, ms[i]).Some?
    ensures var (d1, m) := Stream.DecodeMcu(s, T, ri, d, ms[i]).value;
            d1.ahead.marker != 0 && d1.discarded == dN.discarded && Along(s, T, ri, d1, ms[i := m], i + 1, dN, fin)
  {
    hide Stream.DecodeMcu;
    assert Holds(mcus, i, ms[i]);
    CleanRun(s, T, ri, d, ms[i..], dN, fin[i..]);
    var (d1, m) := Stream.DecodeMcu(s, T, ri, d, ms[i]).value;
    McuDiscards(s, T, ri, d, ms[i]);
    var ms1 := ms[i := m];
    assert ms[i..][1..] == ms1[i + 1..] && fin[i..][1..] == fin[i + 1..];
    CleanRun(s, T, ri, d1, ms1[i + 1..], dN, fin[i + 1..]);
  }

  /** Decodes a scan from a source that delivers data as scheduled. If reading all of
      the data at once turns start into fin and discards nothing, so does this; and it
      stops at the same place. */
  method DecodeScan(reader: BitReader, s: Scan, ri: nat, tables: map<TableId, DecTable>, ghost T: Tables,
                    pending0: seq<Byte>, schedule: seq<nat>, calls0: nat,
                    mcus: seq<seq<array<Coef>>>, ghost start: seq<Mcu>, ghost dN: Stream.Decoder, ghost fin: seq<Mcu>)
      returns (pending: seq<Byte>, calls: nat)
    requires ScanOk(s) && TablesFor(s, T) && TablesRead(tables, T)
    requires forall id :: id in T && id.Dc? ==> DerivedTables.SymbolsFit(tables[id].pub, 15)
    requires Separate(mcus) && HoldAll(mcus, start) && McusShaped(s, start)
    requires reader.unreadMarker == 0 && reader.coming == pending0
    requires Reads(s, T, ri, Stream.StartDecoder(s, ri, reader.Rest()), start, dN, fin)
    requires dN.discarded == 0 && dN.ahead.marker != 0
    modifies reader, Arrays(mcus)
    ensures HoldAll(mcus, fin)
    ensures reader.coming == pending && reader.View(reader.Load()) == dN.ahead
  {
    hide Stream.DecodeMcu, Look, TablesRead, TablesFor, DerivedTables.SymbolsFit, HoldAll, Separate, Reads, ViewOf, McusShaped;
    reader.StartPass();
    ghost var data := reader.Rest();
    var dec := new PhuffDecoder(s, ri, tables, T, reader);
    pending, calls := pending0, calls0;
    ghost var ms := start;
    HoldsLength(mcus, start);
    AtStart(s, T, ri, Stream.StartDecoder(s, ri, data), start, dN, fin);
    NothingHeld(reader.Load(), reader.coming);
    for i := 0 to |mcus|
      invariant dec.Valid() && dec.State().discarded == 0 && reader.coming == pending
      invariant |ms| == |mcus| && HoldAll(mcus, ms) && Along(s, T, ri, dec.State(), ms, i, dN, fin)
    {
      NextMcu(s, T, ri, dec.State(), mcus, ms, i, dN, fin);
      pending, calls, ms := DecodeNth(dec, mcus, i, pending, schedule, calls, ms);
    }
    AtEnd(s, T, ri, dec.State(), ms, dN, fin);
  }

  /** A scan the encoder has written, followed by any marker, brings all blocks to
      the precision of the scan, whatever the schedule of deliveries. */
  method DecodeEncodedScan(s: Scan, ri: nat, tables: map<TableId, DecTable>, ghost T: Tables, data: seq<Byte>, schedule: seq<nat>,
                           mcus: seq<seq<array<Coef>>>, ghost prevs: seq<Mcu>, ghost cs: seq<Mcu>, ghost m: Byte, ghost rest: seq<Byte>)
    requires ScanOk(s) && SoundTables(s, T) && TablesRead(tables, T)
    requires forall id :: id in T && id.Dc? ==> DerivedTables.SymbolsFit(tables[id].pub, 15)
    requires Separate(mcus) && HoldAll(mcus, prevs)
    requires McusReady(s, prevs, cs) && McusShaped(s, cs) && McusShaped(s, prevs) && |prevs| == |cs|
    requires Stream.EncodesOk(s, ri, Stream.StartEncoder(s, ri), cs) && Stream.CoversAll(T, Stream.ScanSegments(s, ri, cs))
    requires ri < 0x1_0000 && 0 < m < 0xFF
    requires data == Stream.Render(T, Stream.ScanSegments(s, ri, cs), 0, [0xFF, m] + rest)
    modifies Arrays(mcus)
    ensures HoldAll(mcus, McusAfter(s, prevs, cs))
  {
    hide Stream.DecodeMcus, Look, TablesRead, DerivedTables.SymbolsFit, HoldAll, Separate, McusReady, McusAfter;
    hide Stream.EncodesOk, Stream.CoversAll, Stream.ScanSegments, Stream.Render, McusShaped;
    Stream.ScanRoundTrips(s, T, ri, prevs, cs, m, rest);
    ghost var (dN, fin) := Stream.DecodeMcus(s, T, ri, Stream.StartDecoder(s, ri, data), prevs).value;
    var reader := new BitReader(data);
    assert [] + data == data;
    var _, _ := DecodeScan(reader, s, ri, tables, T, data, schedule, 0, mcus, prevs, dN, fin);
  }
}
