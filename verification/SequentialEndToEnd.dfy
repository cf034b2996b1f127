/** From the encoder's coefficients to the decoder's: a sequential scan coded with
    optimal tables and decoded from pieces of its bytes. */
module SequentialEndToEnd {
  import opened Bits
  import opened Wrappers
  import opened Tokens
  import opened ByteStream
  import opened AcCoding
  import opened Coefficients
  import opened DcCoding
  import HuffmanCode
  import opened HuffmanMerge
  import opened DerivedTables
  import opened DecoderTables
  import opened BitReading
  import opened SymbolOutput
  import opened SequentialCoding
  import opened SequentialScan
  import opened SequentialEncoder
  import opened SequentialDecoder
  import opened OptimizedScan
  import opened SuspendedScan
  import ScanSymbols
  import ScanPasses
  import EndToEnd
  import OptimalTable
  import Progressive = ProgressiveDecoder
  import Stream = ScanStream

  // ----- decoding from a source that may run dry -----

  lemma McuNeedsMarker(s: Layout, T: Tables, ri: nat, d: Decoder, mcu: Mcu)
    requires TablesFor(s, T) && |d.lastDc| == |s.comps| && |mcu| == |s.membership|
    requires SequentialScan.DecodeMcu(s, T, ri, d, mcu).Some?
    ensures SequentialScan.DecodeMcu(s, T, ri, d, mcu).value.0.ahead.marker != 0 ==> d.ahead.marker != 0
  {
    hide DecBlocks, Look;
  }

  /** Calls decode_mcu until the MCU is there, delivering more data whenever it gives
      up; schedule says how much each time. */
  method DecodeOne(dec: HuffDecoder, blocks: seq<array<Coef>>, pending0: seq<Byte>, schedule: seq<nat>, calls0: nat)
      returns (pending: seq<Byte>, calls: nat)
    requires dec.Valid() && dec.AtRestart() && Progressive.Blocks64(blocks) && Progressive.Distinct(blocks)
    requires |blocks| == |dec.layout.membership| && dec.reader.coming == pending0
    requires SequentialScan.DecodeMcu(dec.layout, dec.T, dec.ri, dec.State(), Progressive.Contents(blocks)).Some?
    requires SequentialScan.DecodeMcu(dec.layout, dec.T, dec.ri, dec.State(), Progressive.Contents(blocks)).value.0.ahead.marker != 0
    modifies dec, dec.reader, blocks
    ensures dec.Valid() && dec.reader.coming == pending
    ensures SequentialScan.DecodeMcu(dec.layout, dec.T, dec.ri, old(dec.State()), old(Progressive.Contents(blocks)))
         == Some((dec.State(), Progressive.Contents(blocks)))
  {
    hide SequentialScan.DecodeMcu, Look;
    pending, calls := pending0, calls0;
    var ok := dec.DecodeMcu(blocks);
    while !ok
      invariant dec.Valid() && dec.reader.coming == pending
      invariant ok ==>
        SequentialScan.DecodeMcu(dec.layout, dec.T, dec.ri, old(dec.State()), old(Progressive.Contents(blocks)))
          == Some((dec.State(), Progressive.Contents(blocks)))
      invariant !ok ==> dec.AtRestart() && !dec.Complete()
      invariant !ok ==>
        SequentialScan.DecodeMcu(dec.layout, dec.T, dec.ri, dec.State(), Progressive.Contents(blocks))
          == old(SequentialScan.DecodeMcu(dec.layout, dec.T, dec.ri, dec.State(), Progressive.Contents(blocks)))
      decreases |pending|, if ok then 0 else 1
    {
      McuNeedsMarker(dec.layout, dec.T, dec.ri, dec.State(), Progressive.Contents(blocks));
      NotAllDelivered(dec.reader);
      var n := Piece(pending, if calls < |schedule| then schedule[calls] else 0);
      dec.reader.Deliver(pending[..n]);
      pending, calls := pending[n..], calls + 1;
      ok := dec.DecodeMcu(blocks);
    }
  }

  /** The same for MCU i of a scan. */
  method DecodeNth(dec: HuffDecoder, mcus: seq<seq<array<Coef>>>, i: nat, pending0: seq<Byte>, schedule: seq<nat>, calls0: nat,
                   ghost ms0: seq<Mcu>)
      returns (pending: seq<Byte>, calls: nat, ghost ms: seq<Mcu>)
    requires i < |mcus| == |ms0| && Separate(mcus) && HoldAll(mcus, ms0)
    requires dec.Valid() && dec.AtRestart() && Progressive.Blocks64(mcus[i]) && Progressive.Distinct(mcus[i])
    requires Progressive.Contents(mcus[i]) == ms0[i] && |ms0[i]| == |dec.layout.membership| && dec.reader.coming == pending0
    requires SequentialScan.DecodeMcu(dec.layout, dec.T, dec.ri, dec.State(), ms0[i]).Some?
    requires SequentialScan.DecodeMcu(dec.layout, dec.T, dec.ri, dec.State(), ms0[i]).value.0.ahead.marker != 0
    modifies dec, dec.reader, mcus[i]
    ensures dec.Valid() && dec.reader.coming == pending && |ms| == |mcus| && HoldAll(mcus, ms)
    ensures ms == ms0[i := SequentialScan.DecodeMcu(dec.layout, dec.T, dec.ri, old(dec.State()), ms0[i]).value.1]
    ensures dec.State() == SequentialScan.DecodeMcu(dec.layout, dec.T, dec.ri, old(dec.State()), ms0[i]).value.0
  {
    hide SequentialScan.DecodeMcu;
    pending, calls := DecodeOne(dec, mcus[i], pending0, schedule, calls0);
    ms := ms0[i := Progressive.Contents(mcus[i])];
    forall j | 0 <= j < |mcus| ensures SuspendedScan.Holds(mcus, j, ms[j]) {
      assert old(SuspendedScan.Holds(mcus, j, ms0[j]));
      if j != i {
        assert forall b :: 0 <= b < |mcus[j]| ==> mcus[j][b] !in mcus[i];
        HoldsEach(mcus, j, ms0[j]);
      }
    }
  }

  /** The first i MCUs have been read, the others are still blank. */
  ghost predicate PartlyRead(s: Layout, ms: seq<Mcu>, cs: seq<Mcu>, i: nat) {
    i <= |ms| == |cs| && ms[..i] == cs[..i] && forall k :: i <= k < |ms| ==> |ms[k]| == |s.membership| && McuBlank(ms[k])
  }

  lemma ReadNext(s: Layout, ms: seq<Mcu>, cs: seq<Mcu>, i: nat)
    requires PartlyRead(s, ms, cs, i) && i < |ms|
    ensures PartlyRead(s, ms[i := cs[i]], cs, i + 1)
  {
    hide McuBlank;
    var ms1 := ms[i := cs[i]];
    assert ms1[..i + 1] == ms[..i] + [cs[i]] && cs[..i + 1] == cs[..i] + [cs[i]];
  }

  lemma MembersOf(mcus: seq<seq<array<Coef>>>, ms: seq<Mcu>, i: nat)
    requires Separate(mcus) && |ms| == |mcus| && HoldAll(mcus, ms) && i < |mcus|
    ensures Progressive.Blocks64(mcus[i]) && Progressive.Distinct(mcus[i]) && Progressive.Contents(mcus[i]) == ms[i]
  {
    assert SuspendedScan.Holds(mcus, i, ms[i]);
  }

  /** Decodes a scan that the encoder has written, from a source that delivers data as
      scheduled, into blank blocks. */
  method DecodeScan(s: Layout, ri: nat, tables: map<TableId, DecTable>, ghost T: Tables, data: seq<Byte>, schedule: seq<nat>,
                    mcus: seq<seq<array<Coef>>>, ghost start: seq<Mcu>, ghost cs: seq<Mcu>, ghost m: Byte, ghost rest: seq<Byte>)
    requires SoundFor(s, T) && Progressive.TablesRead(tables, T)
    requires forall id :: id in T && id.Dc? ==> SymbolsFit(tables[id].pub, 15)
    requires Separate(mcus) && HoldAll(mcus, start) && PartlyRead(s, start, cs, 0)
    requires Shaped(s, cs) && AllShorts(cs) && ScanInRange(s, ri, cs) && Stream.CoversAll(T, ScanSegments(s, ri, cs))
    requires ri < 0x1_0000 && 0 < m < 0xFF
    requires data == Stream.Render(T, ScanSegments(s, ri, cs), 0, [0xFF, m] + rest)
    modifies Arrays(mcus)
    ensures HoldAll(mcus, cs)
  {
    hide SequentialScan.DecodeMcu, Look, Progressive.TablesRead, SymbolsFit, HoldAll, Separate, ViewOf, ScanInRange, ScanSegments;
    hide Faces, Sound, Stream.CoversAll, Stream.Render, McuShorts, McuBlank, PartlyRead;
    var reader := new BitReader(data);
    var dec := new HuffDecoder(s, ri, tables, T, reader);
    var pending, calls: nat := data, 0;
    ghost var ms := start;
    HoldsLength(mcus, start);
    SameLength(s, start, cs);
    assert [] + data == data;
    Progressive.NothingHeld(reader.Load(), data);
    SegmentsCovered(T, ScanSegments(s, ri, cs));
    ghost var padding := Padding(|Emit(T, ScanSegments(s, ri, cs)[0], [])|);
    FacesSegments(s, T, ri, dec.State(), cs, m, rest);
    assert cs[0..] == cs;
    for i := 0 to |mcus|
      invariant dec.Valid() && reader.coming == pending
      invariant |ms| == |mcus| && |cs| == |mcus| && HoldAll(mcus, ms) && PartlyRead(s, ms, cs, i)
      invariant Faces(s, T, ri, dec.State(), cs[i..], padding, m, rest)
    {
      MembersOf(mcus, ms, i);
      Blankness(s, ms, cs, i);
      assert cs[i..][0] == cs[i] && cs[i..][1..] == cs[i + 1..];
      padding := NextFaces(s, T, ri, dec.State(), cs[i..], padding, m, rest, ms[i]);
      ReadNext(s, ms, cs, i);
      pending, calls, ms := DecodeNth(dec, mcus, i, pending, schedule, calls, ms);
    }
    AllRead(s, ms, cs);
  }

  lemma SegmentsCovered(T: Tables, segs: seq<seq<Token>>)
    requires Stream.CoversAll(T, segs) && segs != []
    ensures Covers(T, segs[0])
  {
  }

  lemma Blankness(s: Layout, ms: seq<Mcu>, cs: seq<Mcu>, i: nat)
    requires PartlyRead(s, ms, cs, i) && i < |ms|
    ensures |ms[i]| == |s.membership| && McuBlank(ms[i])
  {
  }

  lemma AllRead(s: Layout, ms: seq<Mcu>, cs: seq<Mcu>)
    requires PartlyRead(s, ms, cs, |ms|)
    ensures ms == cs
  {
    assert ms[..|ms|] == ms && cs[..|cs|] == cs;
  }

  lemma SameLength(s: Layout, ms: seq<Mcu>, cs: seq<Mcu>)
    requires PartlyRead(s, ms, cs, 0)
    ensures |ms| == |cs|
  {
  }

  // ----- every table of a scan is used -----

  /** Every component of the scan has blocks in an MCU. */
  predicate EveryCompCoded(s: Layout) {
    forall ci :: 0 <= ci < |s.comps| ==> ci in s.membership
  }

  lemma AcUsed(id: TableId, c: Block)
    ensures ScanSymbols.Uses(AcTokens(id, c), id)
  {
    hide FirstFrom;
    var code := FirstFrom(Whole(id), c, 1, 0);
    ScanSymbols.FirstCoded(Whole(id), c, 1, 0);
    ScanSymbols.FirstRunOnly(Whole(id), c, 1, 0);
    if code.toks != [] {
      ScanSymbols.UsesFirst(code.toks, id);
    } else {
      ScanSymbols.UsesFirst([Sym(id, 0)], id);
    }
    ScanSymbols.UsesPart(code.toks, if code.r > 0 then [Sym(id, 0)] else [], id);
  }

  lemma {:induction false} McuUses(s: Layout, lastDc: seq<int>, mcu: Mcu, b: nat, x: nat)
    requires LayoutOk(s) && |lastDc| == |s.comps| && |mcu| == |s.membership| && b <= x < |mcu|
    ensures ScanSymbols.Uses(EncBlocks(s, lastDc, mcu, b).0, DcId(s, x)) && ScanSymbols.Uses(EncBlocks(s, lastDc, mcu, b).0, AcId(s, x))
    decreases |mcu| - b
  {
    hide ScanSymbols.Uses, AcTokens;
    var ci := s.membership[b];
    var diff, ac := DiffTokens(DcId(s, b), mcu[b][0] - lastDc[ci]), AcTokens(AcId(s, b), mcu[b]);
    var more := EncBlocks(s, lastDc[ci := mcu[b][0]], mcu, b + 1).0;
    ScanSymbols.UsesPart(diff + ac, more, DcId(s, x));
    ScanSymbols.UsesPart(diff + ac, more, AcId(s, x));
    if b == x {
      ScanSymbols.UsesFirst(diff, DcId(s, x));
      AcUsed(AcId(s, x), mcu[b]);
      ScanSymbols.UsesPart(diff, ac, DcId(s, x));
      ScanSymbols.UsesPart(diff, ac, AcId(s, x));
    } else {
      McuUses(s, lastDc[ci := mcu[b][0]], mcu, b + 1, x);
    }
  }

  /** A nonempty scan uses every table in its first segment. */
  lemma ScanUses(s: Layout, ri: nat, mcus: seq<Mcu>, id: TableId)
    requires LayoutOk(s) && Shaped(s, mcus) && mcus != [] && EveryCompCoded(s) && id in ScanTables(s)
    ensures ScanSymbols.Uses(ScanSegments(s, ri, mcus)[0], id)
  {
    hide ScanSymbols.Uses, EncBlocks;
    IntervalsShaped(s, ri, mcus);
    ScanSymbols.FirstInterval(ri, mcus);
    var xs := Stream.Intervals(ri, mcus)[0];
    var (toks, last) := EncBlocks(s, Zeros(s), xs[0], 0);
    var more := EncSegment(s, last, xs[1..]).0;
    var ci := CompOf(s, id);
    var x :| 0 <= x < |s.membership| && s.membership[x] == ci;
    McuUses(s, Zeros(s), xs[0], 0, x);
    ScanSymbols.UsesPart(toks, more, id);
  }

  lemma CompOf(s: Layout, id: TableId) returns (ci: nat)
    requires id in ScanTables(s) && EveryCompCoded(s)
    ensures ci < |s.comps| && ci in s.membership && (id == Dc(s.comps[ci].dcTbl) || id == Ac(s.comps[ci].acTbl))
  {
    if id in (set ci | 0 <= ci < |s.comps| :: Dc(s.comps[ci].dcTbl)) {
      ci :| 0 <= ci < |s.comps| && id == Dc(s.comps[ci].dcTbl);
    } else {
      ci :| 0 <= ci < |s.comps| && id == Ac(s.comps[ci].acTbl);
    }
  }

  // ----- raw fields are never empty -----

  lemma BlockRaws(s: Layout, b: nat, last: int, c: Block)
    requires LayoutOk(s) && b < |s.membership|
    ensures RawsOk(BlockTokens(s, b, last, c))
  {
    hide BitLen, FirstFrom;
    var id := AcId(s, b);
    var code := FirstFrom(Whole(id), c, 1, 0);
    ScanSymbols.FirstRaws(Whole(id), c, 1, 0);
    ScanSymbols.RawsPart(code.toks, if code.r > 0 then [Sym(id, 0)] else []);
    ScanSymbols.RawsPart(DiffTokens(DcId(s, b), c[0] - last), AcTokens(id, c));
  }

  lemma {:induction false} McuRaws(s: Layout, lastDc: seq<int>, mcu: Mcu, b: nat)
    requires LayoutOk(s) && |lastDc| == |s.comps| && |mcu| == |s.membership|
    ensures RawsOk(EncBlocks(s, lastDc, mcu, b).0)
    decreases |mcu| - b
  {
    hide BlockTokens;
    if b < |mcu| {
      var ci := s.membership[b];
      BlockRaws(s, b, lastDc[ci], mcu[b]);
      McuRaws(s, lastDc[ci := mcu[b][0]], mcu, b + 1);
      ScanSymbols.RawsPart(BlockTokens(s, b, lastDc[ci], mcu[b]), EncBlocks(s, lastDc[ci := mcu[b][0]], mcu, b + 1).0);
    }
  }

  lemma {:induction false} SegmentRaws(s: Layout, lastDc: seq<int>, mcus: seq<Mcu>)
    requires LayoutOk(s) && |lastDc| == |s.comps| && Shaped(s, mcus)
    ensures RawsOk(EncSegment(s, lastDc, mcus).0)
    decreases |mcus|
  {
    hide EncBlocks;
    if mcus != [] {
      McuRaws(s, lastDc, mcus[0], 0);
      var (toks, last) := EncBlocks(s, lastDc, mcus[0], 0);
      SegmentRaws(s, last, mcus[1..]);
      ScanSymbols.RawsPart(toks, EncSegment(s, last, mcus[1..]).0);
    }
  }

  /** Gathering statistics raises no error but for coefficients out of range. */
  lemma ScanRaws(s: Layout, ri: nat, mcus: seq<Mcu>, T: Tables)
    requires LayoutOk(s) && Shaped(s, mcus)
    ensures AcceptsAll(true, T, ScanSegments(s, ri, mcus))
  {
    hide RawsOk, EncSegment;
    IntervalsShaped(s, ri, mcus);
    var ints, segs := Stream.Intervals(ri, mcus), ScanSegments(s, ri, mcus);
    forall i | 0 <= i < |segs| ensures Acceptable(true, T, segs[i]) {
      SegmentRaws(s, Zeros(s), ints[i]);
    }
  }

  // ----- optimal tables -----

  /** The statistics of a scan meet the needs of table generation. */
  lemma TallyBounds(s: Layout, ri: nat, mcus: seq<Mcu>, id: TableId)
    requires LayoutOk(s) && Shaped(s, mcus) && mcus != [] && EveryCompCoded(s) && id in ScanTables(s)
    requires SymbolsInAll(ScanTables(s), ScanSegments(s, ri, mcus))
    ensures 1 <= Live(Tally(ScanSegments(s, ri, mcus), id), 256) <= 254
  {
    hide Live, CountAll, ScanSegments, ScanTables;
    var segs := ScanSegments(s, ri, mcus);
    var f := Tally(segs, id);
    ScanUses(s, ri, mcus, id);
    var i :| 0 <= i < |segs[0]| && segs[0][i].Sym? && segs[0][i].id == id;
    assert SymbolsIn(ScanTables(s), segs[0]);
    CountAllPositive(segs, 0, i);
    var x := segs[0][i].s;
    LiveTwo(f, x, x, 256);
    CountNowhere(segs, ScanTables(s), id, 15);
    CountNowhere(segs, ScanTables(s), id, 31);
    LiveMissing(f, 256);
  }

  /** One table, unless it has been made before. */
  method MakeOnce(id: TableId, counts: map<TableId, seq<nat>>, ghost ids: set<TableId>, ghost segs: seq<seq<Token>>,
                  ht0: map<TableId, HuffmanCode.HuffTbl>, et0: map<TableId, EncTable>)
      returns (ok: bool, ht: map<TableId, HuffmanCode.HuffTbl>, et: map<TableId, EncTable>)
    requires counts.Keys == ids && CountsAre(counts, segs) && SymbolsInAll(ids, segs) && id in ids && Generable(segs, id)
    requires AllMadeFor(ht0, segs) && AllDerive(ht0, et0) && !AnyTooLong(ht0.Keys, segs)
    ensures ok <==> !OptimalTable.TooLong(Tally(segs, id))
    ensures ok ==> ht.Keys == ht0.Keys + {id} && AllMadeFor(ht, segs) && AllDerive(ht, et)
  {
    hide Generable, MadeFor, Derives, CountOf, SymbolsInAll, AllMadeFor, AllDerive, OptimalTable.TooLong;
    ok, ht, et := true, ht0, et0;
    if id !in ht {
      assert CountOf(counts[id], id, segs);
      CountsSized(counts[id], id, segs);
      var made := MakeTable(counts[id], id, ids, segs);
      if made.None? {
        ok := false;
        return;
      }
      OneMore(ht, et, id, made.value.0, made.value.1, segs);
      ht := ht[id := made.value.0];
      et := et[id := made.value.1];
    }
  }

  /** The tables of the first n components. */
  function Seen(s: Layout, n: nat): set<TableId>
    requires n <= |s.comps|
  {
    (set ci | 0 <= ci < n :: Dc(s.comps[ci].dcTbl)) + (set ci | 0 <= ci < n :: Ac(s.comps[ci].acTbl))
  }

  lemma SeenNext(s: Layout, n: nat)
    requires n < |s.comps|
    ensures Seen(s, n + 1) == Seen(s, n) + {Dc(s.comps[n].dcTbl)} + {Ac(s.comps[n].acTbl)}
    ensures Dc(s.comps[n].dcTbl) in ScanTables(s) && Ac(s.comps[n].acTbl) in ScanTables(s)
  {
  }

  /** finish_pass_gather: each component's tables, but none twice. */
  method MakeTables(s: Layout, counts: map<TableId, seq<nat>>, ghost segs: seq<seq<Token>>)
      returns (ok: bool, ht: map<TableId, HuffmanCode.HuffTbl>, et: map<TableId, EncTable>)
    requires counts.Keys == ScanTables(s) && CountsAre(counts, segs) && SymbolsInAll(ScanTables(s), segs)
    requires forall id :: id in ScanTables(s) ==> Generable(segs, id)
    ensures ok <==> !AnyTooLong(ScanTables(s), segs)
    ensures ok ==> ht.Keys == ScanTables(s) && AllMadeFor(ht, segs) && AllDerive(ht, et)
  {
    hide Generable, CountsAre, SymbolsInAll, ScanTables, Seen, AllMadeFor, AllDerive, OptimalTable.TooLong;
    ok, ht, et := true, map[], map[];
    NoneSeen(s);
    NoTables(ht, et, segs);
    for ci := 0 to |s.comps|
      invariant ht.Keys == Seen(s, ci) && AllMadeFor(ht, segs) && AllDerive(ht, et) && !AnyTooLong(ht.Keys, segs)
    {
      SeenNext(s, ci);
      ok, ht, et := MakeOnce(Dc(s.comps[ci].dcTbl), counts, ScanTables(s), segs, ht, et);
      if !ok { return; }
      ok, ht, et := MakeOnce(Ac(s.comps[ci].acTbl), counts, ScanTables(s), segs, ht, et);
      if !ok { return; }
    }
  }

  lemma NoneSeen(s: Layout)
    ensures Seen(s, 0) == {} && Seen(s, |s.comps|) == ScanTables(s)
  {
  }

  /** Codes a scan with optimal tables. It fails exactly if a coefficient is out of range or
      Huffman's algorithm finds a code of more than 32 bits, which takes more than nine
      million symbols: the tables made from the statistics are legal, and no code is
      missing in the output pass. */
  method EncodeOptimized(s: Layout, ri: nat, mcus: seq<Mcu>) returns (r: Result<Encoded, EncodeError>)
    requires LayoutOk(s) && Shaped(s, mcus) && mcus != [] && EveryCompCoded(s)
    requires forall id :: id in ScanTables(s) ==> Total(Tally(ScanSegments(s, ri, mcus), id), 256) < MAX_COUNT
    ensures r == Err(BadCoef) <==> !ScanInRange(s, ri, mcus)
    ensures r == Err(CodeTooLong) <==> ScanInRange(s, ri, mcus) && AnyTooLong(ScanTables(s), ScanSegments(s, ri, mcus))
    ensures (forall id :: id in ScanTables(s) ==> Total(Tally(ScanSegments(s, ri, mcus), id), 256) + 1 < 9_227_465) ==>
      r != Err(CodeTooLong)
    ensures r.Ok? ==> AllValid(r.value.tables) && r.value.tables.Keys == ScanTables(s)
    ensures r.Ok? ==> AllMadeFor(r.value.tables, ScanSegments(s, ri, mcus))
    ensures r.Ok? ==>
      Stream.CoversAll(CodingsOf(r.value.tables), ScanSegments(s, ri, mcus)) &&
      r.value.bytes == Stream.Render(CodingsOf(r.value.tables), ScanSegments(s, ri, mcus), 0, [])
  {
    hide ScanSegments, ScanInRange, Stream.Render, Stream.CoversAll, AcceptsAll, CountsAre, SymbolsInAll;
    hide AllMadeFor, DerivesAll, Live, Total, ScanTables, CodesCounted, EveryCompCoded, AllValid, Shaped, OptimalTable.TooLong, Tally;
    ghost var segs := ScanSegments(s, ri, mcus);
    ghost var none: Tables := map[];
    NoneDerived(none);
    ScanRaws(s, ri, mcus, none);
    var ok, counts, bytes := EncodePass(s, ri, true, map[], none, mcus);
    if !ok {
      return Err(BadCoef);
    }
    forall id | id in ScanTables(s) ensures Generable(segs, id) {
      TallyBounds(s, ri, mcus, id);
    }
    if forall id :: id in ScanTables(s) ==> Total(Tally(segs, id), 256) + 1 < 9_227_465 {
      SmallTablesFit(ScanTables(s), segs);
    }
    var ht: map<TableId, HuffmanCode.HuffTbl>, et: map<TableId, EncTable>;
    ok, ht, et := MakeTables(s, counts, segs);
    if !ok {
      return Err(CodeTooLong);
    }
    ghost var T := CodingsOf(ht);
    MadeCodes(ht, counts, segs);
    ScanRaws(s, ri, mcus, T);
    StatisticsCover(counts, T, segs);
    ScanPasses.AcceptedCovers(T, segs);
    ok, counts, bytes := EncodePass(s, ri, false, et, T, mcus);
    return Ok(Encoded(bytes, ht));
  }

  lemma SoundCodings(s: Layout, ht: map<TableId, HuffmanCode.HuffTbl>)
    requires LayoutOk(s) && AllValid(ht) && ht.Keys == ScanTables(s)
    ensures SoundFor(s, CodingsOf(ht))
  {
    hide Sound, HuffmanCode.Valid, HuffmanCode.CodingOf;
    forall id | id in ht ensures Sound(CodingsOf(ht)[id]) {
      assert HuffmanCode.Valid(ht[id]);
      HuffmanCode.CodingSound(ht[id]);
    }
    forall b | 0 <= b < |s.membership| ensures DcId(s, b) in CodingsOf(ht) && AcId(s, b) in CodingsOf(ht) {
      TablesSetUp(s, b);
    }
  }

  /** Sends a sequential scan: gather statistics, make optimal tables, write the scan, and
      read it back into blank blocks from a source that delivers its bytes as scheduled.
      Unless a coefficient is out of range, or one of more than nine million symbols gets
      too long a code, every block is the one that was sent. */
  method SendScan(s: Layout, ri: nat, cs: seq<Mcu>, blocks: seq<seq<array<Coef>>>, ghost start: seq<Mcu>,
                  m: Byte, rest: seq<Byte>, schedule: seq<nat>)
      returns (r: Result<Encoded, EncodeError>)
    requires LayoutOk(s) && Shaped(s, cs) && AllShorts(cs) && cs != [] && EveryCompCoded(s)
    requires Separate(blocks) && HoldAll(blocks, start) && PartlyRead(s, start, cs, 0)
    requires ri < 0x1_0000 && 0 < m < 0xFF
    requires forall id :: id in ScanTables(s) ==> Total(Tally(ScanSegments(s, ri, cs), id), 256) < MAX_COUNT
    modifies Arrays(blocks)
    ensures r == Err(BadCoef) <==> !ScanInRange(s, ri, cs)
    ensures r == Err(CodeTooLong) <==> ScanInRange(s, ri, cs) && AnyTooLong(ScanTables(s), ScanSegments(s, ri, cs))
    ensures (forall id :: id in ScanTables(s) ==> Total(Tally(ScanSegments(s, ri, cs), id), 256) + 1 < 9_227_465) ==>
      r != Err(CodeTooLong)
    ensures r.Ok? ==> HoldAll(blocks, cs)
  {
    hide ScanSegments, ScanInRange, Stream.Render, Stream.CoversAll, AllMadeFor, Total, ScanTables, Shaped, AllShorts;
    hide AnyTooLong, Tally, HoldAll, Separate, EveryCompCoded, SoundFor, Progressive.TablesRead, PartlyRead, SymbolsFit;
    r := EncodeOptimized(s, ri, cs);
    if r.Err? {
      return;
    }
    var ht := r.value.tables;
    ghost var T, segs := CodingsOf(ht), ScanSegments(s, ri, cs);
    EndToEnd.DcTablesFit(ht, segs);
    SoundCodings(s, ht);
    var tables := EndToEnd.DeriveAll(ht);
    EndToEnd.RenderRest(T, segs, 0, [0xFF, m] + rest);
    DecodeScan(s, ri, tables, T, r.value.bytes + ([0xFF, m] + rest), schedule, blocks, start, cs, m, rest);
  }
}
