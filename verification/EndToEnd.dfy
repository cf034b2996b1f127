/** From the encoder's coefficients to the decoder's: a scan coded with optimal tables
    and decoded from pieces of its bytes. */
module EndToEnd {
  import opened Wrappers
  import opened Tokens
  import opened ByteStream
  import opened HuffmanCode
  import opened DerivedTables
  import opened DecoderTables
  import opened HuffmanMerge
  import opened Coefficients
  import opened ScanCoding
  import opened ScanRoundTrip
  import opened SymbolOutput
  import opened ProgressiveEncoder
  import opened ProgressiveDecoder
  import opened ScanSymbols
  import opened OptimizedScan
  import opened SuspendedScan
  import Stream = ScanStream

  /** What follows a scan follows its last segment. */
  lemma {:induction false} RenderRest(T: Tables, segs: seq<seq<Token>>, k: nat, rest: seq<Byte>)
    requires Stream.CoversAll(T, segs) && segs != []
    ensures Stream.Render(T, segs, k, rest) == Stream.Render(T, segs, k, []) + rest
    decreases |segs|
  {
    hide SegmentBytes, Emit, Covers;
    var seg := SegmentBytes(Emit(T, segs[0], []));
    if |segs| == 1 {
      assert seg + [] == seg;
    } else {
      RenderRest(T, segs[1..], k + 1, rest);
      var m := [0xFF, Stream.Marker(k)];
      var more := Stream.Render(T, segs[1..], k + 1, []);
      SeqAssoc(m, more, rest);
      SeqAssoc(seg, m + more, rest);
    }
  }

  /** The decoder's derived tables for transmitted Huffman tables. */
  method DeriveAll(ht: map<TableId, HuffTbl>) returns (tables: map<TableId, DecTable>)
    requires AllValid(ht) && forall id :: id in ht && id.Dc? ==> SymbolsFit(ht[id], 15)
    ensures TablesRead(tables, CodingsOf(ht))
    ensures forall id :: id in ht && id.Dc? ==> SymbolsFit(tables[id].pub, 15)
  {
    hide TableOk, Decode, ValidCounts;
    tables := map[];
    var ids := ht.Keys;
    while ids != {}
      invariant ids <= ht.Keys && forall id :: id in ht && id !in ids ==> id in tables && Reads(tables[id], ht[id])
      decreases |ids|
    {
      var id :| id in ids;
      assert Valid(ht[id]);
      ValidShape(ht[id]);
      var d := MakeDecTable(ht[id], id.Dc?);
      tables := tables[id := d.value];
      ids := ids - {id};
    }
    forall id | id in CodingsOf(ht) ensures id in tables && TableOk(tables[id]) && ReadsLike(tables[id], CodingsOf(ht)[id]) {
      assert Reads(tables[id], ht[id]);
    }
  }

  /** The derived table of t. */
  ghost predicate Reads(d: DecTable, t: HuffTbl) {
    d.pub == t && TableOk(d)
  }

  lemma SoundCodings(s: Scan, ht: map<TableId, HuffTbl>)
    requires ScanOk(s) && AllValid(ht) && ht.Keys == ScanTables(s)
    ensures SoundTables(s, CodingsOf(ht))
  {
    hide Sound, Valid, CodingOf;
    forall id | id in ht ensures Sound(CodingsOf(ht)[id]) {
      assert Valid(ht[id]);
      CodingSound(ht[id]);
    }
  }

  lemma DcTablesFit(ht: map<TableId, HuffTbl>, segs: seq<seq<Token>>)
    requires AllMadeFor(ht, segs) && AllValid(ht)
    ensures forall id :: id in ht && id.Dc? ==> Shaped(ht[id]) && NumSymbols(ht[id]) <= 256 && SymbolsFit(ht[id], 15)
  {
    hide FirstIdx, FitsLength, CountAll, HasCode;
    forall id | id in ht && id.Dc? ensures Shaped(ht[id]) && NumSymbols(ht[id]) <= 256 && SymbolsFit(ht[id], 15) {
      assert MadeFor(ht[id], id, segs) && Valid(ht[id]);
    }
  }

  /** Sends a scan: gather statistics, make optimal tables, write the scan, and read it
      back from a source that delivers its bytes as scheduled. Unless a coefficient is
      out of range, or one of more than nine million symbols gets too long a code, every
      block ends up at the precision of the scan. */
  method SendScan(s: Scan, ri: nat, cs: seq<Mcu>, blocks: seq<seq<array<Coef>>>, ghost prevs: seq<Mcu>,
                  m: Byte, rest: seq<Byte>, schedule: seq<nat>)
      returns (r: Result<Encoded, EncodeError>)
    requires ScanOk(s) && McusShaped(s, cs) && McusShaped(s, prevs) && |prevs| == |cs| && cs != [] && EveryCompCoded(s)
    requires McusReady(s, prevs, cs) && Separate(blocks) && HoldAll(blocks, prevs)
    requires ri < 0x1_0000 && 0 < m < 0xFF
    requires forall id :: id in ScanTables(s) ==> Total(Tally(Stream.ScanSegments(s, ri, cs), id), 256) < MAX_COUNT
    modifies Arrays(blocks)
    ensures r == Err(BadCoef) <==> !Stream.EncodesOk(s, ri, Stream.StartEncoder(s, ri), cs)
    ensures r == Err(CodeTooLong) <==>
      Stream.EncodesOk(s, ri, Stream.StartEncoder(s, ri), cs) && AnyTooLong(ScanTables(s), Stream.ScanSegments(s, ri, cs))
    ensures (forall id :: id in ScanTables(s) ==> Total(Tally(Stream.ScanSegments(s, ri, cs), id), 256) + 1 < 9_227_465) ==>
      r != Err(CodeTooLong)
    ensures r.Ok? ==> HoldAll(blocks, McusAfter(s, prevs, cs))
  {
    hide Stream.ScanSegments, Stream.EncodesOk, Stream.Render, Stream.CoversAll, AllMadeFor, Total, ScanTables, McusShaped;
    hide AnyTooLong, Tally, HoldAll, Separate, McusReady, McusAfter, EveryCompCoded, SoundTables, TablesRead;
    r := EncodeOptimized(s, ri, cs);
    if r.Err? {
      return;
    }
    var ht := r.value.tables;
    ghost var T, segs := CodingsOf(ht), Stream.ScanSegments(s, ri, cs);
    DcTablesFit(ht, segs);
    SoundCodings(s, ht);
    var tables := DeriveAll(ht);
    RenderRest(T, segs, 0, [0xFF, m] + rest);
    DecodeEncodedScan(s, ri, tables, T, r.value.bytes + ([0xFF, m] + rest), schedule, blocks, prevs, cs, m, rest);
  }
}
