/** A progressive scan coded with its own optimal tables: a gathering pass, table
    generation, and an output pass. */
module OptimizedScan {
  import opened Wrappers
  import opened Tokens
  import opened HuffmanCode
  import opened DerivedTables
  import opened HuffmanMerge
  import opened HuffmanOptimal
  import opened OptimalTable
  import opened ScanCoding
  import opened SymbolOutput
  import opened ProgressiveEncoder
  import opened ScanPasses
  import opened ScanSymbols
  import Stream = ScanStream

  datatype EncodeError = BadCoef | CodeTooLong

  datatype Encoded = Encoded(bytes: seq<Byte>, tables: map<TableId, HuffTbl>)

  /** How often each symbol of a table occurs in the segments. */
  ghost function Tally(segs: seq<seq<Token>>, id: TableId): (f: Counts)
    ensures forall s :: 0 <= s < 257 ==> f[s] == CountAll(segs, id, s)
  {
    seq(257, s requires 0 <= s < 257 => CountAll(segs, id, s))
  }

  lemma {:induction false} CountNothing(toks: seq<Token>, ids: set<TableId>, id: TableId, s: int)
    requires SymbolsIn(ids, toks) && !SymbolFits(id, s)
    ensures Count(toks, id, s) == 0
  {
    if toks != [] {
      assert SymbolsIn(ids, toks[1..]);
      CountNothing(toks[1..], ids, id, s);
    }
  }

  lemma {:induction false} CountNowhere(segs: seq<seq<Token>>, ids: set<TableId>, id: TableId, s: int)
    requires SymbolsInAll(ids, segs) && !SymbolFits(id, s)
    ensures CountAll(segs, id, s) == 0
  {
    if segs != [] {
      assert SymbolsIn(ids, segs[0]);
      CountNothing(segs[0], ids, id, s);
      CountNowhere(segs[1..], ids, id, s);
    }
  }

  lemma {:induction false} LiveMissing(f: Counts, n: nat)
    requires n <= 256 && f[15] == 0 && f[31] == 0
    ensures Live(f, n) <= n - (if n > 15 then 1 else 0) - (if n > 31 then 1 else 0)
  {
    if n > 0 { LiveMissing(f, n - 1); }
  }

  /** The statistics of a scan meet the needs of table generation: some symbol is
      counted, and at most 254 are. */
  lemma TallyBounds(s: Scan, ri: nat, mcus: seq<Mcu>, id: TableId)
    requires ScanOk(s) && McusShaped(s, mcus) && mcus != [] && EveryCompCoded(s) && id in ScanTables(s)
    requires SymbolsInAll(ScanTables(s), Stream.ScanSegments(s, ri, mcus))
    ensures 1 <= Live(Tally(Stream.ScanSegments(s, ri, mcus), id), 256) <= 254
  {
    hide Live, CountAll, Stream.ScanSegments, ScanTables;
    var segs := Stream.ScanSegments(s, ri, mcus);
    var f := Tally(segs, id);
    ScanUses(s, ri, mcus, id);
    var i :| 0 <= i < |segs[0]| && segs[0][i].Sym? && segs[0][i].id == id;
    assert SymbolsIn(ScanTables(s), segs[0]);
    CountAllPositive(segs, 0, i);
    var x := segs[0][i].s;
    LiveTwo(f, x, x, 256);
    CountNowhere(segs, ScanTables(s), id, 15);
    CountNowhere(segs, ScanTables(s), id, 31);
    LiveMissing(f, 256);
  }

  /** What table generation asks of the statistics. */
  ghost predicate Generable(segs: seq<seq<Token>>, id: TableId) {
    1 <= Live(Tally(segs, id), 256) <= 254 && Total(Tally(segs, id), 256) < MAX_COUNT
  }

  /** A generated table: legal, with codes for exactly the symbols of the scan. */
  ghost predicate MadeFor(t: HuffTbl, id: TableId, segs: seq<seq<Token>>) {
    Valid(t) && NumSymbols(t) <= 254 && (id.Dc? ==> SymbolsFit(t, 15)) &&
    forall s: Byte :: HasCode(t, s) <==> CountAll(segs, id, s) > 0
  }

  /** A generated DC table has the symbols a decoder accepts. */
  lemma DcSymbolsFit(t: HuffTbl, ids: set<TableId>, id: TableId, segs: seq<seq<Token>>)
    requires Valid(t) && id.Dc? && SymbolsInAll(ids, segs)
    requires forall s: Byte :: HasCode(t, s) ==> CountAll(segs, id, s) > 0
    ensures SymbolsFit(t, 15)
  {
    hide CountAll, FirstIdx, FirstCode, FitsLength;
    forall p: nat | p < NumSymbols(t) ensures t.huffval[p] <= 15 {
      Start(t);
      var l := FindLength(t, p, 1);
      assert CodedAt(t, t.huffval[p], p, l);
      if !SymbolFits(id, t.huffval[p]) {
        CountNowhere(segs, ids, id, t.huffval[p]);
      }
    }
  }

  /** One table from its counts: jpeg_gen_optimal_table, then the derived table. */
  method MakeTable(c: seq<nat>, id: TableId, ghost ids: set<TableId>, ghost segs: seq<seq<Token>>)
      returns (r: Option<(HuffTbl, EncTable)>)
    requires |c| == 257 && CountOf(c, id, segs) && SymbolsInAll(ids, segs)
    requires Generable(segs, id)
    ensures r.None? <==> TooLong(Tally(segs, id))
    ensures r.Some? ==> MadeFor(r.value.0, id, segs) && Valid(r.value.0) && Derives(r.value.1, CodingOf(r.value.0).book)
  {
    hide TooLong, Live, Total, CountAll, Optimal, Listed, FirstIdx, FirstCode, HasCode, Derives, CodingOf, FitsLength, SymbolsInAll;
    var freq := new nat[257](i requires 0 <= i < 257 => c[i]);
    assert freq[..] == Tally(segs, id);
    var made := GenOptimalTable(freq, seq(256, i requires 0 <= i < 256 => 0));
    if made.None? {
      return None;
    }
    var t := made.value;
    if id.Dc? {
      DcSymbolsFit(t, ids, id, segs);
    }
    AllBytes(t);
    var d := MakeEncTable(t, id.Dc?);
    return Some((t, d.value));
  }

  lemma AllBytes(t: HuffTbl)
    requires Shaped(t) && NumSymbols(t) <= 256
    ensures SymbolsFit(t, 255)
  {
  }

  ghost predicate AllValid(ht: map<TableId, HuffTbl>) {
    forall id :: id in ht ==> Valid(ht[id])
  }

  /** The codings of a set of tables. */
  ghost function CodingsOf(ht: map<TableId, HuffTbl>): Tables
    requires AllValid(ht)
  {
    map id | id in ht :: (assert Valid(ht[id]); CodingOf(ht[id]))
  }

  ghost predicate AllMadeFor(ht: map<TableId, HuffTbl>, segs: seq<seq<Token>>) {
    forall id :: id in ht ==> MadeFor(ht[id], id, segs)
  }

  ghost predicate AllDerive(ht: map<TableId, HuffTbl>, et: map<TableId, EncTable>) {
    et.Keys == ht.Keys && AllValid(ht) && DerivesAll(et, CodingsOf(ht))
  }

  /** The number of the table that component ci uses in the scan. */
  function TableOf(s: Scan, ci: nat): TableId
    requires ScanOk(s) && ci < |s.comps|
  {
    if s.Ss > 0 then Ac(s.comps[ci].acTbl) else Dc(s.comps[ci].dcTbl)
  }

  /** The tables of the first n components. */
  function Seen(s: Scan, n: nat): set<TableId>
    requires ScanOk(s) && n <= |s.comps|
  {
    if s.Ss == 0 && s.Ah != 0 then {} else set ci | 0 <= ci < n :: TableOf(s, ci)
  }

  lemma SeenAll(s: Scan)
    requires ScanOk(s)
    ensures Seen(s, 0) == {} && Seen(s, |s.comps|) == ScanTables(s)
  {
    if s.Ss > 0 {
      assert TableOf(s, 0) == BandOf(s).id && TableOf(s, 0) in Seen(s, 1);
      assert Seen(s, |s.comps|) == {TableOf(s, 0)};
    } else if s.Ah == 0 {
      forall id ensures id in Seen(s, |s.comps|) <==> id in ScanTables(s) {
        if id in ScanTables(s) {
          var ci :| 0 <= ci < |s.comps| && id == Dc(s.comps[ci].dcTbl);
          assert id == TableOf(s, ci);
        }
      }
    }
  }

  lemma SeenNext(s: Scan, n: nat)
    requires ScanOk(s) && n < |s.comps|
    ensures Seen(s, n + 1) == if s.Ss == 0 && s.Ah != 0 then Seen(s, n) else Seen(s, n) + {TableOf(s, n)}
    ensures !(s.Ss == 0 && s.Ah != 0) ==> TableOf(s, n) in ScanTables(s)
  {
    SeenAll(s);
    if !(s.Ss == 0 && s.Ah != 0) {
      assert TableOf(s, n) in Seen(s, |s.comps|);
    }
  }

  /** Some table of a scan would need a code of more than 32 bits. */
  ghost predicate AnyTooLong(ids: set<TableId>, segs: seq<seq<Token>>) {
    exists id :: id in ids && TooLong(Tally(segs, id))
  }

  /** It takes more than nine million symbols of one table to make a code too long. */
  lemma SmallTablesFit(ids: set<TableId>, segs: seq<seq<Token>>)
    requires forall id :: id in ids ==> Generable(segs, id) && Total(Tally(segs, id), 256) + 1 < 9_227_465
    ensures !AnyTooLong(ids, segs)
  {
    hide TooLong, Total, Live, Tally;
    forall id | id in ids && TooLong(Tally(segs, id)) ensures false {
      TooLongNeeds(Tally(segs, id));
    }
  }

  /** finish_pass_gather_phuff: a table for every component, but none twice. */
  method MakeTables(s: Scan, counts: map<TableId, seq<nat>>, ghost segs: seq<seq<Token>>)
      returns (ok: bool, ht: map<TableId, HuffTbl>, et: map<TableId, EncTable>)
    requires ScanOk(s) && counts.Keys == ScanTables(s) && CountsAre(counts, segs) && SymbolsInAll(ScanTables(s), segs)
    requires forall id :: id in ScanTables(s) ==> Generable(segs, id)
    ensures ok <==> !AnyTooLong(ScanTables(s), segs)
    ensures ok ==> ht.Keys == ScanTables(s) && AllMadeFor(ht, segs) && AllDerive(ht, et)
  {
    hide Generable, MadeFor, Derives, CountOf, SymbolsInAll, ScanTables, Seen, AllMadeFor, AllDerive, TooLong;
    ok, ht, et := true, map[], map[];
    SeenAll(s);
    NoTables(ht, et, segs);
    for ci := 0 to |s.comps|
      invariant ht.Keys == Seen(s, ci) && AllMadeFor(ht, segs) && AllDerive(ht, et) && !AnyTooLong(ht.Keys, segs)
    {
      SeenNext(s, ci);
      if s.Ss == 0 && s.Ah != 0 {
        continue;
      }
      var tbl := TableOf(s, ci);
      if tbl !in ht {
        assert tbl in counts && CountOf(counts[tbl], tbl, segs) && Generable(segs, tbl);
        CountsSized(counts[tbl], tbl, segs);
        var made := MakeTable(counts[tbl], tbl, ScanTables(s), segs);
        if made.None? {
          ok := false;
          return;
        }
        OneMore(ht, et, tbl, made.value.0, made.value.1, segs);
        ht := ht[tbl := made.value.0];
        et := et[tbl := made.value.1];
      }
    }
  }

  lemma NoTables(ht: map<TableId, HuffTbl>, et: map<TableId, EncTable>, segs: seq<seq<Token>>)
    requires ht == map[] && et == map[]
    ensures AllMadeFor(ht, segs) && AllDerive(ht, et)
  {
  }

  lemma OneMore(ht: map<TableId, HuffTbl>, et: map<TableId, EncTable>, id: TableId, t: HuffTbl, d: EncTable, segs: seq<seq<Token>>)
    requires AllMadeFor(ht, segs) && AllDerive(ht, et) && MadeFor(t, id, segs) && Valid(t) && Derives(d, CodingOf(t).book)
    ensures AllMadeFor(ht[id := t], segs) && AllDerive(ht[id := t], et[id := d])
  {
    hide MadeFor, Derives, CodingOf, Valid;
    var ht1 := ht[id := t];
    assert AllValid(ht1) by {
      forall i | i in ht1 ensures Valid(ht1[i]) {
        if i != id { assert Valid(ht[i]); }
      }
    }
    forall i | i in et[id := d] ensures i in CodingsOf(ht1) && Derives(et[id := d][i], CodingsOf(ht1)[i].book) {
      if i != id { assert Derives(et[i], CodingsOf(ht)[i].book); }
    }
  }

  lemma CountsSized(c: seq<nat>, id: TableId, segs: seq<seq<Token>>)
    requires CountOf(c, id, segs)
    ensures |c| == 257
  {
  }

  /** Codes for all counted symbols. */
  lemma MadeCodes(ht: map<TableId, HuffTbl>, counts: map<TableId, seq<nat>>, segs: seq<seq<Token>>)
    requires AllMadeFor(ht, segs) && AllValid(ht) && CountsAre(counts, segs) && ht.Keys == counts.Keys
    ensures CodesCounted(counts, CodingsOf(ht))
  {
    hide CountAll, Valid, HasCode, Code, Decode, SymbolsFit;
    forall id | id in counts ensures |counts[id]| == 257 && CodesUsed(counts[id], CodingsOf(ht)[id].book) {
      assert CountOf(counts[id], id, segs) && MadeFor(ht[id], id, segs) && Valid(ht[id]);
      ValidShape(ht[id]);
      forall s: Byte | counts[id][s] > 0 ensures s in CodingsOf(ht)[id].book {
        assert counts[id][s] == CountAll(segs, id, s);
        assert HasCode(ht[id], s);
      }
    }
  }

  lemma ValidShape(t: HuffTbl)
    requires Valid(t)
    ensures Shaped(t) && NumSymbols(t) <= 256
  {
  }

  /** Codes a scan with optimal tables. It fails exactly if a coefficient is out of range
      or Huffman's algorithm finds a code of more than 32 bits, which takes more than
      nine million symbols: the tables made from the statistics are legal, and no code
      is missing in the output pass. */
  method EncodeOptimized(s: Scan, ri: nat, mcus: seq<Mcu>) returns (r: Result<Encoded, EncodeError>)
    requires ScanOk(s) && McusShaped(s, mcus) && mcus != [] && EveryCompCoded(s)
    requires forall id :: id in ScanTables(s) ==> Total(Tally(Stream.ScanSegments(s, ri, mcus), id), 256) < MAX_COUNT
    ensures r == Err(BadCoef) <==> !Stream.EncodesOk(s, ri, Stream.StartEncoder(s, ri), mcus)
    ensures r == Err(CodeTooLong) <==>
      Stream.EncodesOk(s, ri, Stream.StartEncoder(s, ri), mcus) && AnyTooLong(ScanTables(s), Stream.ScanSegments(s, ri, mcus))
    ensures (forall id :: id in ScanTables(s) ==> Total(Tally(Stream.ScanSegments(s, ri, mcus), id), 256) + 1 < 9_227_465) ==>
      r != Err(CodeTooLong)
    ensures r.Ok? ==> AllValid(r.value.tables) && r.value.tables.Keys == ScanTables(s)
    ensures r.Ok? ==> AllMadeFor(r.value.tables, Stream.ScanSegments(s, ri, mcus))
    ensures r.Ok? ==>
      Stream.CoversAll(CodingsOf(r.value.tables), Stream.ScanSegments(s, ri, mcus)) &&
      r.value.bytes == Stream.Render(CodingsOf(r.value.tables), Stream.ScanSegments(s, ri, mcus), 0, [])
  {
    hide Stream.ScanSegments, Stream.EncodesOk, Stream.Render, Stream.CoversAll, AcceptsAll, CountsAre, SymbolsInAll;
    hide AllMadeFor, DerivesAll, Live, Total, ScanTables, CodesCounted, McusShaped, EveryCompCoded, AllValid, TooLong, Tally;
    ghost var segs := Stream.ScanSegments(s, ri, mcus);
    ghost var none: Tables := map[];
    NoneDerived(none);
    ScanRaws(s, ri, mcus, none);
    var ok, counts, bytes := EncodePass(s, ri, true, map[], none, mcus);
    if !ok {
      return Err(BadCoef);
    }
    forall id | id in ScanTables(s) ensures Generable(segs, id) {
      TallyBounds(s, ri, mcus, id);
    }
    if forall id :: id in ScanTables(s) ==> Total(Tally(segs, id), 256) + 1 < 9_227_465 {
      SmallTablesFit(ScanTables(s), segs);
    }
    var ht: map<TableId, HuffTbl>, et: map<TableId, EncTable>;
    ok, ht, et := MakeTables(s, counts, segs);
    if !ok {
      return Err(CodeTooLong);
    }
    ghost var T := CodingsOf(ht);
    MadeCodes(ht, counts, segs);
    ScanRaws(s, ri, mcus, T);
    StatisticsCover(counts, T, segs);
    AcceptedCovers(T, segs);
    ok, counts, bytes := EncodePass(s, ri, false, et, T, mcus);
    return Ok(Encoded(bytes, ht));
  }

  lemma NoneDerived(T: Tables)
    ensures DerivesAll(map[], T)
  {
  }
}
