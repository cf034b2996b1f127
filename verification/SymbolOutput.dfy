/** Where the Huffman encoders send symbols and raw bits: into statistics in a
    gathering pass, else through derived tables into the bit buffer. */
module SymbolOutput {
  import opened Bits
  import opened Tokens
  import opened ByteStream
  import opened ScanStream
  import opened BitWriting

  /** c_derived_tbl: code and code length of each symbol; length 0: no code. */
  datatype EncTable = EncTable(ehufco: seq<nat>, ehufsi: seq<nat>)

  predicate TableShaped(d: EncTable) {
    |d.ehufco| == 256 && |d.ehufsi| == 256 && forall s :: 0 <= s < 256 ==> d.ehufsi[s] <= 16
  }

  /** The derived table holds exactly the code words of the book. */
  ghost predicate Derives(d: EncTable, book: map<Byte, seq<bool>>) {
    TableShaped(d) &&
    (forall s: Byte :: s in book <==> d.ehufsi[s] > 0) &&
    (forall s: Byte :: s in book ==> ToBits(d.ehufco[s], d.ehufsi[s]) == book[s])
  }

  ghost predicate DerivesAll(tables: map<TableId, EncTable>, T: Tables) {
    forall id :: id in tables ==> id in T && Derives(tables[id], T[id].book)
  }

  /** How often a symbol occurs in a list of segments. */
  function CountAll(segs: seq<seq<Token>>, id: TableId, s: int): nat {
    if segs == [] then 0 else Count(segs[0], id, s) + CountAll(segs[1..], id, s)
  }

  lemma {:induction false} CountAllSnoc(segs: seq<seq<Token>>, toks: seq<Token>, id: TableId, s: int)
    ensures CountAll(segs + [toks], id, s) == CountAll(segs, id, s) + Count(toks, id, s)
  {
    if segs == [] {
      assert segs + [toks] == [toks];
    } else {
      assert (segs + [toks])[1..] == segs[1..] + [toks];
      CountAllSnoc(segs[1..], toks, id, s);
    }
  }

  lemma {:induction false} CountAllPositive(segs: seq<seq<Token>>, i: nat, j: nat)
    requires i < |segs| && j < |segs[i]| && segs[i][j].Sym?
    ensures CountAll(segs, segs[i][j].id, segs[i][j].s) > 0
  {
    if i == 0 {
      CountPositive(segs[0], j);
    } else {
      CountAllPositive(segs[1..], i - 1, j);
    }
  }

  /** The closed segments, each followed by its restart marker. */
  function Closed(T: Tables, segs: seq<seq<Token>>): seq<Byte>
    requires CoversAll(T, segs)
  {
    if segs == [] then []
    else
      var n := |segs| - 1;
      Closed(T, segs[..n]) + SegmentBytes(Emit(T, segs[n], [])) + [0xFF, Marker(n)]
  }

  lemma ClosedSnoc(T: Tables, segs: seq<seq<Token>>, toks: seq<Token>)
    requires CoversAll(T, segs) && Covers(T, toks)
    ensures CoversAll(T, segs + [toks])
    ensures Closed(T, segs + [toks])
         == Closed(T, segs) + SegmentBytes(Emit(T, toks, [])) + [0xFF, Marker(|segs|)]
  {
    CoversSnoc(T, segs, toks);
    ClosedIs(T, segs + [toks]);
    hide SegmentBytes, Emit, Covers, CoversAll, Marker, Closed;
    assert (segs + [toks])[..|segs|] == segs;
  }

  lemma ClosedIs(T: Tables, segs: seq<seq<Token>>)
    requires CoversAll(T, segs) && segs != []
    ensures var n := |segs| - 1;
            Closed(T, segs) == Closed(T, segs[..n]) + SegmentBytes(Emit(T, segs[n], [])) + [0xFF, Marker(n)]
  {
    hide SegmentBytes, Emit, Marker;
  }

  lemma CoversSnoc(T: Tables, segs: seq<seq<Token>>, toks: seq<Token>)
    requires CoversAll(T, segs) && Covers(T, toks)
    ensures CoversAll(T, segs + [toks])
  {
    hide Covers;
  }

  /** Closed segments and a last one make up the bytes of a scan. */
  lemma {:induction false} RenderIs(T: Tables, segs: seq<seq<Token>>, tail: seq<seq<Token>>, rest: seq<Byte>)
    requires CoversAll(T, segs) && CoversAll(T, tail) && tail != []
    ensures CoversAll(T, segs + tail)
    ensures Render(T, segs + tail, 0, rest) == Closed(T, segs) + Render(T, tail, |segs|, rest)
    decreases |segs|
  {
    hide SegmentBytes, Emit, Covers;
    if segs == [] {
      assert segs + tail == tail;
    } else {
      var n := |segs| - 1;
      var seg := segs[n];
      assert segs == segs[..n] + [seg];
      assert segs + tail == segs[..n] + ([seg] + tail);
      assert ([seg] + tail)[1..] == tail;
      RenderIs(T, segs[..n], [seg] + tail, rest);
    }
  }

  /** The raw fields of a token sequence are all at least a bit wide. */
  predicate RawsOk(toks: seq<Token>) {
    forall i :: 0 <= i < |toks| ==> toks[i].Raw? ==> toks[i].n > 0
  }

  /** The symbols the encoders use: a run length and a number of bits, of which there
      are at most 11; DC tables have no run lengths. */
  predicate SymbolFits(id: TableId, s: int) {
    0 <= s < 256 && s % 16 <= 11 && (id.Dc? ==> s <= 11)
  }

  /** Symbols of the given tables only. */
  predicate SymbolsIn(ids: set<TableId>, toks: seq<Token>) {
    forall i :: 0 <= i < |toks| && toks[i].Sym? ==> toks[i].id in ids && SymbolFits(toks[i].id, toks[i].s)
  }

  ghost predicate SymbolsInAll(ids: set<TableId>, segs: seq<seq<Token>>) {
    forall i :: 0 <= i < |segs| ==> SymbolsIn(ids, segs[i])
  }

  /** The counts are those of the segments. */
  ghost predicate CountsAre(counts: map<TableId, seq<nat>>, segs: seq<seq<Token>>) {
    forall id :: id in counts ==> CountOf(counts[id], id, segs)
  }

  ghost predicate CountOf(c: seq<nat>, id: TableId, segs: seq<seq<Token>>) {
    |c| == 257 && forall s :: 0 <= s < 257 ==> c[s] == CountAll(segs, id, s)
  }

  ghost predicate AcceptsAll(gather: bool, T: Tables, segs: seq<seq<Token>>) {
    forall i :: 0 <= i < |segs| ==> Acceptable(gather, T, segs[i])
  }

  /** Every counted symbol has a code. */
  ghost predicate CodesCounted(counts: map<TableId, seq<nat>>, T: Tables) {
    forall id :: id in counts ==> |counts[id]| == 257 && id in T && CodesUsed(counts[id], T[id].book)
  }

  ghost predicate CodesUsed(c: seq<nat>, book: map<Byte, seq<bool>>)
    requires |c| == 257
  {
    forall s: Byte :: c[s] > 0 ==> s in book
  }

  /** Tables with a code for every symbol counted in a gathering pass let the same
      tokens be written without a missing code. */
  lemma StatisticsCover(counts: map<TableId, seq<nat>>, T: Tables, segs: seq<seq<Token>>)
    requires CountsAre(counts, segs) && SymbolsInAll(counts.Keys, segs) && AcceptsAll(true, T, segs)
    requires CodesCounted(counts, T)
    ensures CoversAll(T, segs)
  {
    hide CountAll;
    forall i, j | 0 <= i < |segs| && 0 <= j < |segs[i]| ensures Emittable(T, segs[i][j]) {
      assert SymbolsIn(counts.Keys, segs[i]) && RawsOk(segs[i]) by {
        assert Acceptable(true, T, segs[i]);
      }
      var tok := segs[i][j];
      if tok.Sym? {
        CountAllPositive(segs, i, j);
        assert CountOf(counts[tok.id], tok.id, segs);
      }
    }
  }

  lemma EmitSnoc(T: Tables, toks: seq<Token>, tok: Token)
    requires Covers(T, toks) && Emittable(T, tok)
    ensures Covers(T, toks + [tok])
    ensures Emit(T, toks + [tok], []) == Emit(T, toks, []) + TokenBits(T, tok)
  {
    hide TokenBits;
    CoversConcat(T, toks, [tok]);
    EmitConcat(T, toks, [tok], []);
    EmitRest(T, toks, Emit(T, [tok], []));
    OneToken(T, tok);
  }

  lemma OneToken(T: Tables, tok: Token)
    requires Emittable(T, tok)
    ensures Covers(T, [tok]) && Emit(T, [tok], []) == TokenBits(T, tok)
  {
    hide TokenBits;
    var toks := [tok];
    assert toks[1..] == [];
    assert TokenBits(T, tok) + [] == TokenBits(T, tok);
  }

  lemma CountOne(toks: seq<Token>, tok: Token, id: TableId, s: int)
    ensures Count(toks + [tok], id, s) == Count(toks, id, s) + (if tok == Sym(id, s) then 1 else 0)
  {
    CountConcat(toks, [tok], id, s);
    assert [tok][1..] == [];
  }

  /** How often symbol s of table id has been sent. */
  function Sent(done: seq<seq<Token>>, toks: seq<Token>, id: TableId, s: int): nat {
    CountAll(done, id, s) + Count(toks, id, s)
  }

  /** 257 counts, the last one for the pseudo-symbol, which is never sent. */
  ghost predicate Tallies(c: seq<nat>, id: TableId, done: seq<seq<Token>>, toks: seq<Token>) {
    |c| == 257 && forall s :: 0 <= s < 257 ==> c[s] == Sent(done, toks, id, s)
  }

  ghost predicate TalliesAll(counts: map<TableId, seq<nat>>, done: seq<seq<Token>>, toks: seq<Token>) {
    forall id :: id in counts ==> Tallies(counts[id], id, done, toks)
  }

  lemma TallySym(counts: map<TableId, seq<nat>>, done: seq<seq<Token>>, toks: seq<Token>, id: TableId, s: int)
    requires TalliesAll(counts, done, toks) && id in counts && 0 <= s < 256
    ensures |counts[id]| == 257
    ensures TalliesAll(counts[id := counts[id][s := counts[id][s] + 1]], done, toks + [Sym(id, s)])
  {
    hide Count, CountAll;
    forall i, x | i in counts && 0 <= x < 257 {
      CountOne(toks, Sym(id, s), i, x);
    }
  }

  lemma TallyRaw(counts: map<TableId, seq<nat>>, done: seq<seq<Token>>, toks: seq<Token>, v: int, n: nat)
    requires TalliesAll(counts, done, toks)
    ensures TalliesAll(counts, done, toks + [Raw(v, n)])
  {
    hide Count, CountAll;
    forall i, x | i in counts && 0 <= x < 257 {
      CountOne(toks, Raw(v, n), i, x);
    }
  }

  lemma {:induction false} TallyRaws(counts: map<TableId, seq<nat>>, done: seq<seq<Token>>, toks: seq<Token>, raws: seq<Token>)
    requires TalliesAll(counts, done, toks) && forall i :: 0 <= i < |raws| ==> raws[i].Raw?
    ensures TalliesAll(counts, done, toks + raws)
    decreases |raws|
  {
    hide TalliesAll;
    if raws == [] {
      assert toks + raws == toks;
    } else {
      TallyRaw(counts, done, toks, raws[0].v, raws[0].n);
      TallyRaws(counts, done, toks + [raws[0]], raws[1..]);
      assert toks + raws == toks + [raws[0]] + raws[1..];
    }
  }

  lemma TallyClose(counts: map<TableId, seq<nat>>, done: seq<seq<Token>>, toks: seq<Token>, none: seq<Token>)
    requires TalliesAll(counts, done, toks) && |none| == 0
    ensures TalliesAll(counts, done + [toks], none)
  {
    hide CountAll;
    forall i, x | i in counts && 0 <= x < 257 ensures Sent(done + [toks], none, i, x) == Sent(done, toks, i, x) {
      CountAllSnoc(done, toks, i, x);
    }
  }

  /** Sending the tokens raises no error: in a gathering pass only empty raw
      fields are refused. */
  ghost predicate Acceptable(gather: bool, T: Tables, more: seq<Token>) {
    if gather then RawsOk(more) else Covers(T, more)
  }

  lemma AcceptsOne(gather: bool, T: Tables, tok: Token)
    ensures Acceptable(gather, T, [tok]) <==> if gather then tok.Raw? ==> tok.n > 0 else Emittable(T, tok)
  {
    assert [tok][0] == tok;
  }

  lemma AcceptsConcat(gather: bool, T: Tables, a: seq<Token>, b: seq<Token>)
    ensures Acceptable(gather, T, a + b) <==> Acceptable(gather, T, a) && Acceptable(gather, T, b)
  {
    CoversConcat(T, a, b);
    if Acceptable(gather, T, a + b) {
      assert forall i :: 0 <= i < |a| ==> a[i] == (a + b)[i];
      assert forall i :: 0 <= i < |b| ==> b[i] == (a + b)[|a| + i];
    }
  }

  /** What the bit writer holds when the tokens have been written. */
  ghost predicate Wrote(T: Tables, segment: seq<bool>, start: seq<Byte>, done: seq<seq<Token>>, toks: seq<Token>) {
    CoversAll(T, done) && Covers(T, toks) && segment == Emit(T, toks, []) && start == Closed(T, done)
  }

  lemma WroteToken(T: Tables, segment: seq<bool>, start: seq<Byte>, done: seq<seq<Token>>, toks: seq<Token>, tok: Token)
    requires Wrote(T, segment, start, done, toks) && Emittable(T, tok)
    ensures Wrote(T, segment + TokenBits(T, tok), start, done, toks + [tok])
  {
    hide TokenBits, Emit, Covers, CoversAll, Closed;
    EmitSnoc(T, toks, tok);
  }

  lemma WroteMarker(T: Tables, segment: seq<bool>, start: seq<Byte>, done: seq<seq<Token>>, toks: seq<Token>,
                    none: seq<Token>, nobits: seq<bool>)
    requires Wrote(T, segment, start, done, toks) && |none| == 0 && |nobits| == 0
    ensures Wrote(T, nobits, start + SegmentBytes(segment) + [0xFF, Marker(|done|)], done + [toks], none)
  {
    hide SegmentBytes;
    ClosedSnoc(T, done, toks);
  }

  lemma WroteAll(T: Tables, segment: seq<bool>, start: seq<Byte>, done: seq<seq<Token>>, toks: seq<Token>)
    requires Wrote(T, segment, start, done, toks)
    ensures CoversAll(T, done + [toks]) && start + SegmentBytes(segment) == Render(T, done + [toks], 0, [])
  {
    hide SegmentBytes;
    RenderIs(T, done, [toks], []);
    assert SegmentBytes(segment) + [] == SegmentBytes(segment);
  }

  class SymbolSink {
    const gather: bool
    /** derived_tbls, and the codings they derive from. */
    const tables: map<TableId, EncTable>
    ghost const T: Tables
    const writer: BitWriter
    /** The tables set up for the pass. */
    const ids: set<TableId>
    /** count_ptrs: 257 counts for each table in use. */
    var counts: map<TableId, seq<nat>>

    /** What has been sent: closed segments and the current one. */
    ghost var done: seq<seq<Token>>
    ghost var toks: seq<Token>

    /** The sink takes the tokens without an error. */
    ghost predicate Accepts(more: seq<Token>) {
      Acceptable(gather, T, more)
    }

    ghost predicate Valid()
      reads this, writer
    {
      SymbolsIn(ids, toks) && SymbolsInAll(ids, done) &&
      if gather then counts.Keys == ids && TalliesAll(counts, done, toks)
      else ids <= tables.Keys && writer.Valid() && DerivesAll(tables, T) && Wrote(T, writer.segment, writer.start, done, toks)
    }

    constructor (gather: bool, tables: map<TableId, EncTable>, ids: set<TableId>, ghost T: Tables)
      requires DerivesAll(tables, T) && (gather || ids <= tables.Keys)
      ensures Valid() && fresh(writer) && this.gather == gather && this.T == T && this.tables == tables && this.ids == ids
      ensures done == [] && toks == [] && (!gather ==> writer.out == [])
    {
      this.gather, this.tables, this.T, this.ids := gather, tables, T, ids;
      writer := new BitWriter();
      counts := map id | id in ids :: seq(257, _ => 0);
      done, toks := [], [];
    }

    /** emit_symbol: counts the symbol or writes its code. */
    method EmitSymbol(id: TableId, s: int) returns (ok: bool)
      requires Valid() && id in ids && SymbolFits(id, s)
      modifies this`counts, this`toks, writer
      ensures ok == Accepts([Sym(id, s)])
      ensures ok ==> Valid() && toks == old(toks) + [Sym(id, s)]
    {
      hide TalliesAll, Wrote, Emit, ToBits, Acceptable;
      AcceptsOne(gather, T, Sym(id, s));
      if gather {
        TallySym(counts, done, toks, id, s);
        counts := counts[id := counts[id][s := counts[id][s] + 1]];
        ok := true;
      } else {
        var d := tables[id];
        ok := writer.EmitBits(d.ehufco[s], d.ehufsi[s]);
        if ok {
          WroteToken(T, old(writer.segment), writer.start, done, toks, Sym(id, s));
        }
      }
      toks := toks + [Sym(id, s)];
    }

    /** emit_bits, which is idle in a gathering pass. */
    method EmitRaw(v: int, n: nat) returns (ok: bool)
      requires Valid() && n <= 16
      modifies this`toks, writer
      ensures ok == Accepts([Raw(v, n)])
      ensures ok ==> Valid() && toks == old(toks) + [Raw(v, n)]
    {
      hide TalliesAll, Wrote, Emit, ToBits, Acceptable;
      AcceptsOne(gather, T, Raw(v, n));
      if n == 0 {
        ok := false;
      } else if gather {
        TallyRaw(counts, done, toks, v, n);
        ok := true;
      } else {
        ok := writer.EmitBits(v, n);
        WroteToken(T, old(writer.segment), writer.start, done, toks, Raw(v, n));
      }
      toks := toks + [Raw(v, n)];
    }

    /** Raw fields that a gathering pass does not even look at. */
    ghost method SkipRaws(raws: seq<Token>)
      requires Valid() && gather && forall i :: 0 <= i < |raws| ==> raws[i].Raw?
      modifies this`toks
      ensures Valid() && toks == old(toks) + raws
    {
      hide TalliesAll;
      TallyRaws(counts, done, toks, raws);
      toks := toks + raws;
    }

    /** The output half of emit_restart: the segment is filled up to a byte and
        closed by a marker. */
    method CloseSegment(num: nat)
      requires Valid() && num < 8 && (!gather ==> num == |done| % 8)
      modifies this`done, this`toks, writer
      ensures Valid() && done == old(done) + [old(toks)] && |toks| == 0
    {
      hide TalliesAll, Wrote, Emit, ToBits;
      if !gather {
        writer.FlushBits();
        writer.EmitMarker(RST0 + num);
        WroteMarker(T, old(writer.segment), old(writer.start), done, toks, toks[..0], writer.segment);
      } else {
        TallyClose(counts, done, toks, toks[..0]);
      }
      done, toks := done + [toks], toks[..0];
    }

    /** What a gathering pass has found. */
    lemma Gathered()
      requires Valid() && gather
      ensures CountsAre(counts, done + [toks]) && counts.Keys == ids && SymbolsInAll(ids, done + [toks])
    {
      hide CountAll, Count;
      forall id, s | id in counts && 0 <= s < 257 ensures CountAll(done + [toks], id, s) == Sent(done, toks, id, s) {
        CountAllSnoc(done, toks, id, s);
      }
      assert forall id :: id in counts ==> Tallies(counts[id], id, done, toks);
    }

    /** The output half of finish_pass: the bytes of the whole scan are out. */
    method Finish()
      requires Valid() && !gather
      modifies writer
      ensures CoversAll(T, done + [toks]) && writer.out == Render(T, done + [toks], 0, [])
    {
      hide Wrote, ToBits, SegmentBytes;
      writer.FlushBits();
      WroteAll(T, old(writer.segment), old(writer.start), done, toks);
    }
  }
}
