/** The sequential Huffman encoder (jchuff.c), driven MCU by MCU: encode_mcu_huff writes
    the scan, encode_mcu_gather only counts its symbols. */
module SequentialEncoder {
  import opened Bits
  import opened Tokens
  import opened AcCoding
  import opened DcCoding
  import opened SymbolOutput
  import opened SequentialCoding
  import opened SequentialScan
  import Progressive = ProgressiveEncoder
  import ScanPasses
  import First = AcFirstScan
  import Stream = ScanStream

  /** The tables that start_pass sets up. */
  function ScanTables(s: Layout): set<TableId> {
    (set ci | 0 <= ci < |s.comps| :: Dc(s.comps[ci].dcTbl)) + (set ci | 0 <= ci < |s.comps| :: Ac(s.comps[ci].acTbl))
  }

  lemma TablesSetUp(s: Layout, b: nat)
    requires LayoutOk(s) && b < |s.membership|
    ensures DcId(s, b) in ScanTables(s) && AcId(s, b) in ScanTables(s)
  {
  }

  /** In a gathering pass raw fields are never refused, unless they are empty. */
  lemma RawGathered(T: Tables, v: int, n: nat)
    requires n > 0
    ensures Acceptable(true, T, [Raw(v, n)])
  {
  }

  /** Before coefficient k, em has been emitted for the AC coefficients. */
  ghost predicate AcAlong(gather: bool, T: Tables, id: TableId, c: Block, k: nat, r: nat, em: seq<Token>) {
    1 <= k <= 64 && FirstFrom(Whole(id), c, 1, 0) == Prepend(em, FirstFrom(Whole(id), c, k, r)) &&
    Acceptable(gather, T, em) && forall i :: 1 <= i < k ==> BitLen(Mag(c[i], 0)) <= 10
  }

  lemma AcStart(gather: bool, T: Tables, id: TableId, c: Block, em: seq<Token>)
    requires |em| == 0
    ensures AcAlong(gather, T, id, c, 1, 0, em)
  {
    hide FirstFrom, BitLen, Mag;
    Progressive.PrependNothing(FirstFrom(Whole(id), c, 1, 0));
  }

  lemma AcZero(gather: bool, T: Tables, id: TableId, c: Block, k: nat, r: nat, em: seq<Token>)
    requires AcAlong(gather, T, id, c, k, r, em) && k < 64 && c[k] == 0
    ensures AcAlong(gather, T, id, c, k + 1, r + 1, em)
  {
    hide FirstFrom, Acceptable;
    assert BitLen(Mag(c[k], 0)) == 0;
    Progressive.FirstFromStep(Whole(id), c, k, r);
  }

  /** What a nonzero coefficient takes. */
  lemma AcCoef(gather: bool, T: Tables, id: TableId, c: Block, k: nat, r: nat, em: seq<Token>)
    requires AcAlong(gather, T, id, c, k, r, em) && k < 64 && c[k] != 0
    ensures var run := First.RunTokens(Whole(id), c[k], r);
            Acceptable(gather, T, FirstFrom(Whole(id), c, 1, 0).toks) ==> Acceptable(gather, T, run)
    ensures var run := First.RunTokens(Whole(id), c[k], r);
            BitLen(Abs(c[k])) <= 10 && Acceptable(gather, T, run) ==> AcAlong(gather, T, id, c, k + 1, 0, em + run)
  {
    hide FirstFrom, Acceptable, First.RunTokens, BitLen;
    var p := Whole(id);
    assert Mag(c[k], 0) == Abs(c[k]);
    Progressive.FirstFromStep(p, c, k, r);
    var run, more := First.RunTokens(p, c[k], r), FirstFrom(p, c, k + 1, 0);
    Progressive.PrependTwice(em, run, more);
    AcceptsConcat(gather, T, em + run, more.toks);
    AcceptsConcat(gather, T, em, run);
  }

  /** At the end of the block. */
  lemma AcEnd(gather: bool, T: Tables, id: TableId, c: Block, r: nat, em: seq<Token>)
    requires AcAlong(gather, T, id, c, 64, r, em)
    ensures First.InRange(Whole(id), c)
    ensures AcTokens(id, c) == em + if r > 0 then [Sym(id, 0)] else []
    ensures Acceptable(gather, T, AcTokens(id, c)) <==> (r > 0 ==> Acceptable(gather, T, [Sym(id, 0)]))
  {
    hide BitLen, Acceptable;
    Progressive.FirstFromEnd(Whole(id), c, 64, r);
    assert em + [] == em;
    AcceptsConcat(gather, T, em, [Sym(id, 0)]);
  }

  lemma AcParts(gather: bool, T: Tables, id: TableId, c: Block)
    ensures Acceptable(gather, T, AcTokens(id, c)) ==> Acceptable(gather, T, FirstFrom(Whole(id), c, 1, 0).toks)
  {
    hide FirstFrom, Acceptable;
    var code := FirstFrom(Whole(id), c, 1, 0);
    AcceptsConcat(gather, T, code.toks, if code.r > 0 then [Sym(id, 0)] else []);
  }

  lemma OutOfRange(id: TableId, c: Block, k: nat)
    requires 1 <= k < 64 && BitLen(Abs(c[k])) > 10
    ensures !First.InRange(Whole(id), c)
  {
    assert Mag(c[k], 0) == Abs(c[k]);
  }

  /** The run-length-16 codes before a nonzero coefficient. */
  method SendZrls(sink: SymbolSink, id: TableId, r0: nat) returns (ok: bool, r: nat)
    requires sink.Valid() && id in sink.ids && id.Ac?
    modifies sink`counts, sink`toks, sink.writer
    ensures ok == sink.Accepts(Zrls(id, r0 / 16))
    ensures ok ==> sink.Valid() && r == r0 % 16 && sink.toks == old(sink.toks) + Zrls(id, r0 / 16)
  {
    hide SymbolSink.Valid, Acceptable;
    r, ok := r0, true;
    ghost var n: nat := 0;
    assert sink.toks == old(sink.toks) + Zrls(id, 0);
    Progressive.ZrlsAccepted(sink.gather, sink.T, id, r0 / 16);
    while r > 15
      invariant sink.Valid() && r0 == r + 16 * n && sink.toks == old(sink.toks) + Zrls(id, n)
      invariant n > 0 ==> sink.Accepts([Sym(id, 0xF0)])
    {
      ok := sink.EmitSymbol(id, 0xF0);
      if !ok {
        return;
      }
      Progressive.ZrlsSnoc(id, n);
      r, n := r - 16, n + 1;
    }
    assert n == r0 / 16;
  }

  lemma RawCovered(T: Tables, v: int, n: nat)
    requires n > 0
    ensures Acceptable(false, T, [Raw(v, n)])
  {
  }

  /** The DC difference of encode_one_block. */
  method EncodeDc(sink: SymbolSink, id: TableId, d: int) returns (ok: bool)
    requires sink.Valid() && !sink.gather && id in sink.ids && id.Dc?
    modifies sink`counts, sink`toks, sink.writer
    ensures ok == (BitLen(Abs(d)) <= 11 && sink.Accepts(DiffTokens(id, d)))
    ensures ok ==> sink.Valid() && sink.toks == old(sink.toks) + DiffTokens(id, d)
  {
    hide SymbolSink.Valid, Acceptable, BitLen;
    var temp, temp2 := d, d;
    if temp < 0 {
      temp := -temp;
      temp2 := temp2 - 1;
    }
    var nbits := Progressive.CountBits(temp);
    if nbits > 11 {
      return false;
    }
    AcceptsConcat(sink.gather, sink.T, [Sym(id, nbits)], [Raw(temp2, nbits)]);
    assert [Sym(id, nbits)] + [] == [Sym(id, nbits)];
    SeqAssoc(sink.toks, [Sym(id, nbits)], [Raw(temp2, nbits)]);
    ok := sink.EmitSymbol(id, nbits);
    if ok && nbits > 0 {
      RawCovered(sink.T, temp2, nbits);
      ok := sink.EmitRaw(temp2, nbits);
    }
  }

  /** The DC difference of htest_one_block. */
  method CountDc(sink: SymbolSink, id: TableId, d: int) returns (ok: bool)
    requires sink.Valid() && sink.gather && id in sink.ids && id.Dc?
    modifies sink`counts, sink`toks, sink.writer
    ensures ok == (BitLen(Abs(d)) <= 11 && sink.Accepts(DiffTokens(id, d)))
    ensures ok ==> sink.Valid() && sink.toks == old(sink.toks) + DiffTokens(id, d)
  {
    hide SymbolSink.Valid, Acceptable, BitLen;
    var temp := d;
    if temp < 0 {
      temp := -temp;
    }
    var nbits := Progressive.CountBits(temp);
    if nbits > 11 {
      return false;
    }
    ghost var extra := [Raw(if d < 0 then d - 1 else d, nbits)];
    AcceptsConcat(sink.gather, sink.T, [Sym(id, nbits)], extra);
    assert [Sym(id, nbits)] + [] == [Sym(id, nbits)];
    SeqAssoc(sink.toks, [Sym(id, nbits)], extra);
    ok := sink.EmitSymbol(id, nbits);
    if ok && nbits > 0 {
      RawGathered(sink.T, extra[0].v, nbits);
      sink.SkipRaws(extra);
    }
  }

  /** A nonzero AC coefficient of encode_one_block, after r0 zeros. */
  method EncodeCoef(sink: SymbolSink, id: TableId, x: int, r0: nat) returns (ok: bool)
    requires sink.Valid() && !sink.gather && id in sink.ids && id.Ac? && x != 0
    modifies sink`counts, sink`toks, sink.writer
    ensures ok == (BitLen(Abs(x)) <= 10 && sink.Accepts(First.RunTokens(Whole(id), x, r0)))
    ensures ok ==> sink.Valid() && sink.toks == old(sink.toks) + First.RunTokens(Whole(id), x, r0)
  {
    hide SymbolSink.Valid, Acceptable, BitLen;
    assert Mag(x, 0) == Abs(x);
    BitLenBounds(Abs(x));
    ghost var nb := BitLen(Abs(x));
    ghost var zrls, sym, raw := Zrls(id, r0 / 16), [Sym(id, r0 % 16 * 16 + nb)], [Raw(ExtraBits(x, Abs(x)), nb)];
    assert First.CoefTokens(Whole(id), x, r0 % 16) == sym + raw;
    AcceptsConcat(sink.gather, sink.T, zrls, sym + raw);
    AcceptsConcat(sink.gather, sink.T, sym, raw);
    ghost var toks0 := sink.toks;
    var r: nat;
    ok, r := SendZrls(sink, id, r0);
    if !ok { return; }
    var temp2 := if x < 0 then x - 1 else x;
    var nbits := Progressive.CountBits(Abs(x));
    if nbits > 10 {
      return false;
    }
    ok := sink.EmitSymbol(id, r * 16 + nbits);
    if !ok { return; }
    RawCovered(sink.T, temp2, nbits);
    ok := sink.EmitRaw(temp2, nbits);
    assert toks0 + (zrls + (sym + raw)) == toks0 + zrls + sym + raw;
  }

  /** A nonzero AC coefficient of htest_one_block. */
  method CountCoef(sink: SymbolSink, id: TableId, x: int, r0: nat) returns (ok: bool)
    requires sink.Valid() && sink.gather && id in sink.ids && id.Ac? && x != 0
    modifies sink`counts, sink`toks, sink.writer
    ensures ok == (BitLen(Abs(x)) <= 10 && sink.Accepts(First.RunTokens(Whole(id), x, r0)))
    ensures ok ==> sink.Valid() && sink.toks == old(sink.toks) + First.RunTokens(Whole(id), x, r0)
  {
    hide SymbolSink.Valid, Acceptable, BitLen;
    assert Mag(x, 0) == Abs(x);
    BitLenBounds(Abs(x));
    ghost var nb := BitLen(Abs(x));
    ghost var zrls, sym, raw := Zrls(id, r0 / 16), [Sym(id, r0 % 16 * 16 + nb)], [Raw(ExtraBits(x, Abs(x)), nb)];
    assert First.CoefTokens(Whole(id), x, r0 % 16) == sym + raw;
    AcceptsConcat(sink.gather, sink.T, zrls, sym + raw);
    AcceptsConcat(sink.gather, sink.T, sym, raw);
    ghost var toks0 := sink.toks;
    var r: nat;
    ok, r := SendZrls(sink, id, r0);
    if !ok { return; }
    var nbits := Progressive.CountBits(Abs(x));
    if nbits > 10 {
      return false;
    }
    ok := sink.EmitSymbol(id, r * 16 + nbits);
    if !ok { return; }
    RawGathered(sink.T, raw[0].v, nbits);
    sink.SkipRaws(raw);
    assert toks0 + (zrls + (sym + raw)) == toks0 + zrls + sym + raw;
  }

  /** encode_one_block */
  method EncodeOneBlock(sink: SymbolSink, s: Layout, b: nat, last: int, c: Block) returns (ok: bool)
    requires sink.Valid() && !sink.gather && LayoutOk(s) && b < |s.membership| && ScanTables(s) <= sink.ids
    modifies sink`counts, sink`toks, sink.writer
    ensures ok == (BlockInRange(AcId(s, b), last, c) && sink.Accepts(BlockTokens(s, b, last, c)))
    ensures ok ==> sink.Valid() && sink.toks == old(sink.toks) + BlockTokens(s, b, last, c)
  {
    hide SymbolSink.Valid, Acceptable, BitLen, DiffTokens, AcTokens, First.InRange, ScanTables, AcAlong, First.RunTokens;
    TablesSetUp(s, b);
    var dc, id := DcId(s, b), AcId(s, b);
    ghost var toks0, diff := sink.toks, DiffTokens(dc, c[0] - last);
    AcceptsConcat(sink.gather, sink.T, diff, AcTokens(id, c));
    ok := EncodeDc(sink, dc, c[0] - last);
    if !ok { return; }
    ghost var em: seq<Token> := [];
    AcStart(sink.gather, sink.T, id, c, em);
    AcParts(sink.gather, sink.T, id, c);
    var r := 0;
    for k := 1 to 64
      invariant sink.Valid() && sink.toks == toks0 + diff + em && AcAlong(sink.gather, sink.T, id, c, k, r, em)
    {
      if c[k] == 0 {
        AcZero(sink.gather, sink.T, id, c, k, r, em);
        r := r + 1;
      } else {
        AcCoef(sink.gather, sink.T, id, c, k, r, em);
        ghost var run := First.RunTokens(Whole(id), c[k], r);
        ok := EncodeCoef(sink, id, c[k], r);
        if !ok {
          if BitLen(Abs(c[k])) > 10 { OutOfRange(id, c, k); }
          return;
        }
        SeqAssoc(toks0 + diff, em, run);
        em := em + run;
        r := 0;
      }
    }
    AcEnd(sink.gather, sink.T, id, c, r, em);
    if r > 0 {
      ok := sink.EmitSymbol(id, 0);
    }
    assert toks0 + (diff + (em + [Sym(id, 0)])) == toks0 + diff + em + [Sym(id, 0)];
    assert toks0 + (diff + em) == toks0 + diff + em && em + [] == em;
  }

  /** htest_one_block */
  method HtestOneBlock(sink: SymbolSink, s: Layout, b: nat, last: int, c: Block) returns (ok: bool)
    requires sink.Valid() && sink.gather && LayoutOk(s) && b < |s.membership| && ScanTables(s) <= sink.ids
    modifies sink`counts, sink`toks, sink.writer
    ensures ok == (BlockInRange(AcId(s, b), last, c) && sink.Accepts(BlockTokens(s, b, last, c)))
    ensures ok ==> sink.Valid() && sink.toks == old(sink.toks) + BlockTokens(s, b, last, c)
  {
    hide SymbolSink.Valid, Acceptable, BitLen, DiffTokens, AcTokens, First.InRange, ScanTables, AcAlong, First.RunTokens;
    TablesSetUp(s, b);
    var dc, id := DcId(s, b), AcId(s, b);
    ghost var toks0, diff := sink.toks, DiffTokens(dc, c[0] - last);
    AcceptsConcat(sink.gather, sink.T, diff, AcTokens(id, c));
    ok := CountDc(sink, dc, c[0] - last);
    if !ok { return; }
    ghost var em: seq<Token> := [];
    AcStart(sink.gather, sink.T, id, c, em);
    AcParts(sink.gather, sink.T, id, c);
    var r := 0;
    for k := 1 to 64
      invariant sink.Valid() && sink.toks == toks0 + diff + em && AcAlong(sink.gather, sink.T, id, c, k, r, em)
    {
      if c[k] == 0 {
        AcZero(sink.gather, sink.T, id, c, k, r, em);
        r := r + 1;
      } else {
        AcCoef(sink.gather, sink.T, id, c, k, r, em);
        ghost var run := First.RunTokens(Whole(id), c[k], r);
        ok := CountCoef(sink, id, c[k], r);
        if !ok {
          if BitLen(Abs(c[k])) > 10 { OutOfRange(id, c, k); }
          return;
        }
        SeqAssoc(toks0 + diff, em, run);
        em := em + run;
        r := 0;
      }
    }
    AcEnd(sink.gather, sink.T, id, c, r, em);
    if r > 0 {
      ok := sink.EmitSymbol(id, 0);
    }
    assert toks0 + (diff + (em + [Sym(id, 0)])) == toks0 + diff + em + [Sym(id, 0)];
    assert toks0 + (diff + em) == toks0 + diff + em && em + [] == em;
  }

  // ----- MCU by MCU -----

  function LastInterval(ri: nat, mcus: seq<Mcu>): seq<Mcu> {
    var ints := Stream.Intervals(ri, mcus);
    ints[|ints| - 1]
  }

  /** What the encoder holds when the MCUs have been coded: the closed segments, the
      tokens of the open one, the last DC values and restarts_to_go. */
  ghost predicate Holds(s: Layout, ri: nat, mcus: seq<Mcu>, done: seq<seq<Token>>, toks: seq<Token>, last: seq<int>, togo: nat)
    requires LayoutOk(s)
  {
    Shaped(s, mcus) && ScanInRange(s, ri, mcus) && done + [toks] == ScanSegments(s, ri, mcus) &&
    Shaped(s, LastInterval(ri, mcus)) && last == EncSegment(s, Zeros(s), LastInterval(ri, mcus)).1 &&
    (ri > 0 ==> togo == ri - |LastInterval(ri, mcus)|)
  }

  lemma HoldsStart(s: Layout, ri: nat, none: seq<seq<Token>>, notoks: seq<Token>)
    requires LayoutOk(s) && |none| == 0 && |notoks| == 0
    ensures Holds(s, ri, [], none, notoks, Zeros(s), ri)
  {
    var ints := Stream.Intervals(ri, []);
    assert ints == [[]];
    assert EncSegment(s, Zeros(s), []) == ([], Zeros(s));
    assert ScanSegments(s, ri, []) == [[]];
  }

  /** The next MCU: its predictions start over if the last interval is full. */
  lemma HoldsNext(s: Layout, ri: nat, mcus: seq<Mcu>, done: seq<seq<Token>>, toks: seq<Token>, last: seq<int>, togo: nat, m: Mcu)
    requires LayoutOk(s) && Holds(s, ri, mcus, done, toks, last, togo) && |m| == |s.membership|
    ensures var due := ri > 0 && togo == 0;
            var last0 := if due then Zeros(s) else last;
            |last0| == |s.comps| && Shaped(s, mcus + [m]) &&
            (ScanInRange(s, ri, mcus + [m]) <==> BlocksInRange(s, last0, m, 0)) &&
            var (more, last1) := EncBlocks(s, last0, m, 0);
            (BlocksInRange(s, last0, m, 0) ==>
              Holds(s, ri, mcus + [m], if due then done + [toks] else done, (if due then [] else toks) + more, last1,
                    if due then ri - 1 else if ri > 0 then togo - 1 else togo))
  {
    hide EncBlocks, BlocksInRange, EncSegment, SegmentInRange;
    IntervalsSnoc(ri, mcus, m);
    IntervalsShaped(s, ri, mcus);
    IntervalsShaped(s, ri, mcus + [m]);
    var ints, ints1 := Stream.Intervals(ri, mcus), Stream.Intervals(ri, mcus + [m]);
    var n := |ints| - 1;
    var xs := ints[n];
    var due := ri > 0 && togo == 0;
    var segs, segs1 := ScanSegments(s, ri, mcus), ScanSegments(s, ri, mcus + [m]);
    assert done == segs[..n] && toks == segs[n] by { assert (done + [toks])[..n] == done; }
    if due {
      SegmentSnoc(s, Zeros(s), [], m);
      NoMcus(s, Zeros(s));
      assert [] + [m] == [m];
      assert ints1 == ints + [[m]];
      assert segs1 == done + [toks] + [EncSegment(s, Zeros(s), [m]).0];
      InRangeSnoc(s, ints, [m]);
    } else {
      SegmentSnoc(s, Zeros(s), xs, m);
      assert ints1 == ints[..n] + [xs + [m]];
      assert segs1 == done + [EncSegment(s, Zeros(s), xs + [m]).0];
      assert ints == ints[..n] + [xs];
      InRangeSnoc(s, ints[..n], xs);
      InRangeSnoc(s, ints[..n], xs + [m]);
    }
  }

  lemma NoMcus(s: Layout, last: seq<int>)
    requires LayoutOk(s) && |last| == |s.comps|
    ensures EncSegment(s, last, []) == ([], last) && SegmentInRange(s, last, [])
  {
  }

  lemma InRangeSnoc(s: Layout, ints: seq<seq<Mcu>>, xs: seq<Mcu>)
    requires LayoutOk(s) && AllShaped(s, ints) && Shaped(s, xs)
    ensures AllShaped(s, ints + [xs])
    ensures AllInRange(s, ints + [xs]) <==> AllInRange(s, ints) && SegmentInRange(s, Zeros(s), xs)
  {
    hide SegmentInRange, Shaped;
    var all := ints + [xs];
    assert all[|ints|] == xs;
    assert forall i :: 0 <= i < |ints| ==> all[i] == ints[i];
  }

  class HuffEncoder {
    const layout: Layout
    const ri: nat
    const sink: SymbolSink
    /** saved.last_dc_val */
    const lastDc: array<int>
    var restartsToGo: nat
    var nextRestartNum: nat
    /** The MCUs coded so far. */
    ghost var coded: seq<Mcu>

    ghost function Repr(): set<object> {
      {this, sink, sink.writer, lastDc}
    }

    ghost predicate Valid()
      reads Repr()
    {
      LayoutOk(layout) && sink.Valid() && sink.ids == ScanTables(layout) && lastDc.Length == |layout.comps| &&
      Holds(layout, ri, coded, sink.done, sink.toks, lastDc[..], restartsToGo) &&
      nextRestartNum < 8 && (sink.gather || nextRestartNum == |sink.done| % 8)
    }

    /** start_pass_huff */
    constructor (layout: Layout, ri: nat, gather: bool, tables: map<TableId, EncTable>, ghost T: Tables)
      requires LayoutOk(layout) && DerivesAll(tables, T) && (gather || ScanTables(layout) <= tables.Keys)
      ensures this.layout == layout && this.ri == ri && sink.gather == gather && sink.T == T
      ensures Valid() && fresh(Repr()) && coded == []
    {
      hide SymbolSink.Valid, ScanTables, DerivesAll, Holds, Zeros, LayoutOk;
      this.layout, this.ri := layout, ri;
      sink := new SymbolSink(gather, tables, ScanTables(layout), T);
      lastDc := new int[|layout.comps|];
      restartsToGo, nextRestartNum, coded := ri, 0, [];
      new;
      ResetDc();
      HoldsStart(layout, ri, sink.done, sink.toks);
    }

    /** Predictions start over. */
    method ResetDc()
      requires lastDc.Length == |layout.comps|
      modifies lastDc
      ensures lastDc[..] == Zeros(layout)
    {
      for ci := 0 to lastDc.Length
        invariant forall i :: 0 <= i < ci ==> lastDc[i] == 0
      {
        lastDc[ci] := 0;
      }
      assert lastDc[..] == Zeros(layout);
    }

    /** The predictions the next MCU starts from. */
    ghost function Predictions(): seq<int>
      reads this, lastDc
    {
      if ri > 0 && restartsToGo == 0 then Zeros(layout) else lastDc[..]
    }

    /** The blocks of an MCU, written or counted. */
    method Blocks(mcu: Mcu) returns (ok: bool)
      requires LayoutOk(layout) && sink.Valid() && sink.ids == ScanTables(layout) && lastDc.Length == |layout.comps|
      requires |mcu| == |layout.membership|
      modifies lastDc, sink`counts, sink`toks, sink.writer
      ensures ok == (BlocksInRange(layout, old(lastDc[..]), mcu, 0) && sink.Accepts(EncBlocks(layout, old(lastDc[..]), mcu, 0).0))
      ensures ok ==> sink.Valid() && sink.toks == old(sink.toks) + EncBlocks(layout, old(lastDc[..]), mcu, 0).0
      ensures ok ==> lastDc[..] == EncBlocks(layout, old(lastDc[..]), mcu, 0).1
    {
      hide SymbolSink.Valid, Acceptable, ScanTables, BlockTokens, BlockInRange, BlocksAlong;
      ok := true;
      ghost var em: seq<Token> := [];
      ghost var last0 := lastDc[..];
      BlocksStart(sink.gather, sink.T, layout, last0, mcu, em);
      assert sink.toks + em == sink.toks;
      for blkn := 0 to |mcu|
        invariant sink.Valid() && sink.toks == old(sink.toks) + em
        invariant BlocksAlong(sink.gather, sink.T, layout, last0, mcu, blkn, em, lastDc[..])
      {
        var ci := layout.membership[blkn];
        BlocksNext(sink.gather, sink.T, layout, last0, mcu, blkn, em, lastDc[..]);
        ghost var part := BlockTokens(layout, blkn, lastDc[ci], mcu[blkn]);
        if sink.gather {
          ok := HtestOneBlock(sink, layout, blkn, lastDc[ci], mcu[blkn]);
        } else {
          ok := EncodeOneBlock(sink, layout, blkn, lastDc[ci], mcu[blkn]);
        }
        if !ok { return; }
        SeqAssoc(old(sink.toks), em, part);
        ghost var last := lastDc[..];
        lastDc[ci] := mcu[blkn][0];
        assert lastDc[..] == last[ci := mcu[blkn][0]];
        em := em + part;
      }
      BlocksEnd(sink.gather, sink.T, layout, last0, mcu, em, lastDc[..]);
    }

    /** encode_mcu_huff */
    method EncodeMcuHuff(mcu: Mcu) returns (ok: bool)
      requires Valid() && !sink.gather && |mcu| == |layout.membership|
      modifies this, lastDc, sink, sink.writer
      ensures ok == (BlocksInRange(layout, old(Predictions()), mcu, 0) && sink.Accepts(EncBlocks(layout, old(Predictions()), mcu, 0).0))
      ensures ok ==> Valid() && coded == old(coded) + [mcu]
    {
      hide SymbolSink.Valid, Acceptable, ScanTables, Holds, EncBlocks, BlocksInRange;
      HoldsNext(layout, ri, coded, sink.done, sink.toks, lastDc[..], restartsToGo, mcu);
      ghost var toks0 := sink.toks;
      if ri > 0 && restartsToGo == 0 {
        sink.CloseSegment(nextRestartNum);
        ResetDc();
        assert sink.toks == [];
      }
      ok := Blocks(mcu);
      if !ok { return; }
      if ri > 0 {
        if restartsToGo == 0 {
          restartsToGo := ri;
          nextRestartNum := (nextRestartNum + 1) % 8;
        }
        restartsToGo := restartsToGo - 1;
      }
      coded := coded + [mcu];
    }

    /** encode_mcu_gather */
    method EncodeMcuGather(mcu: Mcu) returns (ok: bool)
      requires Valid() && sink.gather && |mcu| == |layout.membership|
      modifies this, lastDc, sink, sink.writer
      ensures ok == (BlocksInRange(layout, old(Predictions()), mcu, 0) && sink.Accepts(EncBlocks(layout, old(Predictions()), mcu, 0).0))
      ensures ok ==> Valid() && coded == old(coded) + [mcu]
    {
      hide SymbolSink.Valid, Acceptable, ScanTables, Holds, EncBlocks, BlocksInRange;
      HoldsNext(layout, ri, coded, sink.done, sink.toks, lastDc[..], restartsToGo, mcu);
      if ri > 0 {
        if restartsToGo == 0 {
          sink.CloseSegment(0);
          ResetDc();
          assert sink.toks == [];
          restartsToGo := ri;
        }
        restartsToGo := restartsToGo - 1;
      }
      ok := Blocks(mcu);
      if ok {
        coded := coded + [mcu];
      }
    }

    /** finish_pass_huff, or finish_pass_gather up to the generation of tables. */
    method FinishPass()
      requires Valid()
      modifies sink.writer
      ensures var segs := ScanSegments(layout, ri, old(coded));
              if sink.gather then CountsAre(sink.counts, segs) && sink.counts.Keys == sink.ids && SymbolsInAll(sink.ids, segs)
              else Stream.CoversAll(sink.T, segs) && sink.writer.out == Stream.Render(sink.T, segs, 0, [])
    {
      hide SymbolSink.Valid, ScanTables, CountsAre, SymbolsInAll, Stream.CoversAll, Stream.Render, ScanSegments;
      if sink.gather {
        sink.Gathered();
      } else {
        sink.Finish();
      }
    }
  }

  /** Before block b, em has been sent for the MCU. */
  ghost predicate BlocksAlong(gather: bool, T: Tables, s: Layout, last0: seq<int>, mcu: Mcu, b: nat, em: seq<Token>, last: seq<int>)
    requires LayoutOk(s) && |last0| == |s.comps| && |mcu| == |s.membership|
  {
    |last| == |s.comps| && Acceptable(gather, T, em) &&
    EncBlocks(s, last0, mcu, 0) == (em + EncBlocks(s, last, mcu, b).0, EncBlocks(s, last, mcu, b).1) &&
    (BlocksInRange(s, last0, mcu, 0) <==> BlocksInRange(s, last, mcu, b))
  }

  lemma BlocksStart(gather: bool, T: Tables, s: Layout, last0: seq<int>, mcu: Mcu, em: seq<Token>)
    requires LayoutOk(s) && |last0| == |s.comps| && |mcu| == |s.membership| && |em| == 0
    ensures BlocksAlong(gather, T, s, last0, mcu, 0, em, last0)
  {
    hide EncBlocks, BlocksInRange;
    var all := EncBlocks(s, last0, mcu, 0).0;
    assert em + all == all;
  }

  lemma BlocksNext(gather: bool, T: Tables, s: Layout, last0: seq<int>, mcu: Mcu, b: nat, em: seq<Token>, last: seq<int>)
    requires LayoutOk(s) && |last0| == |s.comps| && |mcu| == |s.membership| && b < |mcu|
    requires BlocksAlong(gather, T, s, last0, mcu, b, em, last)
    ensures |last| == |s.comps|
    ensures var ci := s.membership[b];
            var part := BlockTokens(s, b, last[ci], mcu[b]);
            (BlocksInRange(s, last0, mcu, 0) ==> BlockInRange(AcId(s, b), last[ci], mcu[b])) &&
            (Acceptable(gather, T, EncBlocks(s, last0, mcu, 0).0) ==> Acceptable(gather, T, part)) &&
            (BlockInRange(AcId(s, b), last[ci], mcu[b]) && Acceptable(gather, T, part) ==>
              BlocksAlong(gather, T, s, last0, mcu, b + 1, em + part, last[ci := mcu[b][0]]))
  {
    hide BlockTokens, BlockInRange, Acceptable;
    var ci := s.membership[b];
    var part := BlockTokens(s, b, last[ci], mcu[b]);
    var more := EncBlocks(s, last[ci := mcu[b][0]], mcu, b + 1).0;
    SeqAssoc(em, part, more);
    AcceptsConcat(gather, T, em + part, more);
    AcceptsConcat(gather, T, em, part);
  }

  lemma BlocksEnd(gather: bool, T: Tables, s: Layout, last0: seq<int>, mcu: Mcu, em: seq<Token>, last: seq<int>)
    requires LayoutOk(s) && |last0| == |s.comps| && |mcu| == |s.membership|
    requires BlocksAlong(gather, T, s, last0, mcu, |mcu|, em, last)
    ensures EncBlocks(s, last0, mcu, 0) == (em, last) && BlocksInRange(s, last0, mcu, 0) && Acceptable(gather, T, em)
  {
    assert em + [] == em;
  }

  // ----- whole passes -----

  /** What a scan's segments gain with one more MCU. */
  lemma McuAccepted(gather: bool, T: Tables, s: Layout, ri: nat, mcus: seq<Mcu>, done: seq<seq<Token>>, toks: seq<Token>,
                    last: seq<int>, togo: nat, m: Mcu)
    requires LayoutOk(s) && Holds(s, ri, mcus, done, toks, last, togo) && |m| == |s.membership|
    requires var last0 := if ri > 0 && togo == 0 then Zeros(s) else last; |last0| == |s.comps| && BlocksInRange(s, last0, m, 0)
    ensures Shaped(s, mcus + [m])
    ensures var last0 := if ri > 0 && togo == 0 then Zeros(s) else last;
            AcceptsAll(gather, T, ScanSegments(s, ri, mcus + [m])) <==>
            AcceptsAll(gather, T, ScanSegments(s, ri, mcus)) && Acceptable(gather, T, EncBlocks(s, last0, m, 0).0)
  {
    hide EncBlocks, BlocksInRange, Acceptable, AcceptsAll, ScanSegments, ScanInRange;
    HoldsNext(s, ri, mcus, done, toks, last, togo, m);
    var due := ri > 0 && togo == 0;
    var more := EncBlocks(s, if due then Zeros(s) else last, m, 0).0;
    ScanPasses.AcceptsSegs(gather, T, done, toks);
    if due {
      assert [] + more == more;
      ScanPasses.AcceptsSegs(gather, T, done + [toks], more);
    } else {
      ScanPasses.AcceptsSegs(gather, T, done, toks + more);
      AcceptsConcat(gather, T, toks, more);
    }
  }

  lemma NothingYet(gather: bool, T: Tables, s: Layout, ri: nat, none: seq<Mcu>)
    requires LayoutOk(s) && |none| == 0
    ensures AcceptsAll(gather, T, ScanSegments(s, ri, none)) && ScanInRange(s, ri, none)
  {
    assert Stream.Intervals(ri, none) == [[]];
    assert ScanSegments(s, ri, none) == [[]];
  }

  /** If all of a scan is in range and accepted, so is its beginning. */
  lemma {:induction false} PrefixAccepted(gather: bool, T: Tables, s: Layout, ri: nat, mcus: seq<Mcu>, n: nat)
    requires LayoutOk(s) && Shaped(s, mcus) && n <= |mcus|
    requires ScanInRange(s, ri, mcus) && AcceptsAll(gather, T, ScanSegments(s, ri, mcus))
    ensures ScanInRange(s, ri, mcus[..n]) && AcceptsAll(gather, T, ScanSegments(s, ri, mcus[..n]))
    decreases |mcus|
  {
    hide AcceptsAll, ScanSegments, ScanInRange, Holds;
    if n == |mcus| {
      assert mcus[..n] == mcus;
    } else {
      var k := |mcus| - 1;
      assert mcus == mcus[..k] + [mcus[k]] && mcus[..k][..n] == mcus[..n];
      RangeBefore(s, ri, mcus[..k], mcus[k]);
      var done, toks, last, togo := StateAfter(s, ri, mcus[..k]);
      HoldsNext(s, ri, mcus[..k], done, toks, last, togo, mcus[k]);
      McuAccepted(gather, T, s, ri, mcus[..k], done, toks, last, togo, mcus[k]);
      PrefixAccepted(gather, T, s, ri, mcus[..k], n);
    }
  }

  /** A scan that is in range without its last MCU. */
  lemma RangeBefore(s: Layout, ri: nat, mcus: seq<Mcu>, m: Mcu)
    requires LayoutOk(s) && Shaped(s, mcus) && |m| == |s.membership| && ScanInRange(s, ri, mcus + [m])
    ensures ScanInRange(s, ri, mcus)
  {
    hide SegmentInRange, AllInRange, Stream.Intervals;
    IntervalsSnoc(ri, mcus, m);
    IntervalsShaped(s, ri, mcus);
    IntervalsShaped(s, ri, mcus + [m]);
    var ints := Stream.Intervals(ri, mcus);
    var n := |ints| - 1;
    var xs := ints[n];
    assert ints == ints[..n] + [xs];
    if ri > 0 && |xs| == ri {
      InRangeSnoc(s, ints, [m]);
    } else {
      InRangeSnoc(s, ints[..n], xs + [m]);
      SegmentSnoc(s, Zeros(s), xs, m);
      InRangeSnoc(s, ints[..n], xs);
    }
  }

  /** The state in which an encoder is after the MCUs. */
  lemma StateAfter(s: Layout, ri: nat, mcus: seq<Mcu>) returns (done: seq<seq<Token>>, toks: seq<Token>, last: seq<int>, togo: nat)
    requires LayoutOk(s) && Shaped(s, mcus) && ScanInRange(s, ri, mcus)
    ensures Holds(s, ri, mcus, done, toks, last, togo)
  {
    hide SegmentInRange, EncSegment, AllInRange;
    IntervalsShaped(s, ri, mcus);
    var ints := Stream.Intervals(ri, mcus);
    var n := |ints| - 1;
    if |mcus| > 0 {
      assert mcus == mcus[..|mcus| - 1] + [mcus[|mcus| - 1]];
    }
    LastNotLong(ri, mcus);
    var segs := ScanSegments(s, ri, mcus);
    done, toks, last, togo := segs[..n], segs[n], EncSegment(s, Zeros(s), ints[n]).1, if ri > 0 then ri - |ints[n]| else 0;
    assert done + [toks] == segs;
  }

  lemma {:induction false} LastNotLong(ri: nat, mcus: seq<Mcu>)
    ensures ri > 0 ==> |LastInterval(ri, mcus)| <= ri
    decreases |mcus|
  {
    if ri > 0 && |mcus| > ri {
      LastNotLong(ri, mcus[ri..]);
    }
  }

  /** One pass over a scan. It succeeds if and only if no coefficient is out of range
      and no code is missing. A gathering pass counts exactly the symbols that an output
      pass writes. */
  method EncodePass(s: Layout, ri: nat, gather: bool, tables: map<TableId, EncTable>, ghost T: Tables, mcus: seq<Mcu>)
      returns (ok: bool, counts: map<TableId, seq<nat>>, out: seq<Byte>)
    requires LayoutOk(s) && Shaped(s, mcus) && DerivesAll(tables, T) && (gather || ScanTables(s) <= tables.Keys)
    ensures ok == (ScanInRange(s, ri, mcus) && AcceptsAll(gather, T, ScanSegments(s, ri, mcus)))
    ensures ok && gather ==> counts.Keys == ScanTables(s) && CountsAre(counts, ScanSegments(s, ri, mcus)) &&
                             SymbolsInAll(ScanTables(s), ScanSegments(s, ri, mcus))
    ensures ok && !gather ==> Stream.CoversAll(T, ScanSegments(s, ri, mcus)) &&
                              out == Stream.Render(T, ScanSegments(s, ri, mcus), 0, [])
  {
    hide SymbolSink.Valid, AcceptsAll, Acceptable, Stream.Render, CountsAre, SymbolsInAll, Stream.CoversAll, ScanInRange, ScanSegments;
    hide Holds, EncBlocks, BlocksInRange, ScanTables, DerivesAll;
    counts, out := map[], [];
    var encoder := new HuffEncoder(s, ri, gather, tables, T);
    NothingYet(gather, T, s, ri, []);
    ok := true;
    for i := 0 to |mcus|
      invariant encoder.Valid() && encoder.coded == mcus[..i]
      invariant AcceptsAll(gather, T, ScanSegments(s, ri, mcus[..i]))
    {
      ghost var sink, last := encoder.sink, encoder.lastDc[..];
      assert mcus[..i + 1] == mcus[..i] + [mcus[i]];
      HoldsNext(s, ri, mcus[..i], sink.done, sink.toks, last, encoder.restartsToGo, mcus[i]);
      if BlocksInRange(s, encoder.Predictions(), mcus[i], 0) {
        McuAccepted(gather, T, s, ri, mcus[..i], sink.done, sink.toks, last, encoder.restartsToGo, mcus[i]);
      }
      if ScanInRange(s, ri, mcus) && AcceptsAll(gather, T, ScanSegments(s, ri, mcus)) {
        PrefixAccepted(gather, T, s, ri, mcus, i + 1);
      }
      if gather {
        ok := encoder.EncodeMcuGather(mcus[i]);
      } else {
        ok := encoder.EncodeMcuHuff(mcus[i]);
      }
      if !ok { return; }
    }
    assert mcus[..|mcus|] == mcus;
    HeldInRange(s, ri, mcus, encoder.sink.done, encoder.sink.toks, encoder.lastDc[..], encoder.restartsToGo);
    encoder.FinishPass();
    counts := encoder.sink.counts;
    if !gather {
      out := encoder.sink.writer.out;
    }
  }

  lemma HeldInRange(s: Layout, ri: nat, mcus: seq<Mcu>, done: seq<seq<Token>>, toks: seq<Token>, last: seq<int>, togo: nat)
    requires LayoutOk(s) && Holds(s, ri, mcus, done, toks, last, togo)
    ensures Shaped(s, mcus) && ScanInRange(s, ri, mcus)
  {
  }
}
