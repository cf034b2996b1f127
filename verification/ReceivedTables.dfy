/** Huffman tables that have been through a file assign the same codes. */
module ReceivedTables {
  import opened Bits
  import opened Tokens
  import opened ByteStream
  import opened HuffmanCode
  import opened DerivedTables
  import opened Markers
  import opened HeaderSync
  import Stream = ScanStream

  lemma ReceivedShape(t: HuffTbl)
    requires CountsFit(t)
    ensures Shaped(Received(t)) && forall l :: 1 <= l <= 16 ==> Received(t).bits[l] == t.bits[l]
    ensures forall p :: 0 <= p < NumSymbols(t) ==> Received(t).huffval[p] == t.huffval[p]
  {
    hide FirstIdx;
  }

  lemma {:induction false} ReceivedStarts(t: HuffTbl, l: nat)
    requires CountsFit(t) && l <= 17 && Shaped(Received(t))
    ensures FirstIdx(Received(t), l) == FirstIdx(t, l) && FirstCode(Received(t), l) == FirstCode(t, l)
  {
    ReceivedShape(t);
    hide Received, CountsFit;
    if l > 1 {
      ReceivedStarts(t, l - 1);
    }
  }

  lemma ReceivedCoded(t: HuffTbl, s: int, p: nat, l: nat)
    requires CountsFit(t) && Shaped(Received(t))
    ensures CodedAt(Received(t), s, p, l) <==> CodedAt(t, s, p, l)
  {
    ReceivedShape(t);
    hide Received, FirstIdx, FirstCode;
    if 1 <= l <= 16 {
      ReceivedStarts(t, l);
      ReceivedStarts(t, l + 1);
      FirstIdxMono(t, l + 1, 17);
    }
  }

  lemma ReceivedValid(t: HuffTbl)
    requires CountsFit(t) && Valid(t)
    ensures Valid(Received(t)) && NumSymbols(Received(t)) == NumSymbols(t)
  {
    ReceivedShape(t);
    hide Received, FirstIdx, FirstCode;
    ReceivedStarts(t, 17);
    forall l | 1 <= l <= 16 ensures FitsLength(Received(t), l) {
      ReceivedStarts(t, l);
      assert FitsLength(t, l);
    }
  }

  /** A symbol has one code. */
  lemma OneCode(t: HuffTbl, s: int, p: nat, l: nat, p1: nat, l1: nat)
    requires Valid(t) && CodedAt(t, s, p, l) && CodedAt(t, s, p1, l1)
    ensures p == p1 && l == l1
  {
    hide FirstIdx, FirstCode, FitsLength;
    FirstIdxMono(t, l + 1, 17);
    FirstIdxMono(t, l1 + 1, 17);
    if l < l1 { FirstIdxMono(t, l + 1, l1); }
    if l1 < l { FirstIdxMono(t, l1 + 1, l); }
  }

  /** Where the code of a symbol comes from. */
  lemma Picked(t: HuffTbl, s: int) returns (p: nat, l: nat)
    requires Shaped(t) && HasCode(t, s)
    ensures CodedAt(t, s, p, l) && 1 <= l <= 16 && Code(t, s) == ToBits(FirstCode(t, l) + p - FirstIdx(t, l), l)
  {
    hide FirstIdx, FirstCode;
    p, l :| CodedAt(t, s, p, l) && Code(t, s) == ToBits(FirstCode(t, l) + p - FirstIdx(t, l), l);
  }

  lemma ReceivedCode(t: HuffTbl, s: int)
    requires CountsFit(t) && Valid(t) && Valid(Received(t))
    ensures HasCode(Received(t), s) <==> HasCode(t, s)
    ensures HasCode(t, s) ==> Code(Received(t), s) == Code(t, s)
  {
    hide Received, FirstIdx, FirstCode, CodedAt, Code;
    if HasCode(t, s) {
      var p, l := Picked(t, s);
      ReceivedCoded(t, s, p, l);
      var p1, l1 := Picked(Received(t), s);
      OneCode(Received(t), s, p, l, p1, l1);
      ReceivedStarts(t, l);
    }
    if HasCode(Received(t), s) {
      var p, l := Picked(Received(t), s);
      ReceivedCoded(t, s, p, l);
    }
  }

  lemma ReceivedBook(t: HuffTbl)
    requires CountsFit(t) && Valid(t)
    ensures Valid(Received(t)) && CodingOf(Received(t)).book == CodingOf(t).book && Sound(CodingOf(Received(t)))
  {
    ReceivedValid(t);
    CodingSound(Received(t));
    hide Received, Code, HasCode, Valid, Sound;
    forall s: Byte ensures (s in CodingOf(Received(t)).book <==> s in CodingOf(t).book) &&
                           (s in CodingOf(t).book ==> CodingOf(Received(t)).book[s] == CodingOf(t).book[s]) {
      ReceivedCode(t, s);
    }
  }

  lemma ReceivedFits(t: HuffTbl, max: nat)
    requires CountsFit(t) && Valid(t) && Valid(Received(t)) && SymbolsFit(t, max)
    ensures SymbolsFit(Received(t), max)
  {
    ReceivedShape(t);
    ReceivedValid(t);
    hide Received, FirstIdx;
  }

  // ----- writing with either -----

  ghost predicate SameBooks(T: Tables, T1: Tables) {
    forall id :: id in T ==> id in T1 && T1[id].book == T[id].book
  }

  lemma {:induction false} EmitSame(T: Tables, T1: Tables, toks: seq<Token>, rest: seq<bool>)
    requires Covers(T, toks) && SameBooks(T, T1)
    ensures Covers(T1, toks) && Emit(T1, toks, rest) == Emit(T, toks, rest)
  {
    assert forall i :: 0 <= i < |toks| ==> Emittable(T, toks[i]) && Emittable(T1, toks[i]);
    if toks != [] {
      EmitSame(T, T1, toks[1..], rest);
    }
  }

  lemma {:induction false} RenderSame(T: Tables, T1: Tables, segs: seq<seq<Token>>, k: nat, rest: seq<Byte>)
    requires Stream.CoversAll(T, segs) && SameBooks(T, T1) && segs != []
    ensures Stream.CoversAll(T1, segs) && Stream.Render(T1, segs, k, rest) == Stream.Render(T, segs, k, rest)
    decreases |segs|
  {
    hide SegmentBytes, Emit, Covers, SameBooks;
    forall i | 0 <= i < |segs| ensures Covers(T1, segs[i]) {
      EmitSame(T, T1, segs[i], []);
    }
    EmitSame(T, T1, segs[0], []);
    if |segs| > 1 {
      RenderSame(T, T1, segs[1..], k + 1, rest);
    }
  }
}
