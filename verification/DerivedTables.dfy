/** Derived Huffman tables (jpeg_make_c_derived_tbl and jpeg_make_d_derived_tbl):
    codes by symbol for the encoders, and limits by code length plus an 8-bit
    lookahead cache for the decoders. */
module DerivedTables {
  import opened Bits
  import opened Wrappers
  import opened Tokens
  import opened HuffmanCode
  import opened SymbolOutput

  // ----- code sizes and codes in symbol order (figures C.1 and C.2) -----

  /** Entry p of the size list is the length of the p-th symbol's code; the list
      ends with a zero. */
  ghost predicate Sized(t: HuffTbl, size: seq<nat>, upto: nat)
    requires Shaped(t) && upto <= 17
  {
    |size| == 257 && FirstIdx(t, upto) <= 256 &&
    forall l: nat, p: nat :: 1 <= l < upto && FirstIdx(t, l) <= p < FirstIdx(t, l + 1) && p < 257 ==> size[p] == l
  }

  /** Entry p of the code list is the p-th symbol's code. */
  ghost predicate Coded(t: HuffTbl, code: seq<nat>, upto: nat)
    requires Shaped(t) && upto <= 17
  {
    |code| == 257 &&
    forall l: nat, p: nat :: 1 <= l < upto && FirstIdx(t, l) <= p < FirstIdx(t, l + 1) && p < 257 ==>
      code[p] == FirstCode(t, l) + p - FirstIdx(t, l)
  }

  lemma IdxStep(t: HuffTbl, l: nat)
    requires Shaped(t) && 1 <= l <= 16
    ensures FirstIdx(t, l + 1) == FirstIdx(t, l) + t.bits[l]
    ensures FirstCode(t, l + 1) == 2 * (FirstCode(t, l) + t.bits[l])
    ensures FirstIdx(t, l + 1) <= NumSymbols(t)
  {
    FirstIdxMono(t, l + 1, |t.bits|);
  }

  lemma Start(t: HuffTbl)
    requires Shaped(t)
    ensures FirstIdx(t, 1) == 0 && FirstCode(t, 1) == 0
  {
  }

  /** Figure C.1, with the check against table overrun. */
  method MakeSizes(t: HuffTbl, huffsize: array<nat>) returns (ok: bool, lastp: nat)
    requires Shaped(t) && huffsize.Length == 257
    modifies huffsize
    ensures ok <==> NumSymbols(t) <= 256
    ensures ok ==> lastp == NumSymbols(t) && Sized(t, huffsize[..], 17) && huffsize[lastp] == 0
  {
    hide FirstIdx, FirstCode;
    var p: nat := 0;
    Start(t);
    for l := 1 to 17
      invariant p == FirstIdx(t, l) && Sized(t, huffsize[..], l)
    {
      var i := t.bits[l];
      IdxStep(t, l);
      if p + i > 256 {
        ok, lastp := false, p;
        return;
      }
      ghost var first, before := p, huffsize[..];
      while i > 0
        invariant p + i == first + t.bits[l] && p >= first
        invariant forall q :: 0 <= q < first ==> huffsize[q] == before[q]
        invariant forall q :: first <= q < p ==> huffsize[q] == l
      {
        huffsize[p] := l;
        p, i := p + 1, i - 1;
      }
      SizedNext(t, before, huffsize[..], l);
    }
    SizedEnd(t, huffsize[..], p);
    label Filled:
    huffsize[p] := 0;
    assert huffsize[..] == old@Filled(huffsize[..])[p := 0];
    ok, lastp := true, p;
  }

  lemma SizedNext(t: HuffTbl, before: seq<nat>, size: seq<nat>, l: nat)
    requires Shaped(t) && 1 <= l <= 16 && Sized(t, before, l) && |size| == 257 && FirstIdx(t, l + 1) <= 256
    requires forall q :: 0 <= q < FirstIdx(t, l) ==> size[q] == before[q]
    requires forall q :: FirstIdx(t, l) <= q < FirstIdx(t, l + 1) ==> size[q] == l
    ensures Sized(t, size, l + 1)
  {
    hide FirstIdx;
    forall m: nat, p: nat | 1 <= m < l + 1 && FirstIdx(t, m) <= p < FirstIdx(t, m + 1) && p < 257 ensures size[p] == m {
      FirstIdxMono(t, m + 1, if m < l then l else l + 1);
    }
  }

  lemma SizedEnd(t: HuffTbl, size: seq<nat>, p: nat)
    requires Shaped(t) && Sized(t, size, 17) && p == NumSymbols(t) <= 256
    ensures Sized(t, size[p := 0], 17)
  {
    hide FirstIdx;
    var size1 := size[p := 0];
    forall m: nat, q: nat | 1 <= m < 17 && FirstIdx(t, m) <= q < FirstIdx(t, m + 1) && q < 257 ensures size1[q] == m {
      FirstIdxMono(t, m + 1, |t.bits|);
    }
  }

  /** The length of the first code not shorter than l. */
  lemma {:induction false} NextLength(t: HuffTbl, size: seq<nat>, p: nat, l: nat)
    requires Shaped(t) && NumSymbols(t) <= 256 && Sized(t, size, 17) && 1 <= l <= 17
    requires p == FirstIdx(t, l) && size[NumSymbols(t)] == 0
    ensures p <= NumSymbols(t)
    ensures p == NumSymbols(t) ==> size[p] == 0
    ensures p < NumSymbols(t) ==> l <= size[p] <= 16 && FirstIdx(t, size[p]) == p < FirstIdx(t, size[p] + 1)
    ensures size[p] > l ==> FirstIdx(t, l + 1) == p
    decreases 17 - l
  {
    hide FirstIdx;
    FirstIdxMono(t, l, |t.bits|);
    if l < 17 {
      IdxStep(t, l);
      if t.bits[l] == 0 {
        NextLength(t, size, p, l + 1);
      } else {
        assert size[p] == l;
      }
    }
  }

  lemma {:induction false} NoneBelow(t: HuffTbl, l: nat)
    requires Shaped(t) && 1 <= l <= 17 && FirstIdx(t, l) == 0
    ensures FirstCode(t, l) == 0
    ensures forall m :: 1 <= m < l ==> FitsLength(t, m)
  {
    if l > 1 {
      FirstIdxMono(t, l - 1, l);
      NoneBelow(t, l - 1);
    }
  }

  lemma {:induction false} NoneAbove(t: HuffTbl, l: nat, m: nat)
    requires Shaped(t) && 1 <= l <= m <= 17 && FirstIdx(t, l) == NumSymbols(t) && FirstCode(t, l) < Pow2(l)
    ensures FirstCode(t, m) < Pow2(m) && (m <= 16 ==> FitsLength(t, m))
    decreases m
  {
    if l < m {
      NoneAbove(t, l, m - 1);
    }
    if m <= 16 {
      FirstIdxMono(t, l, m);
      IdxStep(t, m);
    }
  }

  /** Figure C.2. It fails if and only if some code would not fit its length, or
      would be all ones. */
  method MakeCodes(t: HuffTbl, huffsize: array<nat>, huffcode: array<nat>) returns (ok: bool)
    requires Shaped(t) && NumSymbols(t) <= 256 && huffsize.Length == huffcode.Length == 257 && huffsize != huffcode
    requires Sized(t, huffsize[..], 17) && huffsize[NumSymbols(t)] == 0
    modifies huffcode
    ensures huffsize[..] == old(huffsize[..])
    ensures ok <==> ValidCounts(t)
    ensures ok ==> Coded(t, huffcode[..], 17)
  {
    hide FirstIdx, FirstCode, Pow2;
    var code: nat, si, p: nat := 0, huffsize[0], 0;
    ghost var n := NumSymbols(t);
    Start(t);
    NextLength(t, huffsize[..], 0, 1);
    if si > 0 {
      CodesStart(t, huffcode[..], si);
    }
    while huffsize[p] != 0
      invariant p <= n && huffsize[..] == old(huffsize[..])
      invariant si == 0 ==> p == n == 0
      invariant si > 0 ==> CodesBelow(t, huffcode[..], si, p, code)
      decreases 17 - si
    {
      BelowLast(t, huffsize[..], si, p);
      ghost var before := huffcode[..];
      p, code := AssignCodes(t, huffsize, huffcode, si, p, code);
      if code >= Pow2(si) {
        assert !FitsLength(t, si);
        ok := false;
        return;
      }
      CodesNext(t, before, huffcode[..], si);
      code := 2 * code;
      si := si + 1;
    }
    CodesEnd(t, huffsize[..], huffcode[..], si, p, code);
    ok := true;
  }

  lemma BelowLast(t: HuffTbl, size: seq<nat>, l: nat, p: nat)
    requires Shaped(t) && NumSymbols(t) <= 256 && Sized(t, size, 17) && 1 <= l <= 17
    requires p == FirstIdx(t, l) && size[NumSymbols(t)] == 0 && p < 257 && size[p] != 0
    ensures l <= 16 && FirstIdx(t, l + 1) <= NumSymbols(t)
  {
    hide FirstIdx;
    NextLength(t, size, p, l);
    IdxStep(t, l);
  }

  /** The codes of length si. */
  method AssignCodes(t: HuffTbl, huffsize: array<nat>, huffcode: array<nat>, si: nat, p0: nat, code0: nat)
      returns (p: nat, code: nat)
    requires Shaped(t) && NumSymbols(t) <= 256 && huffsize.Length == huffcode.Length == 257 && huffsize != huffcode
    requires Sized(t, huffsize[..], 17) && huffsize[NumSymbols(t)] == 0
    requires 1 <= si <= 16 && p0 == FirstIdx(t, si) && code0 == FirstCode(t, si) && FirstIdx(t, si + 1) <= NumSymbols(t)
    modifies huffcode
    ensures huffsize[..] == old(huffsize[..])
    ensures p == FirstIdx(t, si + 1) && code == FirstCode(t, si) + t.bits[si]
    ensures forall q :: 0 <= q < p0 ==> huffcode[q] == old(huffcode[q])
    ensures forall q :: p0 <= q < p ==> huffcode[q] == FirstCode(t, si) + q - p0
  {
    hide FirstIdx, FirstCode;
    p, code := p0, code0;
    IdxStep(t, si);
    NextLength(t, huffsize[..], FirstIdx(t, si + 1), si + 1);
    while huffsize[p] == si
      invariant p0 <= p <= FirstIdx(t, si + 1) && code == FirstCode(t, si) + p - p0
      invariant huffsize[..] == old(huffsize[..])
      invariant forall q :: 0 <= q < p0 ==> huffcode[q] == old(huffcode[q])
      invariant forall q :: p0 <= q < p ==> huffcode[q] == FirstCode(t, si) + q - p0
      decreases FirstIdx(t, si + 1) - p
    {
      huffcode[p] := code;
      p, code := p + 1, code + 1;
    }
  }

  /** Before the codes of length l are generated. */
  ghost predicate CodesBelow(t: HuffTbl, code: seq<nat>, l: nat, p: nat, next: nat)
    requires Shaped(t)
  {
    1 <= l <= 17 && p == FirstIdx(t, l) && next == FirstCode(t, l) < Pow2(l) && Coded(t, code, l) &&
    forall m :: 1 <= m < l ==> FitsLength(t, m)
  }

  lemma CodesStart(t: HuffTbl, code: seq<nat>, l: nat)
    requires Shaped(t) && |code| == 257 && 1 <= l <= 17 && FirstIdx(t, l) == 0
    ensures CodesBelow(t, code, l, 0, 0)
  {
    hide FirstIdx, FirstCode;
    NoneBelow(t, l);
    forall m: nat | m <= l ensures FirstIdx(t, m) == 0 {
      FirstIdxMono(t, m, l);
    }
  }

  lemma CodesNext(t: HuffTbl, before: seq<nat>, code: seq<nat>, l: nat)
    requires Shaped(t) && 1 <= l <= 16 && |code| == 257 && CodesBelow(t, before, l, FirstIdx(t, l), FirstCode(t, l))
    requires FitsLength(t, l)
    requires FirstIdx(t, l + 1) <= 257
    requires forall q :: 0 <= q < FirstIdx(t, l) ==> code[q] == before[q]
    requires forall q :: FirstIdx(t, l) <= q < FirstIdx(t, l + 1) ==> code[q] == FirstCode(t, l) + q - FirstIdx(t, l)
    ensures CodesBelow(t, code, l + 1, FirstIdx(t, l + 1), 2 * (FirstCode(t, l) + t.bits[l]))
  {
    hide FirstIdx, FirstCode, Pow2;
    IdxStep(t, l);
    assert Pow2(l + 1) == 2 * Pow2(l) by { PowerStep(l); }
    forall m: nat, p: nat | 1 <= m < l + 1 && FirstIdx(t, m) <= p < FirstIdx(t, m + 1) && p < 257
      ensures code[p] == FirstCode(t, m) + p - FirstIdx(t, m)
    {
      if m < l {
        FirstIdxMono(t, m + 1, l);
      }
    }
  }

  lemma PowerStep(l: nat)
    ensures Pow2(l + 1) == 2 * Pow2(l)
  {
  }

  /** At the end of the size list all codes are there and legal. */
  lemma CodesEnd(t: HuffTbl, size: seq<nat>, code: seq<nat>, l: nat, p: nat, next: nat)
    requires Shaped(t) && NumSymbols(t) <= 256 && Sized(t, size, 17) && size[NumSymbols(t)] == 0 && p <= NumSymbols(t)
    requires |code| == 257 && size[p] == 0 && (l == 0 ==> p == NumSymbols(t) == 0) && (l > 0 ==> CodesBelow(t, code, l, p, next))
    ensures ValidCounts(t) && Coded(t, code, 17)
  {
    hide FirstIdx, FirstCode, Pow2;
    Start(t);
    if l == 0 {
      CodesStart(t, code, 17);
    } else {
      NextLength(t, size, p, l);
      forall m | l <= m <= 16 ensures FitsLength(t, m) {
        NoneAbove(t, l, m);
      }
      forall m: nat, q: nat | 1 <= m < 17 && FirstIdx(t, m) <= q < FirstIdx(t, m + 1) && q < 257
        ensures code[q] == FirstCode(t, m) + q - FirstIdx(t, m)
      {
        if m >= l {
          FirstIdxMono(t, l, m);
          FirstIdxMono(t, m + 1, |t.bits|);
        }
      }
    }
  }

  // ----- encoder tables (figure C.3) -----

  /** All symbols are at most max. */
  ghost predicate SymbolsFit(t: HuffTbl, max: int)
    requires Shaped(t) && NumSymbols(t) <= 256
  {
    forall p :: 0 <= p < NumSymbols(t) ==> t.huffval[p] <= max
  }

  /** Every symbol in the list has a code, of the length listed. */
  lemma {:induction false} LengthAt(t: HuffTbl, size: seq<nat>, p: nat, l: nat)
    requires Shaped(t) && NumSymbols(t) <= 256 && Sized(t, size, 17) && 1 <= l <= 17
    requires FirstIdx(t, l) <= p < NumSymbols(t)
    ensures l <= size[p] <= 16 && FirstIdx(t, size[p]) <= p < FirstIdx(t, size[p] + 1)
    decreases 17 - l
  {
    hide FirstIdx;
    if l < 17 {
      IdxStep(t, l);
      if p >= FirstIdx(t, l + 1) {
        LengthAt(t, size, p, l + 1);
      }
    }
  }

  /** The first n symbols are entered; symbols without a code have length 0. */
  ghost predicate Entered(t: HuffTbl, size: seq<nat>, code: seq<nat>, si: seq<nat>, co: seq<nat>, n: nat)
    requires Shaped(t)
  {
    n <= 256 && n < |size| && n < |code| && |si| == 256 && |co| == 256 &&
    (forall p, q :: 0 <= p < q < n ==> t.huffval[p] != t.huffval[q]) &&
    (forall p :: 0 <= p < n ==> si[t.huffval[p]] == size[p] && co[t.huffval[p]] == code[p]) &&
    (forall s :: 0 <= s < 256 ==> si[s] > 0 ==> exists p :: 0 <= p < n && t.huffval[p] == s)
  }

  lemma EnterOne(t: HuffTbl, size: seq<nat>, code: seq<nat>, si: seq<nat>, co: seq<nat>, n: nat)
    requires Shaped(t) && n < 256 && n + 1 < |size| && n + 1 < |code| && Entered(t, size, code, si, co, n)
    requires forall p :: 0 <= p < n ==> size[p] > 0
    ensures si[t.huffval[n]] == 0 ==>
      Entered(t, size, code, si[t.huffval[n] := size[n]], co[t.huffval[n] := code[n]], n + 1)
    ensures si[t.huffval[n]] > 0 ==> exists p :: 0 <= p < n && t.huffval[p] == t.huffval[n]
  {
    var x := t.huffval[n];
    if si[x] == 0 {
      var si1 := si[x := size[n]];
      forall s | 0 <= s < 256 && si1[s] > 0 ensures exists p :: 0 <= p < n + 1 && t.huffval[p] == s {
        if s == x {
          assert t.huffval[n] == s;
        } else {
          assert si[s] > 0;
        }
      }
    }
  }

  lemma EnteredAt(t: HuffTbl, size: seq<nat>, code: seq<nat>, si: seq<nat>, co: seq<nat>, s: Byte)
    requires ValidCounts(t) && Sized(t, size, 17) && Coded(t, code, 17)
    requires Entered(t, size, code, si, co, NumSymbols(t))
    ensures si[s] <= 16 && (HasCode(t, s) <==> si[s] > 0) && (HasCode(t, s) ==> ToBits(co[s], si[s]) == Code(t, s))
  {
    hide FirstIdx, FirstCode, ToBits, FitsLength;
    Start(t);
    if si[s] > 0 {
      var p :| 0 <= p < NumSymbols(t) && t.huffval[p] == s;
      LengthAt(t, size, p, 1);
      assert CodedAt(t, s, p, size[p]);
    }
    if HasCode(t, s) {
      CodeEntered(t, size, code, si, co, s);
    }
  }

  /** A full encoder table holds the code words of the Huffman table. */
  lemma EnteredAll(t: HuffTbl, size: seq<nat>, code: seq<nat>, si: seq<nat>, co: seq<nat>)
    requires ValidCounts(t) && Sized(t, size, 17) && Coded(t, code, 17)
    requires Entered(t, size, code, si, co, NumSymbols(t))
    ensures Valid(t) && Derives(EncTable(co, si), CodingOf(t).book)
  {
    hide FirstIdx, FirstCode, ToBits, FitsLength, HasCode, Code, Sized, Coded;
    forall s: Byte ensures si[s] <= 16 && (HasCode(t, s) <==> si[s] > 0) && (HasCode(t, s) ==> ToBits(co[s], si[s]) == Code(t, s)) {
      EnteredAt(t, size, code, si, co, s);
    }
  }

  lemma CodeEntered(t: HuffTbl, size: seq<nat>, code: seq<nat>, si: seq<nat>, co: seq<nat>, s: Byte)
    requires ValidCounts(t) && Sized(t, size, 17) && Coded(t, code, 17)
    requires Entered(t, size, code, si, co, NumSymbols(t)) && HasCode(t, s)
    ensures si[s] > 0 && ToBits(co[s], si[s]) == Code(t, s)
  {
    hide FirstIdx, FirstCode, ToBits;
    var p: nat, l: nat :| CodedAt(t, s, p, l) && Code(t, s) == ToBits(FirstCode(t, l) + p - FirstIdx(t, l), l);
    FirstIdxMono(t, l + 1, |t.bits|);
    assert size[p] == l;
  }

  /** jpeg_make_c_derived_tbl. It accepts exactly the legal tables. */
  method MakeEncTable(t: HuffTbl, isDC: bool) returns (r: Option<EncTable>)
    requires Shaped(t)
    ensures r.Some? <==> Valid(t) && SymbolsFit(t, if isDC then 15 else 255)
    ensures r.Some? ==> Derives(r.value, CodingOf(t).book)
  {
    hide FirstIdx, FirstCode, Sized, Coded, Derives, CodingOf, FitsLength;
    var huffsize, huffcode := new nat[257](_ => 0), new nat[257](_ => 0);
    var ok, lastp := MakeSizes(t, huffsize);
    if !ok {
      return None;
    }
    ok := MakeCodes(t, huffsize, huffcode);
    if !ok {
      return None;
    }
    ghost var size, code := huffsize[..], huffcode[..];
    SizesPositive(t, size);
    var ehufsi, ehufco := new nat[256](_ => 0), new nat[256](_ => 0);
    var maxsymbol := if isDC then 15 else 255;
    for p := 0 to lastp
      invariant Entered(t, size, code, ehufsi[..], ehufco[..], p) && huffsize[..] == size && huffcode[..] == code
      invariant forall q :: 0 <= q < p ==> t.huffval[q] <= maxsymbol
    {
      var i := t.huffval[p];
      EnterOne(t, size, code, ehufsi[..], ehufco[..], p);
      if i > maxsymbol || ehufsi[i] != 0 {
        return None;
      }
      ghost var si, co := ehufsi[..], ehufco[..];
      ehufco[i] := huffcode[p];
      ehufsi[i] := huffsize[p];
      assert ehufsi[..] == si[i := size[p]] && ehufco[..] == co[i := code[p]];
    }
    EnteredAll(t, size, code, ehufsi[..], ehufco[..]);
    return Some(EncTable(ehufco[..], ehufsi[..]));
  }

  lemma SizesPositive(t: HuffTbl, size: seq<nat>)
    requires Shaped(t) && NumSymbols(t) <= 256 && Sized(t, size, 17)
    ensures |size| == 257 && forall p :: 0 <= p < NumSymbols(t) ==> size[p] > 0
  {
    hide FirstIdx;
    Start(t);
    forall p: nat | p < NumSymbols(t) ensures size[p] > 0 {
      LengthAt(t, size, p, 1);
    }
  }
}
