/** Derived tables of the Huffman decoders (jpeg_make_d_derived_tbl): code limits by
    length, and an 8-bit lookahead cache over the bit-serial decoder. */
module DecoderTables {
  import opened Bits
  import opened Wrappers
  import opened Tokens
  import opened HuffmanCode
  import opened DerivedTables

  /** d_derived_tbl */
  datatype DecTable = DecTable(maxcode: seq<int>, valoffset: seq<int>, lookNbits: seq<nat>, lookSym: seq<Byte>, pub: HuffTbl)

  const HUFF_LOOKAHEAD: nat := 8

  /** The sentinel of maxcode[17], larger than any code. */
  const SENTINEL: int := 0xFFFFF

  ghost predicate LimitsOk(t: HuffTbl, maxcode: seq<int>, valoffset: seq<int>)
    requires Shaped(t)
  {
    |maxcode| == 18 && |valoffset| == 17 && maxcode[17] == SENTINEL &&
    forall l :: 1 <= l <= 16 ==> LimitOk(t, l, maxcode[l], valoffset[l])
  }

  ghost predicate LimitOk(t: HuffTbl, l: nat, maxcode: int, valoffset: int)
    requires Shaped(t) && 1 <= l <= 16
  {
    maxcode == MaxCode(t, l) && (t.bits[l] > 0 ==> valoffset == FirstIdx(t, l) - FirstCode(t, l))
  }

  /** A lookahead entry: the next eight bits start with a code of nb bits for sym,
      or, if nb is 0, with no code of up to eight bits. */
  ghost predicate LookEntry(t: HuffTbl, look: nat, nb: nat, sym: Byte)
    requires Shaped(t) && NumSymbols(t) <= 256
  {
    if nb == 0 then forall l: nat :: 1 <= l <= 8 ==> LooksBeyond(t, look, l)
    else nb <= 8 && Inside(t, nb, Shr(look, 8 - nb), sym)
  }

  /** code is larger than all codes of length l. */
  ghost predicate Beyond(t: HuffTbl, l: nat, code: int)
    requires Shaped(t) && 1 <= l <= 16
  {
    code >= FirstCode(t, l) + t.bits[l]
  }

  ghost predicate LooksBeyond(t: HuffTbl, look: nat, l: nat)
    requires Shaped(t) && 1 <= l <= 8
  {
    Beyond(t, l, Shr(look, 8 - l))
  }

  /** code is the code of length l for sym. */
  ghost predicate Inside(t: HuffTbl, l: nat, code: int, sym: Byte)
    requires Shaped(t) && 1 <= l <= 16 && NumSymbols(t) <= 256
  {
    FirstIdxMono(t, l + 1, |t.bits|);
    FirstCode(t, l) <= code < FirstCode(t, l) + t.bits[l] && sym == t.huffval[FirstIdx(t, l) + code - FirstCode(t, l)]
  }

  ghost predicate LooksOk(t: HuffTbl, nbits: seq<nat>, sym: seq<Byte>)
    requires Shaped(t) && NumSymbols(t) <= 256
  {
    |nbits| == |sym| == 256 && forall look :: 0 <= look < 256 ==> LookEntry(t, look, nbits[look], sym[look])
  }

  ghost predicate TableOk(d: DecTable) {
    ValidCounts(d.pub) && LimitsOk(d.pub, d.maxcode, d.valoffset) && LooksOk(d.pub, d.lookNbits, d.lookSym)
  }

  lemma ShrUnique(v: int, n: nat, q: int)
    requires q * Pow2(n) <= v < q * Pow2(n) + Pow2(n)
    ensures Shr(v, n) == q
  {
    ShrBounds(v, n);
    MulSucc(q, Pow2(n));
    DivBounds(v, Pow2(n), q);
    MulSucc(Shr(v, n), Pow2(n));
    DivBounds(v, Pow2(n), Shr(v, n));
  }

  /** The first bits of a word are its high bits. */
  lemma HighBits(w: seq<bool>, l: nat)
    requires l <= |w|
    ensures FromBits(w[..l]) == Shr(FromBits(w), |w| - l)
  {
    hide FromBits, Shr;
    assert w == w[..l] + w[l..];
    FromBitsConcat(w[..l], w[l..]);
    FromBitsBound(w[l..]);
    ShrUnique(FromBits(w), |w| - l, FromBits(w[..l]));
  }

  // ----- the decoding paths -----

  /** Passing code lengths that do not match. */
  lemma {:induction false} Passes(t: HuffTbl, bits: seq<bool>, l: nat)
    requires Shaped(t) && NumSymbols(t) <= 256 && 1 <= l <= 17
    requires forall m: nat :: 1 <= m < l && m <= |bits| ==> Beyond(t, m, FromBits(bits[..m]))
    ensures |bits| < l ==> Decode(t, bits) == None
    ensures |bits| >= l ==> FromBits(bits[..l]) >= FirstCode(t, l) &&
                            Decode(t, bits) == DecodeFrom(t, FromBits(bits[..l]), l, bits[l..])
    decreases l
  {
    hide DecodeFrom, FirstIdx;
    if l == 1 {
      if bits != [] {
        assert bits[..1][..0] == [];
        assert FromBits(bits[..1]) == if bits[0] then 1 else 0;
        Start(t);
      }
    } else {
      Passes(t, bits, l - 1);
      if |bits| >= l - 1 {
        assert Beyond(t, l - 1, FromBits(bits[..l - 1]));
        PassOne(t, bits, l - 1);
      }
    }
  }

  lemma PassOne(t: HuffTbl, bits: seq<bool>, l: nat)
    requires Shaped(t) && NumSymbols(t) <= 256 && 1 <= l <= 16 && l <= |bits|
    requires Beyond(t, l, FromBits(bits[..l])) && FromBits(bits[..l]) >= FirstCode(t, l)
    ensures |bits| == l ==> DecodeFrom(t, FromBits(bits[..l]), l, bits[l..]) == None
    ensures |bits| > l ==> FromBits(bits[..l + 1]) >= FirstCode(t, l + 1)
    ensures |bits| > l ==>
      DecodeFrom(t, FromBits(bits[..l]), l, bits[l..]) == DecodeFrom(t, FromBits(bits[..l + 1]), l + 1, bits[l + 1..])
  {
    hide FirstIdx;
    if |bits| > l {
      assert bits[..l + 1][..l] == bits[..l];
      assert bits[l..][1..] == bits[l + 1..];
      IdxStep(t, l);
    }
  }

  /** A match after l bits. */
  lemma Matches(t: HuffTbl, bits: seq<bool>, l: nat, sym: Byte)
    requires Shaped(t) && NumSymbols(t) <= 256 && 1 <= l <= 16 && l <= |bits|
    requires Inside(t, l, FromBits(bits[..l]), sym)
    ensures Decode(t, bits) == Some((sym, bits[l..]))
  {
    hide Decode, FirstIdx;
    var w := bits[..l];
    FirstIdxMono(t, l + 1, |t.bits|);
    IdxStep(t, l);
    CodeWordDecodes(t, w, FirstIdx(t, l) + FromBits(w) - FirstCode(t, l), bits[l..]);
    assert bits == w + bits[l..];
  }

  /** The lookahead cache agrees with serial decoding. */
  lemma LookaheadAgrees(d: DecTable, bits: seq<bool>)
    requires TableOk(d) && |bits| >= 8
    ensures FromBits(bits[..8]) < 256
    ensures var look := FromBits(bits[..8]);
            var nb := d.lookNbits[look];
            nb > 0 ==> nb <= 8 && Decode(d.pub, bits) == Some((d.lookSym[look], bits[nb..]))
    ensures d.lookNbits[FromBits(bits[..8])] == 0 ==>
      if |bits| < 9 then Decode(d.pub, bits) == None
      else FromBits(bits[..9]) >= FirstCode(d.pub, 9) &&
           Decode(d.pub, bits) == DecodeFrom(d.pub, FromBits(bits[..9]), 9, bits[9..])
  {
    hide FirstIdx, FirstCode, Decode, DecodeFrom, FromBits, Pow2;
    var w := bits[..8];
    FromBitsBound(w);
    Eight();
    var look := FromBits(w);
    var nb := d.lookNbits[look];
    assert LookEntry(d.pub, look, nb, d.lookSym[look]);
    if nb > 0 {
      HighBits(w, nb);
      assert w[..nb] == bits[..nb];
      Matches(d.pub, bits, nb, d.lookSym[look]);
    } else {
      forall m: nat | 1 <= m < 9 && m <= |bits| ensures Beyond(d.pub, m, FromBits(bits[..m])) {
        assert LooksBeyond(d.pub, look, m);
        HighBits(w, m);
        assert w[..m] == bits[..m];
      }
      Passes(d.pub, bits, 9);
    }
  }

  lemma Eight()
    ensures Pow2(8) == 256
  {
  }

  // ----- building the tables -----

  /** Figure F.15. */
  method MakeLimits(t: HuffTbl, huffcode: array<nat>) returns (maxcode: array<int>, valoffset: array<int>)
    requires ValidCounts(t) && huffcode.Length == 257 && Coded(t, huffcode[..], 17)
    ensures fresh(maxcode) && fresh(valoffset) && LimitsOk(t, maxcode[..], valoffset[..])
  {
    hide FirstIdx, FirstCode, FitsLength;
    maxcode, valoffset := new int[18](_ => 0), new int[17](_ => 0);
    var p: nat := 0;
    Start(t);
    for l := 1 to 17
      invariant p == FirstIdx(t, l) && maxcode.Length == 18 && valoffset.Length == 17
      invariant forall m :: 1 <= m < l ==> LimitOk(t, m, maxcode[m], valoffset[m])
    {
      IdxStep(t, l);
      if t.bits[l] != 0 {
        assert huffcode[..][p] == FirstCode(t, l);
        valoffset[l] := p - huffcode[p];
        p := p + t.bits[l];
        assert huffcode[..][p - 1] == FirstCode(t, l) + t.bits[l] - 1;
        maxcode[l] := huffcode[p - 1];
      } else {
        maxcode[l] := -1;
      }
    }
    maxcode[17] := SENTINEL;
  }

  /** Where the lookahead entries of the k-th code of length l start. */
  function LookStart(t: HuffTbl, l: nat, k: nat): nat
    requires Shaped(t) && 1 <= l <= 8
  {
    (FirstCode(t, l) + k) * Pow2(8 - l)
  }

  /** The entries below pos are filled in, those above are still zero. */
  ghost predicate LooksTo(t: HuffTbl, nbits: seq<nat>, sym: seq<Byte>, pos: nat)
    requires Shaped(t) && NumSymbols(t) <= 256
  {
    |nbits| == |sym| == 256 && pos <= 256 &&
    (forall look :: 0 <= look < pos ==> nbits[look] > 0 && LookEntry(t, look, nbits[look], sym[look])) &&
    (forall look :: pos <= look < 256 ==> nbits[look] == 0)
  }

  lemma LookBounds(t: HuffTbl, l: nat, k: nat)
    requires ValidCounts(t) && 1 <= l <= 8 && k < t.bits[l]
    ensures LookStart(t, l, k + 1) == LookStart(t, l, k) + Pow2(8 - l) <= 256
  {
    hide FirstIdx, FirstCode, Pow2;
    assert FitsLength(t, l);
    MulSucc(FirstCode(t, l) + k, Pow2(8 - l));
    MulLe(FirstCode(t, l) + k + 1, Pow2(l), Pow2(8 - l));
    Pow2Add(l, 8 - l);
    Eight();
  }

  lemma LookNext(t: HuffTbl, l: nat)
    requires Shaped(t) && 1 <= l < 8
    ensures LookStart(t, l, t.bits[l]) == LookStart(t, l + 1, 0)
  {
    hide FirstIdx, FirstCode, Pow2;
    IdxStep(t, l);
    PowerStep(7 - l);
    MulDouble(FirstCode(t, l) + t.bits[l], Pow2(7 - l));
  }

  /** Every word that starts with a code is entered for it. */
  lemma LookInside(t: HuffTbl, l: nat, k: nat, look: nat)
    requires ValidCounts(t) && 1 <= l <= 8 && k < t.bits[l]
    requires LookStart(t, l, k) <= look < LookStart(t, l, k) + Pow2(8 - l)
    ensures FirstIdx(t, l) + k < 256 && LookEntry(t, look, l, t.huffval[FirstIdx(t, l) + k])
  {
    hide FirstIdx, FirstCode, Pow2;
    IdxStep(t, l);
    ShrUnique(look, 8 - l, FirstCode(t, l) + k);
  }

  /** The entries for the code at index p, the k-th of length l. */
  method FillLooks(t: HuffTbl, lookNbits: array<nat>, lookSym: array<Byte>, l: nat, k: nat, code: nat, sym: Byte)
    requires ValidCounts(t) && 1 <= l <= 8 && k < t.bits[l] && lookNbits.Length == lookSym.Length == 256
    requires code == FirstCode(t, l) + k && FirstIdx(t, l) + k < 256 && sym == t.huffval[FirstIdx(t, l) + k]
    requires LooksTo(t, lookNbits[..], lookSym[..], LookStart(t, l, k))
    modifies lookNbits, lookSym
    ensures LooksTo(t, lookNbits[..], lookSym[..], LookStart(t, l, k + 1))
  {
    hide FirstIdx, FirstCode, Pow2, LookEntry;
    LookBounds(t, l, k);
    var lookbits: nat := code * Pow2(8 - l);
    ghost var start: nat := lookbits;
    var ctr := Pow2(8 - l);
    while ctr > 0
      invariant lookbits + ctr == start + Pow2(8 - l) <= 256 && start <= lookbits
      invariant LooksTo(t, lookNbits[..], lookSym[..], lookbits)
    {
      LookInside(t, l, k, lookbits);
      lookNbits[lookbits] := l;
      lookSym[lookbits] := sym;
      lookbits, ctr := lookbits + 1, ctr - 1;
    }
  }

  lemma {:induction false} LookMono(t: HuffTbl, l: nat, m: nat)
    requires Shaped(t) && 1 <= l <= m <= 8
    ensures LookStart(t, l, t.bits[l]) <= LookStart(t, m, t.bits[m])
    decreases m
  {
    hide FirstIdx, FirstCode, Pow2;
    if l < m {
      LookMono(t, l, m - 1);
      LookNext(t, m - 1);
      MulLe(FirstCode(t, m), FirstCode(t, m) + t.bits[m], Pow2(8 - m));
    }
  }

  /** What is above all codes of up to eight bits starts with none of them. */
  lemma LookAbove(t: HuffTbl, look: nat, sym: Byte)
    requires Shaped(t) && NumSymbols(t) <= 256 && look >= LookStart(t, 8, t.bits[8])
    ensures LookEntry(t, look, 0, sym)
  {
    hide FirstIdx, FirstCode, Pow2, Shr, LookStart;
    forall l: nat | 1 <= l <= 8 ensures LooksBeyond(t, look, l) {
      LookMono(t, l, 8);
      AboveAt(t, look, l);
    }
  }

  lemma AboveAt(t: HuffTbl, look: nat, l: nat)
    requires Shaped(t) && 1 <= l <= 8 && look >= LookStart(t, l, t.bits[l])
    ensures LooksBeyond(t, look, l)
  {
    hide FirstIdx, FirstCode, Pow2, Shr;
    var q := FirstCode(t, l) + t.bits[l];
    ShrBounds(look, 8 - l);
    var s := Shr(look, 8 - l);
    if s < q {
      MulLe(s + 1, q, Pow2(8 - l));
      MulSucc(s, Pow2(8 - l));
    }
  }

  method MakeLooks(t: HuffTbl, huffcode: array<nat>) returns (lookNbits: array<nat>, lookSym: array<Byte>)
    requires ValidCounts(t) && huffcode.Length == 257 && Coded(t, huffcode[..], 17)
    ensures fresh(lookNbits) && fresh(lookSym) && LooksOk(t, lookNbits[..], lookSym[..])
  {
    hide FirstIdx, FirstCode, Pow2, LookEntry, LookStart, FitsLength;
    lookNbits, lookSym := new nat[256](_ => 0), new Byte[256](_ => 0);
    var p: nat := 0;
    Start(t);
    LooksFirst(t, lookNbits[..], lookSym[..]);
    for l := 1 to 9
      invariant p == FirstIdx(t, l) && lookNbits.Length == lookSym.Length == 256
      invariant LooksTo(t, lookNbits[..], lookSym[..], if l <= 8 then LookStart(t, l, 0) else LookStart(t, 8, t.bits[8]))
    {
      IdxStep(t, l);
      if l < 8 {
        LookNext(t, l);
      }
      for i := 0 to t.bits[l]
        invariant p == FirstIdx(t, l) + i && LooksTo(t, lookNbits[..], lookSym[..], LookStart(t, l, i))
      {
        assert huffcode[..][p] == FirstCode(t, l) + i;
        FillLooks(t, lookNbits, lookSym, l, i, huffcode[p], t.huffval[p]);
        p := p + 1;
      }
    }
    forall look | 0 <= look < 256 ensures LookEntry(t, look, lookNbits[look], lookSym[look]) {
      if look >= LookStart(t, 8, t.bits[8]) {
        LookAbove(t, look, lookSym[look]);
      }
    }
  }

  lemma LooksFirst(t: HuffTbl, nbits: seq<nat>, sym: seq<Byte>)
    requires Shaped(t) && NumSymbols(t) <= 256 && |nbits| == |sym| == 256 && forall i :: 0 <= i < 256 ==> nbits[i] == 0
    ensures LooksTo(t, nbits, sym, LookStart(t, 1, 0))
  {
    Start(t);
  }

  /** jpeg_make_d_derived_tbl. Unlike the encoder's version it does not look for
      symbols that occur twice. */
  method MakeDecTable(t: HuffTbl, isDC: bool) returns (r: Option<DecTable>)
    requires Shaped(t)
    ensures r.Some? <==> ValidCounts(t) && (isDC ==> SymbolsFit(t, 15))
    ensures r.Some? ==> r.value.pub == t && TableOk(r.value)
  {
    hide FirstIdx, FirstCode, Sized, Coded, FitsLength, LimitsOk, LooksOk;
    var huffsize, huffcode := new nat[257](_ => 0), new nat[257](_ => 0);
    var ok, numsymbols := MakeSizes(t, huffsize);
    if !ok {
      return None;
    }
    ok := MakeCodes(t, huffsize, huffcode);
    if !ok {
      return None;
    }
    var maxcode, valoffset := MakeLimits(t, huffcode);
    var lookNbits, lookSym := MakeLooks(t, huffcode);
    if isDC {
      for i := 0 to numsymbols
        invariant forall p :: 0 <= p < i ==> t.huffval[p] <= 15
      {
        if t.huffval[i] > 15 {
          return None;
        }
      }
    }
    return Some(DecTable(maxcode[..], valoffset[..], lookNbits[..], lookSym[..], t));
  }
}
