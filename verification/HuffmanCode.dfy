/** Canonical Huffman codes (ITU-T T.81 section C.2) as the encoder assigns them,
    and the bit-serial decoder of figure F.16 that inverts them. */
module HuffmanCode {
  import opened Bits
  import opened Wrappers
  import opened Tokens

  /** A JHUFF_TBL: bits[l] is the number of codes of length l (bits[0] unused);
      huffval lists the symbols in order of increasing code length. */
  datatype HuffTbl = HuffTbl(bits: seq<nat>, huffval: seq<Byte>)

  /** What the C struct guarantees by its declaration. */
  predicate Shaped(t: HuffTbl) {
    |t.bits| == 17 && |t.huffval| == 256
  }

  /** Number of codes shorter than l, i.e. index of the first symbol of length l. */
  function FirstIdx(t: HuffTbl, l: nat): nat
    requires Shaped(t) && l <= 17
  {
    if l <= 1 then 0 else FirstIdx(t, l - 1) + t.bits[l - 1]
  }

  /** The first code of length l. */
  function FirstCode(t: HuffTbl, l: nat): nat
    requires Shaped(t) && l <= 17
  {
    if l <= 1 then 0 else 2 * (FirstCode(t, l - 1) + t.bits[l - 1])
  }

  function NumSymbols(t: HuffTbl): nat
    requires Shaped(t)
  {
    FirstIdx(t, |t.bits|)
  }

  /** The counts fit the symbol list and describe a prefix code in which no
      code is all ones. */
  ghost predicate ValidCounts(t: HuffTbl) {
    Shaped(t) && NumSymbols(t) <= 256 && forall l :: 1 <= l <= 16 ==> FitsLength(t, l)
  }

  /** The codes of length l fit in l bits without using the all-ones word. */
  predicate FitsLength(t: HuffTbl, l: nat)
    requires Shaped(t) && 1 <= l <= 16
  {
    FirstCode(t, l) + t.bits[l] < Pow2(l)
  }

  /** No symbol is listed twice. */
  ghost predicate DistinctSymbols(t: HuffTbl)
    requires Shaped(t) && NumSymbols(t) <= 256
  {
    forall p, q :: 0 <= p < q < NumSymbols(t) ==> t.huffval[p] != t.huffval[q]
  }

  ghost predicate Valid(t: HuffTbl) {
    ValidCounts(t) && DistinctSymbols(t)
  }

  /** s has a code of length l, at index p of the symbol list. */
  ghost predicate CodedAt(t: HuffTbl, s: int, p: nat, l: nat)
    requires Shaped(t)
  {
    1 <= l <= 16 && FirstIdx(t, l) <= p < FirstIdx(t, l + 1) && p < 256 && t.huffval[p] == s
  }

  ghost predicate HasCode(t: HuffTbl, s: int)
    requires Shaped(t)
  {
    exists p: nat, l: nat :: CodedAt(t, s, p, l)
  }

  /** The code word of s. */
  ghost function Code(t: HuffTbl, s: int): (c: seq<bool>)
    requires Shaped(t) && HasCode(t, s)
    ensures 1 <= |c| <= 16
  {
    var p: nat, l: nat :| CodedAt(t, s, p, l);
    ToBits(FirstCode(t, l) + p - FirstIdx(t, l), l)
  }

  /** maxcode[l] of the decoder: the largest code of length l, or -1. */
  function MaxCode(t: HuffTbl, l: nat): int
    requires Shaped(t) && 1 <= l <= 16
  {
    if t.bits[l] == 0 then -1 else FirstCode(t, l) + t.bits[l] - 1
  }

  /** The decoding loop after l bits with value code have been read. Exceeding
      16 bits means garbage; the source then returns a zero symbol. */
  function DecodeFrom(t: HuffTbl, code: nat, l: nat, bits: seq<bool>): Option<(Byte, seq<bool>)>
    requires Shaped(t) && NumSymbols(t) <= 256
    requires 1 <= l <= 17 && code >= FirstCode(t, l)
    decreases 17 - l
  {
    if l == 17 then Some((0, bits))
    else if code <= MaxCode(t, l) then
      FirstIdxMono(t, l + 1, |t.bits|);
      Some((t.huffval[code + FirstIdx(t, l) - FirstCode(t, l)], bits))
    else if bits == [] then None
    else DecodeFrom(t, 2 * code + (if bits[0] then 1 else 0), l + 1, bits[1..])
  }

  /** Reads one symbol off a bit string; None if the bits run out. */
  function Decode(t: HuffTbl, bits: seq<bool>): Option<(Byte, seq<bool>)>
    requires Shaped(t) && NumSymbols(t) <= 256
  {
    if bits == [] then None
    else DecodeFrom(t, if bits[0] then 1 else 0, 1, bits[1..])
  }

  lemma {:induction false} FirstIdxMono(t: HuffTbl, l: nat, m: nat)
    requires Shaped(t) && l <= m <= 17
    ensures FirstIdx(t, l) <= FirstIdx(t, m)
    decreases m
  {
    if l < m {
      FirstIdxMono(t, l, m - 1);
    }
  }

  /** w is the code word at index p of the symbol list. */
  ghost predicate IsCodeWord(t: HuffTbl, w: seq<bool>, p: nat)
    requires Shaped(t)
  {
    1 <= |w| <= 16 && FirstIdx(t, |w|) <= p < FirstIdx(t, |w| + 1) && p < 256 &&
    FromBits(w) == FirstCode(t, |w|) + p - FirstIdx(t, |w|)
  }

  /** If reading has the result res once all of w is in, then it has that
      result from any earlier point of w on. */
  lemma {:induction false} ReadsOn(t: HuffTbl, w: seq<bool>, l: nat, rest: seq<bool>, res: Option<(Byte, seq<bool>)>)
    requires Shaped(t) && NumSymbols(t) <= 256 && 1 <= l <= |w| <= 16
    requires FromBits(w) >= FirstCode(t, |w|) && DecodeFrom(t, FromBits(w), |w|, rest) == res
    ensures FromBits(w[..l]) >= FirstCode(t, l)
    ensures DecodeFrom(t, FromBits(w[..l]), l, w[l..] + rest) == res
    decreases |w| - l
  {
    if l == |w| {
      assert w[..l] == w && w[l..] + rest == rest;
    } else {
      ReadsOn(t, w, l + 1, rest, res);
      ReadsOneBack(t, w, l, rest, res);
    }
  }

  lemma ReadsOneBack(t: HuffTbl, w: seq<bool>, l: nat, rest: seq<bool>, res: Option<(Byte, seq<bool>)>)
    requires Shaped(t) && NumSymbols(t) <= 256 && 1 <= l < |w| <= 16
    requires FromBits(w[..l + 1]) >= FirstCode(t, l + 1)
    requires DecodeFrom(t, FromBits(w[..l + 1]), l + 1, w[l + 1..] + rest) == res
    ensures FromBits(w[..l]) >= FirstCode(t, l)
    ensures DecodeFrom(t, FromBits(w[..l]), l, w[l..] + rest) == res
  {
    OneBitFurther(w, l, rest);
    ReadAnother(t, FromBits(w[..l]), FromBits(w[..l + 1]), l, w[l..] + rest, w[l + 1..] + rest);
  }

  lemma OneBitFurther(w: seq<bool>, l: nat, rest: seq<bool>)
    requires l < |w|
    ensures (w[l..] + rest)[0] == w[l]
    ensures (w[l..] + rest)[1..] == w[l + 1..] + rest
    ensures FromBits(w[..l + 1]) == 2 * FromBits(w[..l]) + (if w[l] then 1 else 0)
  {
    assert w[..l + 1][..l] == w[..l];
  }

  lemma AllRead(t: HuffTbl, w: seq<bool>, p: nat, rest: seq<bool>)
    requires Shaped(t) && NumSymbols(t) <= 256 && IsCodeWord(t, w, p)
    ensures FromBits(w) >= FirstCode(t, |w|)
    ensures DecodeFrom(t, FromBits(w), |w|, rest) == Some((t.huffval[p], rest))
  {
    assert FirstIdx(t, |w| + 1) == FirstIdx(t, |w|) + t.bits[|w|];
    assert FromBits(w) <= MaxCode(t, |w|);
  }

  lemma ReadAnother(t: HuffTbl, code: nat, code1: nat, l: nat, bits: seq<bool>, bits1: seq<bool>)
    requires Shaped(t) && NumSymbols(t) <= 256 && 1 <= l <= 16
    requires bits != [] && bits1 == bits[1..]
    requires code1 == 2 * code + (if bits[0] then 1 else 0) && code1 >= FirstCode(t, l + 1)
    ensures code >= FirstCode(t, l) + t.bits[l]
    ensures DecodeFrom(t, code, l, bits) == DecodeFrom(t, code1, l + 1, bits1)
  {
  }

  /** The serial decoder inverts every code word, whatever follows it. */
  lemma CodeWordDecodes(t: HuffTbl, w: seq<bool>, p: nat, rest: seq<bool>)
    requires Shaped(t) && NumSymbols(t) <= 256 && IsCodeWord(t, w, p)
    ensures Decode(t, w + rest) == Some((t.huffval[p], rest))
  {
    AllRead(t, w, p, rest);
    ReadsOn(t, w, 1, rest, Some((t.huffval[p], rest)));
    assert w[..1][..0] == [];
    assert FromBits(w[..1]) == if w[0] then 1 else 0;
    assert (w + rest)[1..] == w[1..] + rest;
  }

  lemma CodeIsCodeWord(t: HuffTbl, p: nat, l: nat)
    requires ValidCounts(t) && 1 <= l <= 16 && FirstIdx(t, l) <= p < FirstIdx(t, l + 1)
    ensures p < 256
    ensures IsCodeWord(t, ToBits(FirstCode(t, l) + p - FirstIdx(t, l), l), p)
  {
    FirstIdxMono(t, l + 1, |t.bits|);
    assert FitsLength(t, l);
    SmallToBits(FirstCode(t, l) + p - FirstIdx(t, l), l);
  }

  lemma SmallToBits(v: nat, n: nat)
    requires v < Pow2(n)
    ensures FromBits(ToBits(v, n)) == v
  {
    FromToBits(v, n);
    SmallMod(v, Pow2(n));
  }

  lemma SmallMod(v: nat, d: nat)
    requires v < d
    ensures v % d == v
  {
  }

  /** Decoding inverts the code of every coded symbol, whatever follows it. */
  lemma DecodeInverts(t: HuffTbl, s: int, rest: seq<bool>)
    requires Valid(t) && HasCode(t, s)
    ensures 0 <= s < 256
    ensures Decode(t, Code(t, s) + rest) == Some((s, rest))
  {
    var p: nat, l: nat :| CodedAt(t, s, p, l) && Code(t, s) == ToBits(FirstCode(t, l) + p - FirstIdx(t, l), l);
    CodeIsCodeWord(t, p, l);
    CodeWordDecodes(t, Code(t, s), p, rest);
  }

  /** The codebook and reader of a table. */
  ghost function CodingOf(t: HuffTbl): Coding
    requires Shaped(t) && NumSymbols(t) <= 256
  {
    Coding(map s: Byte | HasCode(t, s) :: Code(t, s), bits => Decode(t, bits))
  }

  lemma CodingSound(t: HuffTbl)
    requires Valid(t)
    ensures Sound(CodingOf(t))
  {
    var c := CodingOf(t);
    forall s: Byte, rest: seq<bool> | s in c.book ensures c.read(c.book[s] + rest) == Some((s, rest)) {
      DecodeInverts(t, s, rest);
    }
  }
}
