/** The bit buffer of the Huffman encoders (emit_bits, flush_bits): bits are
    collected left-justified in 24 bits of a 32-bit word and leave it as stuffed
    bytes. */
module BitWriting {
  import opened Bits
  import opened Tokens
  import opened ByteStream

  /** Bitwise or. */
  function BitOr(a: nat, b: nat): nat
    decreases a + b
  {
    if a == 0 then b
    else if b == 0 then a
    else 2 * BitOr(a / 2, b / 2) + (if a % 2 == 1 || b % 2 == 1 then 1 else 0)
  }

  /** Values without common bits are merged by adding. */
  lemma {:induction false} OrDisjoint(a: nat, b: nat, n: nat)
    requires a % Pow2(n) == 0 && b < Pow2(n)
    ensures BitOr(a, b) == a + b
    decreases n
  {
    if n > 0 && a > 0 && b > 0 {
      ModDouble(a, Pow2(n - 1));
      OrDisjoint(a / 2, b / 2, n - 1);
    }
  }

  const WORD: nat := 0x1_0000_0000
  const W24: nat := 0x100_0000

  /** The bits rem, left-justified in the right 24 bits of the word. */
  ghost predicate Holds(word: nat, rem: seq<bool>) {
    |rem| <= 24 && word % W24 == FromBits(rem) * Pow2(24 - |rem|)
  }

  lemma EmptyWord(start: seq<Byte>, none: seq<bool>)
    requires |none| == 0
    ensures Holds(0, LeftOver(none)) && start + Stuff(none) == start
  {
    hide Pow2;
    StuffShort(none);
  }

  lemma Pow24()
    ensures Pow2(24) == W24 && Pow2(16) == 65536 && Pow2(8) == 256
  {
    Pow2Add(8, 8);
    Pow2Add(16, 8);
    assert Pow2(8) == 256;
  }

  /** Merging size more bits into the word. */
  lemma MergeBits(word: nat, rem: seq<bool>, code: int, size: nat)
    requires Holds(word, rem) && 0 < size && |rem| + size <= 24 && word < WORD
    ensures 0 <= code % Pow2(size) * Pow2(24 - |rem| - size) < W24
    ensures var merged := BitOr(word, code % Pow2(size) * Pow2(24 - |rem| - size));
            merged < WORD && Holds(merged, rem + ToBits(code, size))
  {
    hide FromBits, Pow2, ToBits, BitOr;
    var x, s := code % Pow2(size), Pow2(24 - |rem| - size);
    Room(|rem|, size);
    ShiftedBound(x, s, Pow2(size));
    FromBitsBound(rem);
    LowClear(word, FromBits(rem), Pow2(24 - |rem|), Pow2(|rem|));
    OrDisjoint(word, x * s, 24 - |rem|);
    ShiftedBound(FromBits(rem), Pow2(24 - |rem|), Pow2(|rem|));
    MergedValue(rem, code, size, s);
    AddLow(word, FromBits(rem) * Pow2(24 - |rem|), x * s, Pow2(24 - |rem|));
  }

  lemma Room(n: nat, size: nat)
    requires n + size <= 24
    ensures Pow2(size) * Pow2(24 - n - size) == Pow2(24 - n) <= W24
    ensures Pow2(n) * Pow2(24 - n) == W24
  {
    Pow24();
    Pow2Add(size, 24 - n - size);
    Pow2Add(n, 24 - n);
    Pow2Mono(24 - n, 24);
  }

  lemma MergedValue(rem: seq<bool>, code: int, size: nat, s: nat)
    requires |rem| + size <= 24 && Pow2(size) * s == Pow2(24 - |rem|)
    ensures FromBits(rem + ToBits(code, size)) * s == FromBits(rem) * Pow2(24 - |rem|) + code % Pow2(size) * s
  {
    hide FromBits, Pow2, ToBits;
    FromBitsConcat(rem, ToBits(code, size));
    FromToBits(code, size);
    Distribute(FromBits(rem), Pow2(size), code % Pow2(size), s);
  }

  lemma ShiftedBound(x: nat, s: nat, d: nat)
    requires x < d && s > 0
    ensures x * s < d * s && x * s <= d * s - s
  {
    MulLe(x + 1, d, s);
    MulSucc(x, s);
  }

  lemma Distribute(hi: nat, p: nat, x: nat, s: nat)
    ensures (hi * p + x) * s == hi * (p * s) + x * s
  {
  }

  /** A word that holds its bits left-justified is a multiple of what is below. */
  lemma LowClear(word: nat, hi: nat, d: nat, m: nat)
    requires d > 0 && m > 0 && m * d == W24 && word % W24 == hi * d
    ensures word % d == 0
  {
    var q := word / W24;
    assert word == q * W24 + hi * d;
    assert q * (m * d) == (q * m) * d;
    assert word == (q * m + hi) * d;
    DivBounds(word, d, q * m + hi);
  }

  lemma AddLow(word: nat, a: nat, b: nat, d: nat)
    requires word < WORD && word % W24 == a && a <= W24 - d && b < d
    ensures (word + b) % W24 == a + b && word + b < WORD
  {
  }

  /** The first byte of at least eight bits, and what remains. */
  lemma TakeByte(word: nat, rem: seq<bool>)
    requires Holds(word, rem) && |rem| >= 8 && word < WORD
    ensures word / 65536 % 256 == ByteOf(rem[..8])
    ensures word * 256 % WORD < WORD && Holds(word * 256 % WORD, rem[8..])
  {
    hide FromBits;
    var hi, lo, s := rem[..8], rem[8..], Pow2(24 - |rem|);
    SplitHeld(rem);
    SplitWord(word, FromBits(hi), FromBits(lo) * s);
    Pow2Add(24 - |rem|, 8);
    TimesByte(FromBits(lo), s);
  }

  lemma TimesByte(x: nat, s: nat)
    ensures x * (s * Pow2(8)) == x * s * 256
  {
    Pow24();
  }

  /** The first byte of the bits a word holds, and the rest. */
  lemma SplitHeld(rem: seq<bool>)
    requires 8 <= |rem| <= 24
    ensures var hi, lo, s := FromBits(rem[..8]), FromBits(rem[8..]), Pow2(24 - |rem|);
            hi < 256 && lo * s < 65536 && FromBits(rem) * s == hi * 65536 + lo * s
  {
    hide FromBits, Pow2;
    var hi, lo, s := rem[..8], rem[8..], Pow2(24 - |rem|);
    assert rem == hi + lo;
    FromBitsConcat(hi, lo);
    FromBitsBound(hi);
    FromBitsBound(lo);
    Pow24();
    Pow2Add(|lo|, 24 - |rem|);
    Distribute(FromBits(hi), Pow2(|lo|), FromBits(lo), s);
    ShiftedBound(FromBits(lo), s, Pow2(|lo|));
  }

  lemma SplitWord(word: nat, hi: nat, lo: nat)
    requires word % W24 == hi * 65536 + lo && hi < 256 && lo < 65536
    ensures word / 65536 % 256 == hi
    ensures word * 256 % WORD % W24 == lo * 256
  {
    var q := word / W24;
    assert word == q * W24 + hi * 65536 + lo;
    DivBounds(word, 65536, q * 256 + hi);
    DivBounds(word * 256, WORD, q);
    DivBounds(hi * W24 + lo * 256, W24, hi);
  }

  class BitWriter {
    var putBuffer: nat
    var putBits: nat
    /** Bytes handed to the destination. */
    var out: seq<Byte>

    /** The bytes before the current segment, and the bits emitted in it. */
    ghost var start: seq<Byte>
    ghost var segment: seq<bool>

    ghost predicate Valid()
      reads this
    {
      putBuffer < WORD && putBits == |segment| % 8 && Holds(putBuffer, LeftOver(segment)) &&
      out == start + Stuff(segment)
    }

    constructor ()
      ensures Valid() && out == [] && start == [] && segment == []
    {
      putBuffer, putBits, out, start, segment := 0, 0, [], [], [];
      new;
      hide Stuff, Holds;
      EmptyWord(start, segment);
    }

    /** Emits a byte, and a stuffed zero after FF. */
    method EmitDataByte(c: Byte)
      modifies this`out
      ensures out == old(out) + StuffByte(c)
    {
      out := out + [c];
      if c == 0xFF {
        out := out + [0];
      }
    }

    /** The output loop of emit_bits: whole bytes leave the word. The word holds rem;
        done is what has been written of the segment. */
    method OutputBytes(word0: nat, bits0: nat, ghost done0: seq<bool>, ghost rem0: seq<bool>)
        returns (word: nat, bits: nat, ghost done: seq<bool>, ghost rem: seq<bool>)
      requires word0 < WORD && Holds(word0, rem0) && bits0 == |rem0|
      requires |done0| % 8 == 0 && out == start + Stuff(done0)
      modifies this`out
      ensures word < WORD && Holds(word, rem) && bits == |rem| < 8
      ensures |done| % 8 == 0 && out == start + Stuff(done) && done + rem == done0 + rem0
    {
      hide Stuff, StuffByte, Holds, ByteOf;
      word, bits, done, rem := word0, bits0, done0, rem0;
      while bits >= 8
        invariant bits == |rem| && word < WORD && Holds(word, rem)
        invariant |done| % 8 == 0 && done + rem == done0 + rem0 && out == start + Stuff(done)
      {
        TakeByte(word, rem);
        var c := word / 65536 % 256;
        EmitDataByte(c);
        StuffNext(done, rem, start);
        word := word * 256 % WORD;
        bits := bits - 8;
        done, rem := done + rem[..8], rem[8..];
      }
    }

    /** emit_bits: appends the low size bits of code; size 0 means that the caller
        used a symbol without a code. */
    method EmitBits(code: int, size: nat) returns (ok: bool)
      requires Valid() && size <= 16
      modifies this
      ensures Valid() && ok == (size > 0) && start == old(start)
      ensures segment == old(segment) + if ok then ToBits(code, size) else []
    {
      hide Stuff, ToBits, Pow2, Holds, BitOr;
      if size == 0 {
        ok := false;
        assert segment + [] == segment;
        return;
      }
      ghost var rem := LeftOver(segment) + ToBits(code, size);
      ghost var done := segment[..|segment| - |segment| % 8];
      MergeBits(putBuffer, LeftOver(segment), code, size);
      StuffWhole(segment);
      var word: nat := code % Pow2(size);
      var bits := putBits + size;
      word := word * Pow2(24 - bits);
      word := BitOr(putBuffer, word);
      SplitAgain(segment, ToBits(code, size));
      word, bits, done, rem := OutputBytes(word, bits, done, rem);
      putBuffer := word;
      putBits := bits;
      segment := segment + ToBits(code, size);
      LeftOverIs(done, rem);
      StuffWhole(segment);
      ok := true;
    }

    /** flush_bits: fills up a partial byte with ones. */
    method FlushBits()
      requires Valid()
      modifies this
      ensures Valid() && |segment| == 0 && start == out
      ensures out == old(start) + SegmentBytes(old(segment))
    {
      hide Stuff, ToBits, Holds, SegmentBytes, LeftOver;
      var ok := EmitBits(0x7F, 7);
      putBuffer := 0;
      putBits := 0;
      SevenOnes(old(segment));
      start, segment := out, segment[..0];
      EmptyWord(start, segment);
    }

    /** Emits a marker between segments. */
    method EmitMarker(code: Byte)
      requires Valid() && |segment| == 0
      modifies this
      ensures Valid() && |segment| == 0 && start == out && out == old(out) + [0xFF, code]
      ensures segment == old(segment)
    {
      hide Stuff, Holds, LeftOver;
      out := out + [0xFF];
      out := out + [code];
      start := out;
      EmptyWord(start, segment);
    }
  }

  lemma StuffShort(bits: seq<bool>)
    requires |bits| < 8
    ensures Stuff(bits) == []
  {
  }

  lemma StuffOne(bits: seq<bool>)
    requires |bits| == 8
    ensures Stuff(bits) == StuffByte(ByteOf(bits))
  {
    hide ByteOf, StuffByte;
    assert bits[..8] == bits;
    StuffShort(bits[8..]);
  }

  /** Only whole bytes are written. */
  lemma StuffWhole(bits: seq<bool>)
    ensures Stuff(bits) == Stuff(bits[..|bits| - |bits| % 8])
  {
    StuffUpTo(bits, |bits| - |bits| % 8);
  }

  lemma StuffUpTo(bits: seq<bool>, n: nat)
    requires n % 8 == 0 && n <= |bits| < n + 8
    ensures Stuff(bits) == Stuff(bits[..n])
  {
    hide Stuff;
    var whole, more := bits[..n], bits[n..];
    assert bits == whole + more;
    StuffConcat(whole, more);
    StuffShort(more);
    assert Stuff(whole) + [] == Stuff(whole);
  }

  lemma StuffNext(done: seq<bool>, rem: seq<bool>, start: seq<Byte>)
    requires |done| % 8 == 0 && |rem| >= 8
    ensures start + Stuff(done) + StuffByte(ByteOf(rem[..8])) == start + Stuff(done + rem[..8])
    ensures done + rem == done + rem[..8] + rem[8..]
  {
    hide Stuff, ByteOf, StuffByte;
    StuffConcat(done, rem[..8]);
    StuffOne(rem[..8]);
    SeqAssoc(start, Stuff(done), StuffByte(ByteOf(rem[..8])));
    assert rem == rem[..8] + rem[8..];
    SeqAssoc(done, rem[..8], rem[8..]);
  }

  lemma SplitAgain(bits: seq<bool>, more: seq<bool>)
    ensures bits[..|bits| - |bits| % 8] + (LeftOver(bits) + more) == bits + more
  {
  }

  lemma LeftOverIs(done: seq<bool>, rem: seq<bool>)
    requires |done| % 8 == 0 && |rem| < 8
    ensures LeftOver(done + rem) == rem && |done + rem| % 8 == |rem|
    ensures (done + rem)[..|done + rem| - |done + rem| % 8] == done
  {
  }

  /** Seven ones complete the last byte and leave less than a byte over. */
  lemma SevenOnes(bits: seq<bool>)
    ensures Stuff(bits + ToBits(0x7F, 7)) == SegmentBytes(bits)
  {
    var pad := Padding(|bits|);
    Ones(7);
    var all := bits + ToBits(0x7F, 7);
    assert Pow2(7) == 128;
    var more := seq(7 - |pad|, _ => true);
    assert all == (bits + pad) + more;
    StuffConcat(bits + pad, more);
    StuffShort(more);
    assert Stuff(bits + pad) + [] == Stuff(bits + pad);
  }

  lemma {:induction false} Ones(n: nat)
    ensures ToBits(Pow2(n) - 1, n) == seq(n, _ => true)
  {
    if n > 0 {
      Ones(n - 1);
      assert (Pow2(n) - 1) / 2 == Pow2(n - 1) - 1;
    }
  }
}
