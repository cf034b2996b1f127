/** The bit buffer of the Huffman decoders (jpeg_fill_bit_buffer and the macros of
    jdhuff.h), reading from a source that may have delivered only part of its data. */
module BitReading {
  import opened Bits
  import opened Wrappers
  import opened Tokens
  import opened ByteStream
  import opened HuffmanCode
  import opened DerivedTables
  import opened DecoderTables

  const WORD: nat := 0x1_0000_0000
  const MIN_GET_BITS: nat := 25

  /** The working state within an MCU: delivered bytes not yet read, get_buffer and
      bits_left. */
  datatype Working = Working(input: seq<Byte>, word: nat, bits: nat)

  predicate Fits(w: Working) {
    w.word < WORD && w.bits <= 32
  }

  function Held(w: Working): (r: seq<bool>)
    ensures |r| == w.bits
  {
    ToBits(w.word, w.bits)
  }

  /** What lies ahead in a working state, when the given bytes are still to come. */
  function ViewOf(w: Working, marker: Byte, coming: seq<Byte>): (a: Ahead)
    ensures |a.bits| >= w.bits && (marker != 0 ==> |a.bits| == w.bits)
  {
    if marker != 0 then Ahead(Held(w), marker, w.input + coming)
    else var a := Look(w.input + coming); a.(bits := Held(w) + a.bits)
  }

  /** How things stand in a working state: what lies ahead, whether a segment was found
      too short, and whether the marker that ends it has been delivered. */
  datatype Outlook = Outlook(ahead: Ahead, short: bool, complete: bool)

  function Onward(o: Outlook, bits: seq<bool>): Outlook {
    o.(ahead := o.ahead.(bits := bits))
  }

  /** Shifting a byte into the word. */
  lemma ShiftIn(word: nat, bits: nat, c: Byte)
    requires bits <= 24
    ensures ToBits((word * 256 + c) % WORD, bits + 8) == ToBits(word, bits) + ByteBits(c)
  {
    hide ToBits, Pow2, Shr;
    var v := word * 256 + c;
    Words(bits + 8);
    ModMod(v, Pow2(bits + 8), Pow2(24 - bits));
    ToBitsMod(v % WORD, v, bits + 8);
    ToBitsSplit(v, bits, 8);
    ByteShift(word, c);
    ToBitsMod(v, c, 8);
  }

  lemma Words(n: nat)
    requires n <= 32
    ensures Pow2(n) * Pow2(32 - n) == WORD
  {
    hide Pow2;
    Pow2Add(n, 32 - n);
    Pow2Add(16, 16);
    Pow2Add(8, 8);
    Byte256();
  }

  lemma ModMod(v: nat, d: nat, m: nat)
    requires d > 0 && m > 0
    ensures d * m > 0 && v % (d * m) % d == v % d
  {
    MulLe(1, m, d);
    var q, r := v / (d * m), v % (d * m);
    assert v == d * m * q + r;
    assert d * m * q == (m * q) * d;
    ModAdd(m * q, r, d);
  }

  lemma ModAdd(k: int, r: nat, d: nat)
    requires d > 0
    ensures (k * d + r) % d == r % d
  {
    var q := r / d;
    assert (k + q) * d == k * d + q * d;
    MulSucc(k + q, d);
    DivBounds(k * d + r, d, k + q);
  }

  lemma ByteShift(word: nat, c: Byte)
    ensures Shr(word * 256 + c, 8) == word && Pow2(8) == 256 && (word * 256 + c) % 256 == c % 256
  {
    hide Shr, Pow2;
    ShrBounds(word * 256 + c, 8);
    Byte256();
    var q := Shr(word * 256 + c, 8);
    assert q * 256 <= word * 256 + c < q * 256 + 256;
  }

  lemma Byte256()
    ensures Pow2(8) == 256
  {
  }

  /** Appending zero bits. */
  lemma ShiftZeros(word: nat, bits: nat, n: nat)
    requires bits + n <= 32
    ensures ToBits(word * Pow2(n) % WORD, bits + n) == ToBits(word, bits) + ToBits(0, n)
  {
    hide ToBits, Pow2, Shr;
    var v := word * Pow2(n);
    Words(bits + n);
    ModMod(v, Pow2(bits + n), Pow2(32 - bits - n));
    ToBitsMod(v % WORD, v, bits + n);
    ToBitsSplit(v, bits, n);
    ShrShl(word, n);
    ModAdd(word, 0, Pow2(n));
    ToBitsMod(v, 0, n);
  }

  /** The top n bits of those held, as GET_BITS fetches them. */
  lemma TopBits(w: Working, n: nat)
    requires n <= w.bits
    ensures Held(w)[..n] == ToBits(Shr(w.word, w.bits - n), n)
    ensures FromBits(Held(w)[..n]) == Shr(w.word, w.bits - n) % Pow2(n)
    ensures Held(w)[n..] == Held(w.(bits := w.bits - n))
  {
    hide ToBits, Pow2, Shr;
    ToBitsSplit(w.word, n, w.bits - n);
    FromToBits(Shr(w.word, w.bits - n), n);
  }

  // ----- one byte further in the source -----

  lemma LookData(bytes: seq<Byte>)
    requires bytes != [] && bytes[0] != 0xFF
    ensures Look(bytes) == Look(bytes[1..]).(bits := ByteBits(bytes[0]) + Look(bytes[1..]).bits)
  {
  }

  lemma LookFF(bytes: seq<Byte>)
    requires bytes != [] && bytes[0] == 0xFF
    ensures var r := SkipFill(bytes[1..]);
            Look(bytes) == if r == [] then Ahead([], 0, [])
                           else if r[0] == 0 then Look(r[1..]).(bits := ByteBits(0xFF) + Look(r[1..]).bits)
                           else Ahead([], r[0], r[1..])
  {
  }

  lemma {:induction false} SkipMore(bytes: seq<Byte>, coming: seq<Byte>)
    requires SkipFill(bytes) != []
    ensures SkipFill(bytes + coming) == SkipFill(bytes) + coming
  {
    if bytes[0] == 0xFF {
      assert (bytes + coming)[1..] == bytes[1..] + coming;
      SkipMore(bytes[1..], coming);
    }
  }

  /** Loading a data byte into the word moves it from the source to the bits held. */
  lemma LoadView(w: Working, c: Byte, rest: seq<Byte>, coming: seq<Byte>)
    requires Fits(w) && w.bits <= 24
    requires Look(w.input + coming) == Look(rest + coming).(bits := ByteBits(c) + Look(rest + coming).bits)
    ensures ViewOf(Working(rest, (w.word * 256 + c) % WORD, w.bits + 8), 0, coming) == ViewOf(w, 0, coming)
  {
    hide Look, ByteBits, ToBits;
    ShiftIn(w.word, w.bits, c);
    SeqAssoc(Held(w), ByteBits(c), Look(rest + coming).bits);
  }

  /** A plain data byte. */
  lemma PlainByte(input: seq<Byte>, coming: seq<Byte>)
    requires input != [] && input[0] != 0xFF
    ensures Look(input + coming) == Look(input[1..] + coming).(bits := ByteBits(input[0]) + Look(input[1..] + coming).bits)
    ensures Look(input).marker == Look(input[1..]).marker
  {
    hide Look, ByteBits;
    assert (input + coming)[1..] == input[1..] + coming;
    LookData(input + coming);
    LookData(input);
  }

  /** FF bytes followed by c. */
  lemma AfterFFs(input: seq<Byte>, coming: seq<Byte>, c: Byte, rest: seq<Byte>)
    requires input != [] && input[0] == 0xFF && SkipFill(input[1..]) == [c] + rest
    ensures c == 0 ==> Look(input + coming) == Look(rest + coming).(bits := ByteBits(0xFF) + Look(rest + coming).bits)
    ensures c == 0 ==> Look(input).marker == Look(rest).marker
    ensures c != 0 ==> Look(input + coming) == Ahead([], c, rest + coming) && Look(input).marker == c
  {
    hide Look, ByteBits, SkipFill;
    assert (input + coming)[1..] == input[1..] + coming;
    SkipMore(input[1..], coming);
    LookFF(input + coming);
    LookFF(input);
    assert [c] + rest + coming == [c] + (rest + coming);
    assert ([c] + (rest + coming))[1..] == rest + coming && ([c] + rest)[1..] == rest;
  }

  lemma NothingAfterFFs(input: seq<Byte>)
    requires input != [] && input[0] == 0xFF && SkipFill(input[1..]) == []
    ensures Look(input).marker == 0
  {
  }

  lemma NoInput(input: seq<Byte>)
    requires |input| == 0
    ensures Look(input).marker == 0
  {
  }

  class BitReader {
    /** Delivered bytes not yet read, and the bit buffer between MCUs. */
    var input: seq<Byte>
    var word: nat
    var bits: nat
    var unreadMarker: Byte
    var insufficientData: bool
    /** Bytes the source has yet to deliver. */
    ghost var coming: seq<Byte>

    ghost function View(w: Working): Ahead
      reads this
    {
      ViewOf(w, unreadMarker, coming)
    }

    /** Swallows FF bytes up to another one. */
    method SkipFFs(input0: seq<Byte>) returns (ok: bool, c: Byte, rest: seq<Byte>)
      ensures ok ==> SkipFill(input0) == [c] + rest && c != 0xFF
      ensures !ok ==> SkipFill(input0) == []
    {
      rest := input0;
      c := 0xFF;
      while c == 0xFF
        invariant c == 0xFF ==> SkipFill(rest) == SkipFill(input0)
        invariant c != 0xFF ==> SkipFill(input0) == [c] + rest
        decreases |rest|
      {
        if |rest| == 0 {
          ok := false;
          return;
        }
        c := rest[0];
        rest := rest[1..];
      }
      ok := true;
    }

    /** The body of the fill loop: one byte goes into the buffer, or the end of the
        segment is found. */
    method LoadByte(w: Working) returns (ok: bool, w1: Working)
      requires Fits(w) && w.bits < MIN_GET_BITS && unreadMarker == 0
      modifies this`unreadMarker
      ensures !ok ==> unreadMarker == 0 && Look(w.input).marker == 0
      ensures ok ==> Fits(w1) && View(w1) == old(View(w))
      ensures ok && unreadMarker == 0 ==> w1.bits > w.bits && Look(w.input).marker == Look(w1.input).marker
      ensures ok && unreadMarker != 0 ==> w1.bits == w.bits && Look(w.input).marker != 0
    {
      hide Look, ToBits, SkipFill;
      ok, w1 := true, w;
      if |w.input| == 0 {
        NoInput(w.input);
        ok := false;
        return;
      }
      var c, rest := w.input[0], w.input[1..];
      if c == 0xFF {
        ok, c, rest := SkipFFs(rest);
        if !ok {
          NothingAfterFFs(w.input);
          return;
        }
        AfterFFs(w.input, coming, c, rest);
        if c != 0 {
          unreadMarker := c;
          w1 := w.(input := rest);
          assert Held(w) + [] == Held(w);
          return;
        }
        c := 0xFF;
      } else {
        PlainByte(w.input, coming);
      }
      LoadView(w, c, rest, coming);
      w1 := Working(rest, (w.word * 256 + c) % WORD, w.bits + 8);
    }

    ghost function Out(w: Working): Outlook
      reads this
    {
      Outlook(View(w), insufficientData, unreadMarker != 0 || Look(w.input).marker != 0)
    }

    /** jpeg_fill_bit_buffer: false means suspension. Only if the data segment ends
        before nbits bits are there is the buffer filled with zeros. */
    method Fill(w: Working, nbits: nat) returns (ok: bool, w1: Working)
      requires Fits(w) && nbits <= MIN_GET_BITS
      modifies this`unreadMarker, this`insufficientData
      ensures !ok ==> unreadMarker == old(unreadMarker) && insufficientData == old(insufficientData) && !old(Out(w)).complete
      ensures ok ==> Fits(w1) && w1.bits >= nbits && (w1.bits >= MIN_GET_BITS || unreadMarker != 0)
      ensures ok && |old(View(w)).bits| >= nbits ==> Out(w1) == old(Out(w))
      ensures ok && |old(View(w)).bits| < nbits ==>
        Out(w1) == Onward(old(Out(w)), old(View(w)).bits + ToBits(0, MIN_GET_BITS - |old(View(w)).bits|)).(short := true)
    {
      hide Look, ToBits, Pow2;
      w1 := w;
      if unreadMarker == 0 {
        while w1.bits < MIN_GET_BITS && unreadMarker == 0
          modifies this`unreadMarker
          invariant Fits(w1) && Out(w1) == old(Out(w))
          decreases MIN_GET_BITS - w1.bits, if unreadMarker == 0 then 1 else 0
        {
          ok, w1 := LoadByte(w1);
          if !ok {
            return;
          }
        }
      }
      ok := true;
      if w1.bits < nbits {
        insufficientData := true;
        ShiftZeros(w1.word, w1.bits, MIN_GET_BITS - w1.bits);
        w1 := w1.(word := w1.word * Pow2(MIN_GET_BITS - w1.bits) % WORD, bits := MIN_GET_BITS);
      }
    }

    /** CHECK_BIT_BUFFER and GET_BITS. */
    method FetchBits(w: Working, n: nat) returns (ok: bool, x: nat, w1: Working)
      requires Fits(w) && n <= MIN_GET_BITS && |View(w).bits| >= n
      modifies this`unreadMarker, this`insufficientData
      ensures !ok ==> unreadMarker == old(unreadMarker) && insufficientData == old(insufficientData) && !old(Out(w)).complete
      ensures ok ==> Fits(w1) && Out(w1) == Onward(old(Out(w)), View(w1).bits)
      ensures ok ==> GetBits(n, old(View(w)).bits) == Some((x, View(w1).bits))
    {
      hide Look, ToBits, FromBits, Pow2, Shr;
      ok, w1 := true, w;
      if w1.bits < n {
        ok, w1 := Fill(w1, n);
        if !ok {
          x := 0;
          return;
        }
      }
      TopBits(w1, n);
      ghost var rest := if unreadMarker != 0 then [] else Look(w1.input + coming).bits;
      HeldFirst(Held(w1), rest, n);
      assert Held(w1) + [] == Held(w1);
      x := Shr(w1.word, w1.bits - n) % Pow2(n);
      w1 := w1.(bits := w1.bits - n);
      assert Held(w1) + [] == Held(w1);
    }

    /** jpeg_huff_decode: bit-serial decoding, once the code is known to have at
        least minBits bits. */
    method SlowDecode(w: Working, d: DecTable, minBits: nat) returns (ok: bool, s: Byte, w1: Working)
      requires Fits(w) && TableOk(d) && 1 <= minBits <= 9
      requires |View(w).bits| >= minBits && FromBits(View(w).bits[..minBits]) >= FirstCode(d.pub, minBits)
      requires Decode(d.pub, View(w).bits).Some?
      requires Decode(d.pub, View(w).bits) == DecodeFrom(d.pub, FromBits(View(w).bits[..minBits]), minBits, View(w).bits[minBits..])
      modifies this`unreadMarker, this`insufficientData
      ensures !ok ==> unreadMarker == old(unreadMarker) && insufficientData == old(insufficientData) && !old(Out(w)).complete
      ensures ok ==> Fits(w1) && Out(w1) == Onward(old(Out(w)), View(w1).bits)
      ensures ok ==> Decode(d.pub, old(View(w)).bits) == Some((s, View(w1).bits))
    {
      hide Look, ToBits, FromBits, Pow2, Decode, FirstIdx, FirstCode, DecodeFrom, LooksOk, FitsLength;
      var l := minBits;
      var code: nat, bit: nat;
      s := 0;
      ghost var bits := View(w).bits;
      FromBitsBound(bits[..minBits]);
      ok, code, w1 := FetchBits(w, l);
      if !ok { return; }
      while code > d.maxcode[l]
        modifies this`unreadMarker, this`insufficientData
        invariant Fits(w1) && Out(w1) == Onward(old(Out(w)), View(w1).bits)
        invariant 1 <= l <= 17 && FirstCode(d.pub, l) <= code < Pow2(l)
        invariant |d.maxcode| == 18 && |d.valoffset| == 17
        invariant Decode(d.pub, bits) == DecodeFrom(d.pub, code, l, View(w1).bits)
        decreases 17 - l
      {
        SerialStart(d, l, code);
        SerialStep(d, code, l, View(w1).bits);
        ok, bit, w1 := FetchBits(w1, 1);
        if !ok { return; }
        code := 2 * code + bit;
        l := l + 1;
      }
      SerialEnd(d, code, l, View(w1).bits);
      if l > 16 {
        s := 0;
      } else {
        s := d.pub.huffval[code + d.valoffset[l]];
      }
    }

    /** HUFF_DECODE: the lookahead cache first, bit-serial decoding if it has no entry
        or too few bits are left to look at. */
    method HuffDecode(w: Working, d: DecTable) returns (ok: bool, s: Byte, w1: Working)
      requires Fits(w) && TableOk(d) && Decode(d.pub, View(w).bits).Some?
      modifies this`unreadMarker, this`insufficientData
      ensures !ok ==> unreadMarker == old(unreadMarker) && insufficientData == old(insufficientData) && !old(Out(w)).complete
      ensures ok ==> Fits(w1) && Out(w1) == Onward(old(Out(w)), View(w1).bits)
      ensures ok ==> Decode(d.pub, old(View(w)).bits) == Some((s, View(w1).bits))
    {
      hide Look, ToBits, FromBits, Pow2, Decode, FirstIdx, FirstCode, DecodeFrom, LooksOk, FitsLength, Shr;
      ghost var bits := View(w).bits;
      ok, s, w1 := true, 0, w;
      if w1.bits < HUFF_LOOKAHEAD {
        ok, w1 := Fill(w1, 0);
        if !ok { return; }
        if w1.bits < HUFF_LOOKAHEAD {
          Passes(d.pub, bits, 1);
          ok, s, w1 := SlowDecode(w1, d, 1);
          return;
        }
      }
      LookaheadAgrees(d, bits);
      LookaheadSized(d);
      TopBits(w1, 8);
      ghost var rest := if unreadMarker != 0 then [] else Look(w1.input + coming).bits;
      assert Held(w1) + [] == Held(w1);
      HeldFirst(Held(w1), rest, 8);
      Eight();
      var look := Shr(w1.word, w1.bits - HUFF_LOOKAHEAD) % 256;
      var nb := d.lookNbits[look];
      if nb != 0 {
        HeldFirst(Held(w1), rest, nb);
        TopBits(w1, nb);
        s := d.lookSym[look];
        w1 := w1.(bits := w1.bits - nb);
        assert Held(w1) + [] == Held(w1);
      } else {
        ok, s, w1 := SlowDecode(w1, d, HUFF_LOOKAHEAD + 1);
      }
    }

    /** A source that has delivered nothing yet, before a scan. */
    constructor (ghost data: seq<Byte>)
      ensures input == [] && coming == data && word == 0 && bits == 0 && unreadMarker == 0 && !insufficientData
    {
      input, word, bits, unreadMarker, insufficientData, coming := [], 0, 0, 0, false, data;
    }

    /** The application hands over more of the data. */
    method Deliver(more: seq<Byte>)
      requires more <= coming
      modifies this`input, this`coming
      ensures View(Load()) == old(View(Load())) && Rest() == old(Rest()) && coming == old(coming)[|more|..]
    {
      assert input + coming == input + more + coming[|more|..];
      input := input + more;
      coming := coming[|more|..];
    }

    /** At the start of a scan the bit buffer is empty. */
    method StartPass()
      modifies this`word, this`bits, this`insufficientData
      ensures word == 0 && bits == 0 && !insufficientData
    {
      word, bits, insufficientData := 0, 0, false;
    }

    /** BITREAD_LOAD_STATE */
    function Load(): Working
      reads this
    {
      Working(input, word, bits)
    }

    /** BITREAD_SAVE_STATE */
    method Save(w: Working)
      modifies this`input, this`word, this`bits
      ensures Load() == w
    {
      input, word, bits := w.input, w.word, w.bits;
    }

    /** All that is still to be read of the source. */
    ghost function Rest(): seq<Byte>
      reads this
    {
      input + coming
    }

    /** next_marker: finds the next marker, whatever comes before it. A byte that is
        skipped is gone for good, even if the source runs dry afterwards. */
    method NextMarker(discarded0: nat) returns (ok: bool, discarded: nat)
      requires unreadMarker == 0
      modifies this`input, this`unreadMarker
      ensures !ok ==> unreadMarker == 0 && Look(input).marker == 0 && old(Look(input).marker) == 0
      ensures !ok ==> Look(Rest()).marker == old(Look(Rest())).marker && Look(Rest()).rest == old(Look(Rest())).rest
      ensures !ok && |old(Look(Rest())).bits| == 0 ==> input == old(input) && discarded == discarded0
      ensures ok ==> unreadMarker == old(Look(Rest())).marker != 0 && Rest() == old(Look(Rest())).rest
      ensures ok ==> discarded == 0
    {
      hide Look, SkipFill;
      discarded := discarded0;
      while true
        modifies this`input, this`unreadMarker
        invariant unreadMarker == 0 && Look(input).marker == old(Look(input).marker)
        invariant Look(Rest()).marker == old(Look(Rest())).marker && Look(Rest()).rest == old(Look(Rest())).rest
        invariant |old(Look(Rest())).bits| == 0 ==> input == old(input) && discarded == discarded0
        decreases |input|
      {
        if |input| == 0 {
          NoInput(input);
          ok := false;
          return;
        }
        if input[0] != 0xFF {
          PlainByte(input, coming);
          BytesHaveBits(input[0]);
          discarded := discarded + 1;
          input := input[1..];
        } else {
          var c: Byte, rest: seq<Byte>;
          ok, c, rest := SkipFFs(input[1..]);
          if !ok {
            NothingAfterFFs(input);
            return;
          }
          AfterFFs(input, coming, c, rest);
          SkipShrinks(input[1..]);
          if c != 0 {
            input := rest;
            unreadMarker := c;
            discarded := 0;
            return;
          }
          BytesHaveBits(0xFF);
          discarded := discarded + 2;
          input := rest;
        }
      }
    }
  }

  lemma BytesHaveBits(b: Byte)
    ensures |ByteBits(b)| == 8
  {
  }

  lemma SkipShrinks(bytes: seq<Byte>)
    ensures |SkipFill(bytes)| <= |bytes|
  {
  }

  lemma LookaheadSized(d: DecTable)
    requires TableOk(d)
    ensures |d.lookNbits| == 256 && |d.lookSym| == 256
  {
  }

  /** The sentinel stops the loop at 17 bits. */
  lemma SerialStart(d: DecTable, l: nat, code: nat)
    requires TableOk(d) && 1 <= l <= 17 && code < Pow2(l)
    ensures |d.maxcode| == 18 && |d.valoffset| == 17
    ensures code > d.maxcode[l] ==> l <= 16 && code > MaxCode(d.pub, l)
  {
    hide Pow2, FirstIdx, FirstCode, LooksOk, FitsLength;
    if l == 17 {
      Pow2Seventeen();
    } else {
      assert LimitOk(d.pub, l, d.maxcode[l], d.valoffset[l]);
    }
  }

  lemma Pow2Seventeen()
    ensures Pow2(17) == 131072
  {
    Pow2Add(16, 1);
    Pow2Add(8, 8);
  }

  lemma SerialStep(d: DecTable, code: nat, l: nat, bits: seq<bool>)
    requires TableOk(d) && 1 <= l <= 16 && FirstCode(d.pub, l) <= code < Pow2(l) && code > MaxCode(d.pub, l)
    ensures Pow2(l + 1) == 2 * Pow2(l) && 2 * code >= FirstCode(d.pub, l + 1)
    ensures bits == [] ==> DecodeFrom(d.pub, code, l, bits) == None
    ensures bits != [] ==>
      FromBits(bits[..1]) <= 1 &&
      DecodeFrom(d.pub, code, l, bits) == DecodeFrom(d.pub, 2 * code + FromBits(bits[..1]), l + 1, bits[1..])
  {
    hide FirstIdx, LooksOk, FitsLength;
    if bits != [] {
      assert bits[..1][..0] == [];
    }
  }

  lemma SerialEnd(d: DecTable, code: nat, l: nat, bits: seq<bool>)
    requires TableOk(d) && 1 <= l <= 17 && FirstCode(d.pub, l) <= code <= d.maxcode[l]
    ensures l == 17 ==> DecodeFrom(d.pub, code, l, bits) == Some((0, bits))
    ensures l <= 16 ==>
      0 <= code + d.valoffset[l] < 256 &&
      DecodeFrom(d.pub, code, l, bits) == Some((d.pub.huffval[code + d.valoffset[l]], bits))
  {
    hide LooksOk, FitsLength;
    if l <= 16 {
      assert LimitOk(d.pub, l, d.maxcode[l], d.valoffset[l]);
      IdxStep(d.pub, l);
    }
  }

  lemma HeldFirst(held: seq<bool>, rest: seq<bool>, n: nat)
    requires n <= |held|
    ensures (held + rest)[..n] == held[..n] && (held + rest)[n..] == held[n..] + rest
  {
  }
}
