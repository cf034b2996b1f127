/** Entropy-coded segments as bytes (ITU-T T.81 section F.1.2.3 and B.1.1.5): bits
    are packed into bytes, an FF byte is followed by a stuffed zero, and a marker
    is FF followed by a nonzero byte. */
module ByteStream {
  import opened Bits
  import opened Tokens

  /** A data byte as it is written. */
  function StuffByte(b: Byte): seq<Byte> {
    if b == 0xFF then [0xFF, 0] else [b]
  }

  /** The bytes completed by bits; fewer than 8 bits may be left over. */
  function Stuff(bits: seq<bool>): seq<Byte> {
    if |bits| < 8 then [] else StuffByte(ByteOf(bits[..8])) + Stuff(bits[8..])
  }

  /** The bits not yet written out. */
  function LeftOver(bits: seq<bool>): (r: seq<bool>)
    ensures |r| < 8 && |r| <= |bits|
  {
    bits[|bits| - |bits| % 8..]
  }

  function ByteOf(bits: seq<bool>): Byte
    requires |bits| == 8
  {
    FromBitsBound(bits);
    assert Pow2(8) == 256;
    FromBits(bits)
  }

  function ByteBits(b: Byte): seq<bool> {
    ToBits(b, 8)
  }

  /** The one bits that fill a partial byte. */
  function Padding(n: nat): (r: seq<bool>)
    ensures |r| < 8 && (n + |r|) % 8 == 0
  {
    seq((8 - n % 8) % 8, _ => true)
  }

  /** A whole segment: its last byte is filled up with ones. */
  function SegmentBytes(bits: seq<bool>): seq<Byte> {
    Stuff(bits + Padding(|bits|))
  }

  /** What a decoder finds ahead: data bits up to a marker, the marker code (0 if
      the data ends first) and the bytes after it. */
  datatype Ahead = Ahead(bits: seq<bool>, marker: Byte, rest: seq<Byte>)

  /** Drops fill bytes FF before a marker code. */
  function SkipFill(bytes: seq<Byte>): (r: seq<Byte>)
    ensures |r| <= |bytes| && (r != [] ==> r[0] != 0xFF)
  {
    if bytes != [] && bytes[0] == 0xFF then SkipFill(bytes[1..]) else bytes
  }

  function Look(bytes: seq<Byte>): Ahead
    decreases |bytes|
  {
    if bytes == [] then Ahead([], 0, [])
    else if bytes[0] != 0xFF then
      var a := Look(bytes[1..]);
      a.(bits := ByteBits(bytes[0]) + a.bits)
    else
      var r := SkipFill(bytes[1..]);
      if r == [] then Ahead([], 0, [])
      else if r[0] == 0 then
        var a := Look(r[1..]);
        a.(bits := ByteBits(0xFF) + a.bits)
      else Ahead([], r[0], r[1..])
  }

  lemma LookByte(b: Byte, more: seq<Byte>)
    ensures Look(StuffByte(b) + more) == Look(more).(bits := ByteBits(b) + Look(more).bits)
  {
    var bytes := StuffByte(b) + more;
    if b == 0xFF {
      assert bytes[1..][0] == 0;
      assert SkipFill(bytes[1..]) == bytes[1..];
      assert bytes[1..][1..] == more;
    } else {
      assert bytes[1..] == more;
    }
  }

  lemma LookMarker(m: Byte, rest: seq<Byte>)
    requires 0 < m < 0xFF
    ensures Look([0xFF, m] + rest) == Ahead([], m, rest)
  {
    var bytes := [0xFF, m] + rest;
    assert SkipFill(bytes[1..]) == bytes[1..];
    assert bytes[1..][1..] == rest;
  }

  /** Looking at stuffed bytes gives back the bits. */
  lemma {:induction false} LookStuffed(bits: seq<bool>, more: seq<Byte>)
    requires |bits| % 8 == 0
    ensures Look(Stuff(bits) + more) == Look(more).(bits := bits + Look(more).bits)
    decreases |bits|
  {
    hide Look, StuffByte;
    if bits == [] {
      assert Stuff(bits) + more == more;
      assert bits + Look(more).bits == Look(more).bits;
    } else {
      var b := ByteOf(bits[..8]);
      SeqAssoc(StuffByte(b), Stuff(bits[8..]), more);
      LookByte(b, Stuff(bits[8..]) + more);
      LookStuffed(bits[8..], more);
      ToFromBits(bits[..8]);
      assert bits == bits[..8] + bits[8..];
      SeqAssoc(bits[..8], bits[8..], Look(more).bits);
    }
  }

  /** A segment followed by a marker is found again, plus less than a byte of padding. */
  lemma SegmentFound(bits: seq<bool>, m: Byte, rest: seq<Byte>)
    requires 0 < m < 0xFF
    ensures Look(SegmentBytes(bits) + ([0xFF, m] + rest)) == Ahead(bits + Padding(|bits|), m, rest)
  {
    hide Look, Stuff;
    LookStuffed(bits + Padding(|bits|), [0xFF, m] + rest);
    LookMarker(m, rest);
    assert bits + Padding(|bits|) + [] == bits + Padding(|bits|);
  }

  lemma {:induction false} StuffConcat(a: seq<bool>, b: seq<bool>)
    requires |a| % 8 == 0
    ensures Stuff(a + b) == Stuff(a) + Stuff(b)
    decreases |a|
  {
    if a == [] {
      assert a + b == b;
    } else {
      var ab := a + b;
      assert ab[..8] == a[..8] && ab[8..] == a[8..] + b;
      StuffConcat(a[8..], b);
      SeqAssoc(StuffByte(ByteOf(a[..8])), Stuff(a[8..]), Stuff(b));
    }
  }
}
