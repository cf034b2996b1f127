/** Progressive DC scans (ITU-T T.81 section G.1.2.1): DC values of the blocks of
    an MCU, coded as differences first and bit by bit afterwards. */
module DcCoding {
  import opened Bits
  import opened Wrappers
  import opened Tokens
  import opened Coefficients

  /** The value of a DC coefficient once all bits down to al are known; its point
      transform is an arithmetic shift, unlike that of AC coefficients. */
  function DcTrunc(x: int, al: nat): int {
    Shr(x, al) * Pow2(al)
  }

  /** A difference of DC values. */
  function DiffTokens(id: TableId, d: int): seq<Token> {
    var nbits := BitLen(Abs(d));
    [Sym(id, nbits)] + (if nbits > 0 then [Raw(if d < 0 then d - 1 else d, nbits)] else [])
  }

  /** Reads a difference of DC values. */
  function ReadDiff(read: Reader, bits: seq<bool>): Option<(int, seq<bool>)> {
    match read(bits)
    case None => None
    case Some((s, bits1)) =>
      if s == 0 then Some((0, bits1))
      else
        match GetBits(s, bits1)
        case None => None
        case Some((x, bits2)) => Some((Extend(x, s), bits2))
  }

  lemma DiffInverts(T: Tables, id: TableId, d: int, rest: seq<bool>)
    requires id in T && Sound(T[id]) && Covers(T, DiffTokens(id, d))
    ensures ReadDiff(T[id].read, Emit(T, DiffTokens(id, d), rest)) == Some((d, rest))
  {
    hide Extend, BitLen, ToBits, FromBits;
    var nbits := BitLen(Abs(d));
    var toks := DiffTokens(id, d);
    if nbits > 0 {
      var e := if d < 0 then d - 1 else d;
      var raw := [Raw(e, nbits)];
      ReadSymbol(T, id, nbits, raw, rest);
      assert raw + [] == raw;
      ReadRaw(T, e, nbits, [], rest);
      NonZero(d);
      ExtendInverts(d);
    } else {
      assert toks == [Sym(id, 0)] + [];
      ReadSymbol(T, id, 0, [], rest);
      NonZero(d);
    }
  }

  lemma NonZero(d: int)
    ensures BitLen(Abs(d)) == 0 <==> d == 0
  {
  }

  /** Setting bit al of a two's-complement value, as v |= 1 << al does. */
  function SetBit(v: int, al: nat): int {
    if Shr(v, al) % 2 == 0 then v + Pow2(al) else v
  }

  lemma DcTruncShort(x: int, al: nat)
    requires Short(x) && al <= 15
    ensures Short(DcTrunc(x, al)) && ToShort(DcTrunc(x, al)) == DcTrunc(x, al)
  {
    ShrBounds(x, al);
    ShortFloor(al);
    ShrMono(-32768, x, al);
    MulLe(Shr(-32768, al), Shr(x, al), Pow2(al));
  }

  lemma ShortFloor(al: nat)
    requires al <= 15
    ensures Shr(-32768, al) * Pow2(al) == -32768
  {
    var m: int := Pow2(15 - al);
    Pow2Add(15 - al, al);
    assert Pow2(15) == 32768;
    NegMul(m, Pow2(al));
    ShrShl(-m, al);
  }

  lemma {:induction false} ShrMono(x: int, y: int, n: nat)
    requires x <= y
    ensures Shr(x, n) <= Shr(y, n)
    decreases n
  {
    if n > 0 { ShrMono(x / 2, y / 2, n - 1); }
  }

  lemma DcStep(x: int, al: nat)
    ensures DcTrunc(x, al) == DcTrunc(x, al + 1) + (if Shr(x, al) % 2 == 1 then Pow2(al) else 0)
    ensures Shr(DcTrunc(x, al + 1), al) % 2 == 0
  {
    var h := Shr(x, al) / 2;
    ShrSucc(x, al);
    MulDouble(h, Pow2(al));
    NegMul(2 * h, Pow2(al));
    assert DcTrunc(x, al + 1) == (2 * h) * Pow2(al);
    ShrShl(2 * h, al);
    MulSucc(2 * h, Pow2(al));
  }

  /** The next bit completes a DC value known down to bit al + 1. */
  lemma RefineDc(x: int, al: nat)
    requires Short(x) && al <= 14
    ensures ToShort(if Shr(x, al) % 2 == 1 then SetBit(DcTrunc(x, al + 1), al) else DcTrunc(x, al + 1)) == DcTrunc(x, al)
  {
    hide DcTrunc, ToShort;
    DcStep(x, al);
    DcTruncShort(x, al);
  }
}
