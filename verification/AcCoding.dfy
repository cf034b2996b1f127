/** Progressive AC scans, one block at a time (ITU-T T.81 sections G.1.2.2 and
    G.1.2.3): what jcphuff.c emits for a block and how jdphuff.c reads it back.
    Blocks are indexed in zigzag order. */
module AcCoding {
  import opened Bits
  import opened Wrappers
  import opened Tokens

  type Block = b: seq<int> | |b| == 64 witness seq(64, _ => 0)

  /** The band Ss..Se of one component at successive-approximation levels Ah, Al,
      coded with table id. */
  datatype Band = Band(Ss: nat, Se: nat, Ah: nat, Al: nat, id: TableId)

  predicate AcBand(p: Band) {
    1 <= p.Ss <= p.Se <= 63
  }

  /** Magnitude after the point transform by al, which truncates toward zero. */
  function Mag(x: int, al: nat): nat {
    Shr(Abs(x), al)
  }

  /** The coefficient a decoder holds once all bits down to al are in. */
  function Trunc(x: int, al: nat): int {
    if x < 0 then -(Mag(x, al) * Pow2(al)) else Mag(x, al) * Pow2(al)
  }

  // ----- encoder -----

  /** What a block adds to the scan: tokens emitted at once, and the trailing run
      of r zeros and correction bits br that its end-of-band is to carry. */
  datatype BlockCode = BlockCode(toks: seq<Token>, r: nat, br: seq<bool>)

  function Prepend(toks: seq<Token>, c: BlockCode): BlockCode {
    c.(toks := toks + c.toks)
  }

  /** The extra bits for magnitude a of a coefficient x, complemented if negative. */
  function ExtraBits(x: int, a: int): int {
    if x < 0 then -a - 1 else a
  }

  /** n zero-run-length codes. */
  function Zrls(id: TableId, n: nat): seq<Token> {
    if n == 0 then [] else [Sym(id, 0xF0)] + Zrls(id, n - 1)
  }

  function CorrectionTokens(br: seq<bool>): seq<Token> {
    if br == [] then [] else [Raw(if br[0] then 1 else 0, 1)] + CorrectionTokens(br[1..])
  }

  /** First scan of a band, from coefficient k on after a run of r zeros. */
  function FirstFrom(p: Band, c: Block, k: nat, r: nat): BlockCode
    requires p.Se <= 63
    decreases 64 - k
  {
    if k > p.Se then BlockCode([], r, [])
    else
      var a := Mag(c[k], p.Al);
      if a == 0 then FirstFrom(p, c, k + 1, r + 1)
      else
        Prepend(Zrls(p.id, r / 16)
                + [Sym(p.id, r % 16 * 16 + BitLen(a)), Raw(ExtraBits(c[k], a), BitLen(a))],
                FirstFrom(p, c, k + 1, 0))
  }

  /** Index of the last newly nonzero coefficient from k on, or else eob. */
  function LastNew(p: Band, c: Block, k: nat, eob: nat): nat
    requires p.Se <= 63
    decreases 64 - k
  {
    if k > p.Se then eob
    else LastNew(p, c, k + 1, if Mag(c[k], p.Al) == 1 then k else eob)
  }

  /** ZRLs due before a nonzero coefficient after r zeros; the first one carries
      the correction bits collected so far. */
  function ZrlTokens(id: TableId, r: nat, br: seq<bool>): seq<Token> {
    if r <= 15 then [] else [Sym(id, 0xF0)] + CorrectionTokens(br) + Zrls(id, r / 16 - 1)
  }

  /** Refinement of a band, from coefficient k on after a run of r still-zero
      coefficients and correction bits br not yet emitted. */
  function RefineFrom(p: Band, c: Block, k: nat, r: nat, br: seq<bool>, eob: nat): BlockCode
    requires p.Se <= 63
    decreases 64 - k
  {
    if k > p.Se then BlockCode([], r, br)
    else
      var a := Mag(c[k], p.Al);
      if a == 0 then RefineFrom(p, c, k + 1, r + 1, br, eob)
      else
        var flush := k <= eob && r > 15;
        var z := if flush then ZrlTokens(p.id, r, br) else [];
        var r1 := if flush then r % 16 else r;
        var br1 := if flush then [] else br;
        if a > 1 then Prepend(z, RefineFrom(p, c, k + 1, r1, br1 + [a % 2 == 1], eob))
        else Prepend(z + [Sym(p.id, r1 * 16 + 1), Raw(if c[k] < 0 then 0 else 1, 1)] + CorrectionTokens(br1),
                     RefineFrom(p, c, k + 1, 0, [], eob))
  }

  function AcCode(p: Band, c: Block): BlockCode
    requires AcBand(p)
  {
    if p.Ah == 0 then FirstFrom(p, c, p.Ss, 0)
    else RefineFrom(p, c, p.Ss, 0, [], LastNew(p, c, p.Ss, 0))
  }

  // ----- decoder -----

  // Reading stops with None if the bits run out or a coefficient is placed beyond
  // the band, which does not happen with well-formed data.

  /** State after reading a block: the block, the end-of-band blocks still owed
      and the unread bits. */
  datatype Decoded = Decoded(blk: Block, eobrun: nat, bits: seq<bool>)

  function DecFirst(p: Band, read: Reader, k: nat, blk: Block, bits: seq<bool>): Option<Decoded>
    requires p.Se <= 63
    decreases 64 - k
  {
    if k > p.Se then Some(Decoded(blk, 0, bits))
    else
      match read(bits)
      case None => None
      case Some((rs, bits1)) =>
        var r, s := rs / 16, rs % 16;
        if s != 0 then
          match GetBits(s, bits1)
          case None => None
          case Some((x, bits2)) =>
            if k + r > p.Se then None
            else DecFirst(p, read, k + r + 1, blk[k + r := ToShort(Extend(x, s) * Pow2(p.Al))], bits2)
        else if r == 15 then DecFirst(p, read, k + 16, blk, bits1)
        else
          match GetBits(r, bits1)
          case None => None
          case Some((x, bits2)) => Some(Decoded(blk, Pow2(r) + x - 1, bits2))
  }

  /** A correction bit for a nonzero coefficient v; setting it twice is harmless. */
  function Correct(v: int, al: nat, bit: bool): int {
    if bit && Shr(v, al) % 2 == 0 then
      if v >= 0 then v + Pow2(al) else v - Pow2(al)
    else v
  }

  /** A newly nonzero coefficient with its sign bit. */
  function NewCoef(al: nat, positive: bool): int {
    if positive then Pow2(al) else -(Pow2(al) as int)
  }

  /** Passes nonzero coefficients, correcting them, and r zero ones; stops at the
      next zero coefficient or past the band. */
  function Skip(p: Band, k: nat, r: nat, blk: Block, bits: seq<bool>): (res: Option<(nat, Block, seq<bool>)>)
    requires k <= p.Se <= 63
    ensures res.Some? ==> k <= res.value.0 <= p.Se + 1
    decreases 64 - k
  {
    if blk[k] != 0 then
      if bits == [] then None
      else
        var blk1 := blk[k := ToShort(Correct(blk[k], p.Al, bits[0]))];
        if k == p.Se then Some((k + 1, blk1, bits[1..])) else Skip(p, k + 1, r, blk1, bits[1..])
    else if r == 0 then Some((k, blk, bits))
    else if k == p.Se then Some((k + 1, blk, bits))
    else Skip(p, k + 1, r - 1, blk, bits)
  }

  /** Corrects every nonzero coefficient from k to the end of the band. */
  function CorrectTail(p: Band, k: nat, blk: Block, bits: seq<bool>): Option<(Block, seq<bool>)>
    requires p.Se <= 63
    decreases 64 - k
  {
    if k > p.Se then Some((blk, bits))
    else if blk[k] == 0 then CorrectTail(p, k + 1, blk, bits)
    else if bits == [] then None
    else CorrectTail(p, k + 1, blk[k := ToShort(Correct(blk[k], p.Al, bits[0]))], bits[1..])
  }

  function DecRefine(p: Band, read: Reader, k: nat, blk: Block, bits: seq<bool>): Option<Decoded>
    requires p.Se <= 63
    decreases 64 - k
  {
    if k > p.Se then Some(Decoded(blk, 0, bits))
    else
      match read(bits)
      case None => None
      case Some((rs, bits1)) =>
        var r, s := rs / 16, rs % 16;
        if s == 0 && r != 15 then
          match GetBits(r, bits1)
          case None => None
          case Some((x, bits2)) =>
            (match CorrectTail(p, k, blk, bits2)
             case None => None
             case Some((blk1, bits3)) => Some(Decoded(blk1, Pow2(r) + x - 1, bits3)))
        else if s != 0 && bits1 == [] then None
        else
          var bits2 := if s != 0 then bits1[1..] else bits1;
          match Skip(p, k, r, blk, bits2)
          case None => None
          case Some((k1, blk1, bits3)) =>
            if s == 0 then DecRefine(p, read, k1 + 1, blk1, bits3)
            else if k1 > p.Se then None
            else DecRefine(p, read, k1 + 1, blk1[k1 := ToShort(NewCoef(p.Al, bits1[0]))], bits3)
  }

  /** Reads the rest of a block whose coefficients before k are done. */
  function DecAcFrom(p: Band, read: Reader, k: nat, blk: Block, bits: seq<bool>): Option<Decoded>
    requires p.Se <= 63
  {
    if p.Ah == 0 then DecFirst(p, read, k, blk, bits) else DecRefine(p, read, k, blk, bits)
  }

  /** The rest of a block inside an end-of-band run. */
  function DecTail(p: Band, k: nat, blk: Block, bits: seq<bool>): Option<(Block, seq<bool>)>
    requires p.Se <= 63
  {
    if p.Ah == 0 then Some((blk, bits)) else CorrectTail(p, k, blk, bits)
  }

  /** Reads one block. */
  function DecAcBlock(p: Band, read: Reader, eobrun: nat, blk: Block, bits: seq<bool>): Option<Decoded>
    requires p.Se <= 63
  {
    if eobrun == 0 then DecAcFrom(p, read, p.Ss, blk, bits)
    else
      match DecTail(p, p.Ss, blk, bits)
      case None => None
      case Some((blk1, bits1)) => Some(Decoded(blk1, eobrun - 1, bits1))
  }
}
