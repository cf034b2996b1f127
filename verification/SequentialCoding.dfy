/** Sequential scans (ITU-T T.81 sections F.1.2 and F.2.2), MCU by MCU: a DC difference
    and runs of AC coefficients for every block, as jchuff.c codes them and jdhuff.c
    reads them back. */
module SequentialCoding {
  import opened Bits
  import opened Wrappers
  import opened Tokens
  import opened AcCoding
  import opened Coefficients
  import opened DcCoding
  import ScanCoding
  import First = AcFirstScan

  type Mcu = seq<Block>

  /** The components of a scan; membership[b] is the component of block b of an MCU. */
  datatype Layout = Layout(comps: seq<ScanCoding.CompInfo>, membership: seq<nat>)

  predicate LayoutOk(s: Layout) {
    forall b :: 0 <= b < |s.membership| ==> s.membership[b] < |s.comps|
  }

  function DcId(s: Layout, b: nat): TableId
    requires LayoutOk(s) && b < |s.membership|
  {
    Dc(s.comps[s.membership[b]].dcTbl)
  }

  function AcId(s: Layout, b: nat): TableId
    requires LayoutOk(s) && b < |s.membership|
  {
    Ac(s.comps[s.membership[b]].acTbl)
  }

  /** All AC coefficients, at full precision. */
  function Whole(id: TableId): Band {
    Band(1, 63, 0, 0, id)
  }

  function Zeros(s: Layout): (r: seq<int>)
    ensures |r| == |s.comps|
  {
    seq(|s.comps|, _ => 0)
  }

  predicate Shaped(s: Layout, mcus: seq<Mcu>) {
    forall i :: 0 <= i < |mcus| ==> |mcus[i]| == |s.membership|
  }

  // ----- encoder -----

  /** The AC coefficients of a block; trailing zeros make an end-of-block. */
  function AcTokens(id: TableId, c: Block): seq<Token> {
    var code := FirstFrom(Whole(id), c, 1, 0);
    code.toks + if code.r > 0 then [Sym(id, 0)] else []
  }

  function BlockTokens(s: Layout, b: nat, last: int, c: Block): seq<Token>
    requires LayoutOk(s) && b < |s.membership|
  {
    DiffTokens(DcId(s, b), c[0] - last) + AcTokens(AcId(s, b), c)
  }

  /** The blocks of an MCU from block b on, and the last DC values after them. */
  function EncBlocks(s: Layout, lastDc: seq<int>, mcu: Mcu, b: nat): (res: (seq<Token>, seq<int>))
    requires LayoutOk(s) && |lastDc| == |s.comps| && |mcu| == |s.membership|
    ensures |res.1| == |lastDc|
    decreases |mcu| - b
  {
    if b >= |mcu| then ([], lastDc)
    else
      var ci := s.membership[b];
      var (toks, last) := EncBlocks(s, lastDc[ci := mcu[b][0]], mcu, b + 1);
      (BlockTokens(s, b, lastDc[ci], mcu[b]) + toks, last)
  }

  /** The encoder raises no JERR_BAD_DCT_COEF on a block. */
  ghost predicate BlockInRange(id: TableId, last: int, c: Block) {
    BitLen(Abs(c[0] - last)) <= 11 && First.InRange(Whole(id), c)
  }

  ghost predicate BlocksInRange(s: Layout, lastDc: seq<int>, mcu: Mcu, b: nat)
    requires LayoutOk(s) && |lastDc| == |s.comps| && |mcu| == |s.membership|
    decreases |mcu| - b
  {
    b >= |mcu| ||
    (var ci := s.membership[b];
     BlockInRange(AcId(s, b), lastDc[ci], mcu[b]) && BlocksInRange(s, lastDc[ci := mcu[b][0]], mcu, b + 1))
  }

  /** The tokens of a segment, and the last DC values after it. */
  function EncSegment(s: Layout, lastDc: seq<int>, mcus: seq<Mcu>): (res: (seq<Token>, seq<int>))
    requires LayoutOk(s) && |lastDc| == |s.comps| && Shaped(s, mcus)
    ensures |res.1| == |lastDc|
    decreases |mcus|
  {
    if mcus == [] then ([], lastDc)
    else
      var (toks, last) := EncBlocks(s, lastDc, mcus[0], 0);
      var (more, last1) := EncSegment(s, last, mcus[1..]);
      (toks + more, last1)
  }

  ghost predicate SegmentInRange(s: Layout, lastDc: seq<int>, mcus: seq<Mcu>)
    requires LayoutOk(s) && |lastDc| == |s.comps| && Shaped(s, mcus)
    decreases |mcus|
  {
    mcus == [] ||
    (BlocksInRange(s, lastDc, mcus[0], 0) && SegmentInRange(s, EncBlocks(s, lastDc, mcus[0], 0).1, mcus[1..]))
  }

  lemma {:induction false} SegmentSnoc(s: Layout, lastDc: seq<int>, mcus: seq<Mcu>, m: Mcu)
    requires LayoutOk(s) && |lastDc| == |s.comps| && Shaped(s, mcus) && |m| == |s.membership|
    ensures Shaped(s, mcus + [m])
    ensures var (toks, last) := EncSegment(s, lastDc, mcus);
            var (more, last1) := EncBlocks(s, last, m, 0);
            EncSegment(s, lastDc, mcus + [m]) == (toks + more, last1) &&
            (SegmentInRange(s, lastDc, mcus + [m]) <==> SegmentInRange(s, lastDc, mcus) && BlocksInRange(s, last, m, 0))
    decreases |mcus|
  {
    hide EncBlocks, BlocksInRange;
    if mcus == [] {
      assert [] + [m] == [m];
      var toks := EncBlocks(s, lastDc, m, 0).0;
      assert [m][1..] == [] && toks + [] == toks && [] + toks == toks;
    } else {
      assert (mcus + [m])[1..] == mcus[1..] + [m];
      var (toks, last) := EncBlocks(s, lastDc, mcus[0], 0);
      SegmentSnoc(s, last, mcus[1..], m);
      var (more, last1) := EncSegment(s, last, mcus[1..]);
      SeqAssoc(toks, more, EncBlocks(s, last1, m, 0).0);
    }
  }

  // ----- decoder -----

  /** The AC coefficients from k on, into a block that was zeroed before. None if the
      bits run out or a coefficient is placed beyond the block. */
  function DecAc(read: Reader, k: nat, blk: Block, bits: seq<bool>): Option<(Block, seq<bool>)>
    decreases 64 - k
  {
    if k >= 64 then Some((blk, bits))
    else
      match read(bits)
      case None => None
      case Some((rs, bits1)) =>
        var r, s := rs / 16, rs % 16;
        if s != 0 then
          match GetBits(s, bits1)
          case None => None
          case Some((x, bits2)) =>
            if k + r > 63 then None else DecAc(read, k + r + 1, blk[k + r := ToShort(Extend(x, s))], bits2)
        else if r == 15 then DecAc(read, k + 16, blk, bits1)
        else Some((blk, bits1))
  }

  predicate TablesFor(s: Layout, T: Tables) {
    LayoutOk(s) && forall b :: 0 <= b < |s.membership| ==> DcId(s, b) in T && AcId(s, b) in T
  }

  /** One block. */
  function DecBlock(T: Tables, dc: TableId, ac: TableId, last: int, blk: Block, bits: seq<bool>): Option<(int, Block, seq<bool>)>
    requires dc in T && ac in T
  {
    match ReadDiff(T[dc].read, bits)
    case None => None
    case Some((d, bits1)) =>
      match DecAc(T[ac].read, 1, blk[0 := ToShort(last + d)], bits1)
      case None => None
      case Some((blk1, bits2)) => Some((last + d, blk1, bits2))
  }

  function DecBlocks(s: Layout, T: Tables, bits: seq<bool>, lastDc: seq<int>, mcu: Mcu, b: nat): (res: Option<(seq<bool>, seq<int>, Mcu)>)
    requires TablesFor(s, T) && |lastDc| == |s.comps| && |mcu| == |s.membership|
    ensures res.Some? ==> |res.value.1| == |lastDc| && |res.value.2| == |mcu|
    decreases |mcu| - b
  {
    if b >= |mcu| then Some((bits, lastDc, mcu))
    else
      var ci := s.membership[b];
      match DecBlock(T, DcId(s, b), AcId(s, b), lastDc[ci], mcu[b], bits)
      case None => None
      case Some((v, blk, bits1)) => DecBlocks(s, T, bits1, lastDc[ci := v], mcu[b := blk], b + 1)
  }

  // ----- round trip -----

  /** Where reading a first scan leaves no end-of-band run, sequential reading has the
      same result. */
  lemma {:induction false} ReadsAlike(id: TableId, read: Reader, k: nat, blk: Block, bits: seq<bool>, fin: Block, rest: seq<bool>)
    requires DecFirst(Whole(id), read, k, blk, bits) == Some(Decoded(fin, 0, rest))
    ensures DecAc(read, k, blk, bits) == Some((fin, rest))
    decreases 64 - k
  {
    hide Extend, ToShort;
    if k < 64 {
      var (rs, bits1) := read(bits).value;
      var r, s := rs / 16, rs % 16;
      if s != 0 {
        var (x, bits2) := GetBits(s, bits1).value;
        assert Extend(x, s) * Pow2(0) == Extend(x, s);
        ReadsAlike(id, read, k + r + 1, blk[k + r := ToShort(Extend(x, s))], bits2, fin, rest);
      } else if r == 15 {
        ReadsAlike(id, read, k + 16, blk, bits1, fin, rest);
      } else {
        RunOfOne(r, GetBits(r, bits1).value.0);
        assert bits1[0..] == bits1;
      }
    }
  }

  lemma RunOfOne(r: nat, x: nat)
    requires Pow2(r) + x - 1 == 0
    ensures r == 0
  {
    Pow2Mono(if r > 0 then 1 else 0, r);
  }

  /** A block without AC coefficients. */
  predicate Blank(c: Block) {
    forall i :: 1 <= i < 64 ==> c[i] == 0
  }

  lemma WholeIs(id: TableId, prev: Block, c: Block)
    ensures Mixed(Whole(id), prev, c, 64) == c[0 := prev[0]]
  {
    assert forall i :: 0 <= i < 64 ==> Trunc(c[i], 0) == c[i];
  }

  lemma WholeReady(id: TableId, T: Tables, prev: Block, c: Block)
    requires id in T && Sound(T[id]) && Blank(prev) && Shorts(c)
    ensures First.FirstScan(Whole(id), T, prev, c)
  {
  }

  lemma ReadEob(id: TableId, T: Tables, k: nat, blk: Block, rest: seq<bool>)
    requires id in T && Sound(T[id]) && Covers(T, [Sym(id, 0)]) && k < 64
    ensures DecFirst(Whole(id), T[id].read, k, blk, Emit(T, [Sym(id, 0)], rest)) == Some(Decoded(blk, 0, rest))
  {
    assert [Sym(id, 0)] + [] == [Sym(id, 0)];
    ReadSymbol(T, id, 0, [], rest);
    assert rest[0..] == rest && rest[..0] == [];
  }

  lemma AcInverts(id: TableId, T: Tables, prev: Block, c: Block, rest: seq<bool>)
    requires id in T && Sound(T[id]) && Blank(prev) && Shorts(c) && First.InRange(Whole(id), c) && Covers(T, AcTokens(id, c))
    ensures DecAc(T[id].read, 1, prev, Emit(T, AcTokens(id, c), rest)) == Some((c[0 := prev[0]], rest))
  {
    hide DecFirst, FirstFrom, Mixed, Mag, DecAc, First.InRange;
    var p, code := Whole(id), FirstFrom(Whole(id), c, 1, 0);
    WholeReady(id, T, prev, c);
    var eob := if code.r > 0 then [Sym(id, 0)] else [];
    EmitConcat(T, code.toks, eob, rest);
    First.FirstInverts(p, T, prev, c, 1, 1, Emit(T, eob, rest));
    MixedBegins(p, prev, c);
    var end := 64 - code.r;
    if code.r > 0 {
      First.MixedOverZeros(p, T, prev, c, end, 64);
      ReadEob(id, T, end, Mixed(p, prev, c, 64), rest);
    } else {
      AtEnd(p, T[id].read, Mixed(p, prev, c, 64), rest);
    }
    WholeIs(id, prev, c);
    ReadsAlike(id, T[id].read, 1, prev, Emit(T, AcTokens(id, c), rest), c[0 := prev[0]], rest);
  }

  lemma MixedBegins(p: Band, prev: Block, c: Block)
    ensures Mixed(p, prev, c, p.Ss) == prev
  {
  }

  lemma AtEnd(p: Band, read: Reader, blk: Block, bits: seq<bool>)
    requires p.Se == 63
    ensures DecFirst(p, read, 64, blk, bits) == Some(Decoded(blk, 0, bits))
  {
  }

  ghost predicate SoundFor(s: Layout, T: Tables) {
    TablesFor(s, T) && forall id :: id in T ==> Sound(T[id])
  }

  lemma BlockInverts(s: Layout, T: Tables, b: nat, last: int, prev: Block, c: Block, rest: seq<bool>)
    requires SoundFor(s, T) && b < |s.membership| && Blank(prev) && Shorts(c)
    requires BlockInRange(AcId(s, b), last, c) && Covers(T, BlockTokens(s, b, last, c))
    ensures DecBlock(T, DcId(s, b), AcId(s, b), last, prev, Emit(T, BlockTokens(s, b, last, c), rest)) == Some((c[0], c, rest))
  {
    hide DiffTokens, ReadDiff, AcTokens, DecAc, First.InRange, ToShort;
    var dc, ac := DcId(s, b), AcId(s, b);
    EmitConcat(T, DiffTokens(dc, c[0] - last), AcTokens(ac, c), rest);
    DiffInverts(T, dc, c[0] - last, Emit(T, AcTokens(ac, c), rest));
    ToShortId(c[0]);
    AcInverts(ac, T, prev[0 := c[0]], c, rest);
    assert c[0 := c[0]] == c;
  }

  predicate McuShorts(mcu: Mcu) {
    forall i :: 0 <= i < |mcu| ==> Shorts(mcu[i])
  }

  predicate McuBlank(mcu: Mcu) {
    forall i :: 0 <= i < |mcu| ==> Blank(mcu[i])
  }

  /** Reading an MCU into blank blocks undoes coding it. */
  lemma {:induction false} McuInverts(s: Layout, T: Tables, lastDc: seq<int>, cur: Mcu, c: Mcu, b: nat, rest: seq<bool>)
    requires SoundFor(s, T) && |lastDc| == |s.comps| && |cur| == |c| == |s.membership| && b <= |c| && McuShorts(c)
    requires cur[..b] == c[..b] && McuBlank(cur[b..])
    requires BlocksInRange(s, lastDc, c, b) && Covers(T, EncBlocks(s, lastDc, c, b).0)
    ensures DecBlocks(s, T, Emit(T, EncBlocks(s, lastDc, c, b).0, rest), lastDc, cur, b)
         == Some((rest, EncBlocks(s, lastDc, c, b).1, c))
    decreases |c| - b
  {
    hide BlockTokens, DecBlock, BlockInRange, Shorts, Blank;
    if b < |c| {
      var ci := s.membership[b];
      var toks, more := BlockTokens(s, b, lastDc[ci], c[b]), EncBlocks(s, lastDc[ci := c[b][0]], c, b + 1).0;
      EmitConcat(T, toks, more, rest);
      assert cur[b..][0] == cur[b];
      BlockInverts(s, T, b, lastDc[ci], cur[b], c[b], Emit(T, more, rest));
      var cur1 := cur[b := c[b]];
      assert cur1[..b + 1] == c[..b + 1] by { assert cur1[..b + 1] == cur[..b] + [c[b]]; assert c[..b + 1] == c[..b] + [c[b]]; }
      assert cur1[b + 1..] == cur[b..][1..];
      McuInverts(s, T, lastDc[ci := c[b][0]], cur1, c, b + 1, rest);
    } else {
      assert cur[..b] == cur && c[..b] == c;
    }
  }

  // ----- the end of a block -----

  lemma FullMag(x: int)
    ensures Mag(x, 0) == Abs(x)
  {
  }

  /** A block without AC coefficients takes one symbol. */
  lemma EmptyBlock(id: TableId, c: Block)
    requires forall k :: 1 <= k <= 63 ==> c[k] == 0
    ensures AcTokens(id, c) == [Sym(id, 0)]
  {
    hide FirstFrom;
    FullMag(c[63]);
    First.TrailingZeros(Whole(id), c);
  }

  /** The tokens of the last nonzero coefficient m are the last, but for an end-of-block
      symbol unless m is 63. */
  lemma EndOfBlock(id: TableId, c: Block, m: nat)
    requires 1 <= m <= 63 && c[m] != 0 && forall k :: m < k <= 63 ==> c[k] == 0
    ensures var toks, last := AcTokens(id, c), Raw(ExtraBits(c[m], Abs(c[m])), BitLen(Abs(c[m])));
            |toks| >= 3 - m / 63 && (if m == 63 then toks[|toks| - 1] == last
                                     else toks[|toks| - 1] == Sym(id, 0) && toks[|toks| - 2] == last)
  {
    hide FirstFrom, BitLen;
    var p := Whole(id);
    forall k | m < k <= 63 ensures Mag(c[k], 0) == 0 { FullMag(c[k]); }
    FullMag(c[m]);
    First.EndsWithLast(p, c, 1, 0, m);
    First.TrailingZeros(p, c);
    var n := FirstFrom(p, c, 1, 0).r;
    assert m < 63 ==> n > 0 by { if m < 63 && n == 0 { FullMag(c[63]); } }
    assert m == 63 ==> n == 0;
  }
}
