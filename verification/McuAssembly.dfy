/** How blocks are put together to MCUs (jccoefct.c): in a single pass, or by way of a
    buffer for the whole image. Both give the entropy encoder the same MCUs, dummy
    blocks at the right and bottom edges included. */
module McuAssembly {
  import opened Bits
  import opened AcCoding
  import opened Rounding

  const DCTSIZE: nat := 8

  /** A component in blocks; img holds its DCT blocks. */
  datatype Component = Component(h: nat, v: nat, width: nat, height: nat, img: seq<seq<Block>>)

  /** What initial_setup computes for an image of W by H samples. */
  ghost predicate Sized(c: Component, W: nat, H: nat, hmax: nat, vmax: nat) {
    0 < c.h <= hmax && 0 < c.v <= vmax && W > 0 && H > 0 &&
    c.width == CeilDiv(W * c.h, hmax * DCTSIZE) && c.height == CeilDiv(H * c.v, vmax * DCTSIZE) &&
    |c.img| == c.height && forall r :: 0 <= r < c.height ==> |c.img[r]| == c.width
  }

  /** In an interleaved scan of an image of across by down MCUs, every component has its
      last, possibly partial, MCU column and row in the same place. */
  lemma ColumnsAndRowsFit(c: Component, W: nat, H: nat, hmax: nat, vmax: nat)
    requires Sized(c, W, H, hmax, vmax)
    ensures var across, down := CeilDiv(W, hmax * DCTSIZE), CeilDiv(H, vmax * DCTSIZE);
            across > 0 && (across - 1) * c.h + LastPart(c.width, c.h) == c.width &&
            down > 0 && (down - 1) * c.v + LastPart(c.height, c.v) == c.height
  {
    hide CeilDiv;
    SizePositive(W, c.h, hmax * DCTSIZE);
    SizePositive(H, c.v, vmax * DCTSIZE);
    NestedCeil(W, c.h, hmax * DCTSIZE);
    NestedCeil(H, c.v, vmax * DCTSIZE);
    LastPartIs(c.width, c.h, CeilDiv(W, hmax * DCTSIZE));
    LastPartIs(c.height, c.v, CeilDiv(H, vmax * DCTSIZE));
  }

  lemma SizePositive(n: nat, s: nat, d: nat)
    requires n > 0 && s > 0 && d > 0
    ensures CeilDiv(n * s, d) > 0
  {
    hide CeilDiv;
    MulLe(1, n, s);
    CeilBounds(n * s, d);
  }

  // ----- what an MCU consists of -----

  /** A dummy block: only the DC value is set. */
  function Dummy(dc: int): Block {
    seq(64, i requires 0 <= i < 64 => if i == 0 then dc else 0)
  }

  /** The block at row r and column x of a component that is padded to whole MCUs. A
      dummy block repeats the DC value of the block before it in its MCU. */
  function Cell(c: Component, r: nat, x: nat): Block
    requires c.h > 0 && c.height > 0 && c.width > 0 && |c.img| == c.height
    requires forall i :: 0 <= i < c.height ==> |c.img[i]| == c.width
  {
    if r < c.height then RealRow(c, r, x)
    else Dummy(RealRow(c, c.height - 1, x / c.h * c.h + c.h - 1)[0])
  }

  function RealRow(c: Component, r: nat, x: nat): Block
    requires r < c.height && c.width > 0 && |c.img| == c.height && |c.img[r]| == c.width
  {
    if x < c.width then c.img[r][x] else Dummy(c.img[r][c.width - 1][0])
  }

  /** The scan's view of a component: blocks per MCU, and how many of them are real in
      the last MCU column and in the last iMCU row (per_scan_setup). */
  datatype McuShape = McuShape(w: nat, h: nat, lastCol: nat, lastRow: nat)

  function Setup(c: Component, interleaved: bool): McuShape
    requires c.h > 0 && c.v > 0
  {
    if interleaved then McuShape(c.h, c.v, LastPart(c.width, c.h), LastPart(c.height, c.v))
    else McuShape(1, 1, 1, LastPart(c.height, c.v))
  }

  /** A scan: its components, MCUs per row, and iMCU rows. */
  datatype ScanShape = ScanShape(comps: seq<Component>, across: nat, down: nat)

  function Interleaved(s: ScanShape): bool {
    |s.comps| > 1
  }

  ghost predicate CompOk(c: Component) {
    c.h > 0 && c.v > 0 && c.width > 0 && c.height > 0 && |c.img| == c.height &&
    forall i :: 0 <= i < c.height ==> |c.img[i]| == c.width
  }

  /** The sizes fit together. */
  ghost predicate ShapeOk(s: ScanShape) {
    |s.comps| > 0 && s.across > 0 && s.down > 0 && forall ci :: 0 <= ci < |s.comps| ==> Fits(s, s.comps[ci])
  }

  /** The iMCU rows cover the component. */
  ghost predicate FitsDown(c: Component, down: nat) {
    CompOk(c) && down > 0 && (down - 1) * c.v + LastPart(c.height, c.v) == c.height
  }

  ghost predicate Fits(s: ScanShape, c: Component) {
    FitsDown(c, s.down) &&
    (if Interleaved(s) then (s.across - 1) * c.h + LastPart(c.width, c.h) == c.width else s.across == c.width)
  }

  /** The sizes of a legal image do fit. */
  lemma ImageFits(s: ScanShape, W: nat, H: nat, hmax: nat, vmax: nat)
    requires |s.comps| > 0 && forall ci :: 0 <= ci < |s.comps| ==> Sized(s.comps[ci], W, H, hmax, vmax)
    requires hmax > 0 && vmax > 0
    requires s.down == CeilDiv(H, vmax * DCTSIZE)
    requires s.across == if Interleaved(s) then CeilDiv(W, hmax * DCTSIZE) else s.comps[0].width
    ensures ShapeOk(s)
  {
    hide CeilDiv;
    forall ci | 0 <= ci < |s.comps| ensures Fits(s, s.comps[ci]) && s.across > 0 && s.down > 0 {
      var c := s.comps[ci];
      ColumnsAndRowsFit(c, W, H, hmax, vmax);
      SizePositive(W, c.h, hmax * DCTSIZE);
      SizePositive(H, c.v, vmax * DCTSIZE);
    }
    assert Fits(s, s.comps[0]);
  }

  /** The blocks of row y of an MCU of component c. */
  function McuRow(c: Component, sh: McuShape, row: nat, col: nat): (r: seq<Block>)
    requires CompOk(c)
    ensures |r| == sh.w
  {
    seq<Block>(sh.w, x requires 0 <= x < sh.w => Cell(c, row, col * sh.w + x))
  }

  /** The first n block rows of component c in an MCU. */
  function McuRows(c: Component, sh: McuShape, row: nat, col: nat, n: nat): seq<Block>
    requires CompOk(c)
  {
    if n == 0 then [] else McuRows(c, sh, row, col, n - 1) + McuRow(c, sh, row + n - 1, col)
  }

  /** The block row of component c at row y of iMCU row i. */
  function BlockRow(c: Component, i: nat, y: nat): nat {
    i * c.v + y
  }

  /** The blocks of the first n components in the MCU at row yoffset of iMCU row i and
      column col. */
  function McuBlocks(s: ScanShape, i: nat, yoffset: nat, col: nat, n: nat): seq<Block>
    requires ShapeOk(s) && n <= |s.comps|
  {
    if n == 0 then []
    else
      var c := s.comps[n - 1];
      assert Fits(s, c);
      var sh := Setup(c, Interleaved(s));
      McuBlocks(s, i, yoffset, col, n - 1) + McuRows(c, sh, BlockRow(c, i, yoffset), col, sh.h)
  }

  /** The MCU. */
  function Mcu(s: ScanShape, i: nat, yoffset: nat, col: nat): seq<Block>
    requires ShapeOk(s)
  {
    McuBlocks(s, i, yoffset, col, |s.comps|)
  }

  lemma {:induction false} McuRowsLength(c: Component, sh: McuShape, row: nat, col: nat, n: nat, m: nat)
    requires CompOk(c) && n <= m
    ensures |McuRows(c, sh, row, col, n)| + (if n < m then sh.w else 0) <= |McuRows(c, sh, row, col, m)|
    decreases m
  {
    if n < m { McuRowsLength(c, sh, row, col, n, m - 1); }
  }

  /** Which blocks of an MCU are real, from left to right. */
  lemma RealColumns(s: ScanShape, c: Component, col: nat, x: nat)
    requires Fits(s, c) && col < s.across && x < Setup(c, Interleaved(s)).w
    ensures var sh := Setup(c, Interleaved(s));
            var blockcnt := if col < s.across - 1 then sh.w else sh.lastCol;
            1 <= blockcnt <= sh.w && (col * sh.w + x < c.width <==> x < blockcnt)
  {
    var sh := Setup(c, Interleaved(s));
    MulSucc(col, sh.w);
    if col < s.across - 1 {
      MulLe(col + 1, s.across - 1, sh.w);
    }
  }

  /** Which block rows of an iMCU row are real. */
  lemma RealRows(down: nat, c: Component, i: nat, y: nat)
    requires FitsDown(c, down) && i < down && y < c.v
    ensures i * c.v + y < c.height <==> i < down - 1 || y < LastPart(c.height, c.v)
  {
    MulSucc(i, c.v);
    if i < down - 1 {
      MulLe(i + 1, down - 1, c.v);
    }
  }

  /** A dummy block row repeats the DC value of the last block above it in its MCU. */
  lemma DummyRowIs(c: Component, sh: McuShape, row: nat, col: nat, x: nat)
    requires CompOk(c) && sh.w == c.h && row >= c.height && row > 0 && x < sh.w
    ensures Cell(c, row, col * sh.w + x) == Dummy(Cell(c, row - 1, col * sh.w + sh.w - 1)[0])
  {
    MulSucc(col, c.h);
    DivBounds(col * c.h + x, c.h, col);
    DivBounds(col * c.h + c.h - 1, c.h, col);
  }

  // ----- the coefficient controller -----

  function Dummies(n: nat, dc: int): (r: seq<Block>)
    ensures |r| == n
  {
    seq<Block>(n, x requires 0 <= x < n => Dummy(dc))
  }

  lemma RealAndDummies(c: Component, sh: McuShape, row: nat, at: nat, col: nat, blockcnt: nat)
    requires CompOk(c) && row < c.height && at == col * sh.w && 1 <= blockcnt <= sh.w && at + blockcnt <= c.width
    requires blockcnt < sh.w ==> at + blockcnt == c.width
    ensures McuRow(c, sh, row, col) == c.img[row][at..at + blockcnt] + Dummies(sh.w - blockcnt, c.img[row][at + blockcnt - 1][0])
  {
    hide Dummy;
    var all := c.img[row][at..at + blockcnt] + Dummies(sh.w - blockcnt, c.img[row][at + blockcnt - 1][0]);
    forall x | 0 <= x < sh.w ensures McuRow(c, sh, row, col)[x] == all[x] {
      assert Cell(c, row, at + x) == all[x];
    }
  }

  /** A real block row is a slice of the image, filled up with dummies. */
  lemma RealRowIs(s: ScanShape, c: Component, sh: McuShape, row: nat, col: nat, blockcnt: nat)
    requires Fits(s, c) && sh == Setup(c, Interleaved(s)) && row < c.height && col < s.across
    requires blockcnt == if col < s.across - 1 then sh.w else sh.lastCol
    ensures 1 <= blockcnt <= sh.w && col * sh.w + blockcnt <= c.width
    ensures McuRow(c, sh, row, col) == c.img[row][col * sh.w..col * sh.w + blockcnt]
                                       + Dummies(sh.w - blockcnt, c.img[row][col * sh.w + blockcnt - 1][0])
  {
    assert CompOk(c);
    hide LastPart, Fits, CompOk, Setup, Interleaved;
    RealColumns(s, c, col, 0);
    RealColumns(s, c, col, blockcnt - 1);
    if blockcnt < sh.w {
      RealColumns(s, c, col, blockcnt);
    }
    RealAndDummies(c, sh, row, col * sh.w, col, blockcnt);
  }

  /** Puts n dummy blocks with the given DC value into the buffer. */
  method PutDummies(mcuBuffer: array<Block>, blkn: nat, n: nat, dc: int)
    requires blkn + n <= mcuBuffer.Length
    modifies mcuBuffer
    ensures mcuBuffer[..blkn + n] == old(mcuBuffer[..blkn]) + Dummies(n, dc)
  {
    var zero: Block := seq(64, _ => 0);
    assert old(mcuBuffer[..blkn]) + [] == old(mcuBuffer[..blkn]);
    for bi := 0 to n
      invariant mcuBuffer[..blkn + bi] == old(mcuBuffer[..blkn]) + Dummies(bi, dc)
    {
      ghost var before := mcuBuffer[..blkn + bi];
      mcuBuffer[blkn + bi] := zero;
      mcuBuffer[blkn + bi] := mcuBuffer[blkn + bi][0 := dc];
      assert mcuBuffer[blkn + bi] == Dummy(dc);
      assert mcuBuffer[..blkn + bi + 1] == before + [Dummy(dc)];
      assert Dummies(bi + 1, dc) == Dummies(bi, dc) + [Dummy(dc)];
    }
  }

  /** n blocks of a row, from the DCT. */
  method CopyBlocks(mcuBuffer: array<Block>, blkn: nat, row: seq<Block>, xpos: nat, n: nat)
    requires blkn + n <= mcuBuffer.Length && xpos + n <= |row|
    modifies mcuBuffer
    ensures mcuBuffer[..blkn + n] == old(mcuBuffer[..blkn]) + row[xpos..xpos + n]
  {
    ghost var part := row[xpos..xpos + n];
    for bi := 0 to n
      invariant mcuBuffer[..blkn + bi] == old(mcuBuffer[..blkn]) + part[..bi]
    {
      ghost var before := mcuBuffer[..blkn + bi];
      mcuBuffer[blkn + bi] := row[xpos + bi];
      assert mcuBuffer[..blkn + bi + 1] == before + [part[bi]];
    }
    assert part[..n] == part;
  }

  /** A real block row of an MCU: blockcnt blocks come from the DCT. */
  method PutRealRow(s: ScanShape, c: Component, sh: McuShape, mcuBuffer: array<Block>, blkn: nat, row: nat, col: nat, blockcnt: nat)
    requires Fits(s, c) && sh == Setup(c, Interleaved(s)) && row < c.height && col < s.across && blkn + sh.w <= mcuBuffer.Length
    requires blockcnt == if col < s.across - 1 then sh.w else sh.lastCol
    modifies mcuBuffer
    ensures mcuBuffer[..blkn + sh.w] == old(mcuBuffer[..blkn]) + McuRow(c, sh, row, col)
  {
    RealRowIs(s, c, sh, row, col, blockcnt);
    hide Cell, LastPart, McuRow, Dummies, Setup;
    var xpos := col * sh.w;
    CopyBlocks(mcuBuffer, blkn, c.img[row], xpos, blockcnt);
    assert mcuBuffer[blkn + blockcnt - 1] == mcuBuffer[..blkn + blockcnt][blkn + blockcnt - 1];
    PutDummies(mcuBuffer, blkn + blockcnt, sh.w - blockcnt, mcuBuffer[blkn + blockcnt - 1][0]);
  }

  lemma DummyRow(c: Component, sh: McuShape, row: nat, col: nat)
    requires CompOk(c) && sh.w == c.h && row >= c.height && row > 0
    ensures McuRow(c, sh, row, col) == Dummies(sh.w, McuRow(c, sh, row - 1, col)[sh.w - 1][0])
  {
    forall x | 0 <= x < sh.w ensures McuRow(c, sh, row, col)[x] == Dummy(Cell(c, row - 1, col * sh.w + sh.w - 1)[0]) {
      DummyRowIs(c, sh, row, col, x);
    }
  }

  /** One block row of a component in an MCU, real or dummy. */
  method PutRow(s: ScanShape, c: Component, sh: McuShape, mcuBuffer: array<Block>, blkn: nat, ghost blkn0: nat,
                row0: nat, i: nat, yoffset: nat, yindex: nat, col: nat)
    requires Fits(s, c) && sh == Setup(c, Interleaved(s)) && i < s.down && col < s.across && yindex < sh.h
    requires if Interleaved(s) then yoffset == 0 else yoffset < if i < s.down - 1 then c.v else sh.lastRow
    requires row0 == BlockRow(c, i, yoffset) && blkn0 <= blkn && blkn + sh.w <= mcuBuffer.Length
    requires mcuBuffer[blkn0..blkn] == McuRows(c, sh, row0, col, yindex)
    modifies mcuBuffer
    ensures mcuBuffer[..blkn + sh.w] == old(mcuBuffer[..blkn]) + McuRow(c, sh, row0 + yindex, col)
  {
    hide Cell, McuRow, Dummies, McuRows;
    RealRows(s.down, c, i, yoffset + yindex);
    hide BlockRow, FitsDown, LastPart;
    if i < s.down - 1 || yoffset + yindex < sh.lastRow {
      var blockcnt := if col < s.across - 1 then sh.w else sh.lastCol;
      PutRealRow(s, c, sh, mcuBuffer, blkn, row0 + yindex, col, blockcnt);
    } else {
      DummyRow(c, sh, row0 + yindex, col);
      assert mcuBuffer[..blkn][blkn0..] == mcuBuffer[blkn0..blkn];
      LastOfRow(c, sh, row0, col, yindex, mcuBuffer[..blkn], blkn0);
      assert mcuBuffer[blkn - 1] == mcuBuffer[..blkn][blkn - 1];
      PutDummies(mcuBuffer, blkn, sh.w, mcuBuffer[blkn - 1][0]);
    }
  }

  /** The blocks of one component in an MCU, as compress_data fills them in. */
  method PutComponent(s: ScanShape, c: Component, sh: McuShape, mcuBuffer: array<Block>, blkn0: nat, i: nat, yoffset: nat, col: nat)
      returns (blkn: nat)
    requires Fits(s, c) && sh == Setup(c, Interleaved(s)) && i < s.down && col < s.across
    requires if Interleaved(s) then yoffset == 0 else yoffset < if i < s.down - 1 then c.v else sh.lastRow
    requires blkn0 + |McuRows(c, sh, BlockRow(c, i, yoffset), col, sh.h)| <= mcuBuffer.Length
    modifies mcuBuffer
    ensures blkn == blkn0 + |McuRows(c, sh, BlockRow(c, i, yoffset), col, sh.h)|
    ensures mcuBuffer[..blkn] == old(mcuBuffer[..blkn0]) + McuRows(c, sh, BlockRow(c, i, yoffset), col, sh.h)
  {
    var row0: nat := BlockRow(c, i, yoffset);
    assert CompOk(c);
    hide Cell, LastPart, McuRow, Fits, FitsDown, CompOk, Setup, BlockRow;
    ghost var before := mcuBuffer[..blkn0];
    blkn := blkn0;
    assert before + [] == before;
    for yindex := 0 to sh.h
      invariant blkn == blkn0 + |McuRows(c, sh, row0, col, yindex)|
      invariant blkn <= mcuBuffer.Length && mcuBuffer[..blkn] == before + McuRows(c, sh, row0, col, yindex)
    {
      McuRowsLength(c, sh, row0, col, yindex + 1, sh.h);
      McuRowsLength(c, sh, row0, col, yindex, sh.h);
      assert mcuBuffer[blkn0..blkn] == mcuBuffer[..blkn][blkn0..];
      PutRow(s, c, sh, mcuBuffer, blkn, blkn0, row0, i, yoffset, yindex, col);
      blkn := blkn + sh.w;
      assert McuRows(c, sh, row0, col, yindex + 1) == McuRows(c, sh, row0, col, yindex) + McuRow(c, sh, row0 + yindex, col);
    }
  }

  /** The last block written is the last one of the block row above. */
  lemma LastOfRow(c: Component, sh: McuShape, row: nat, col: nat, n: nat, filled: seq<Block>, start: nat)
    requires CompOk(c) && sh.w > 0 && n > 0 && start <= |filled| && filled[start..] == McuRows(c, sh, row, col, n)
    ensures |filled| > start && filled[|filled| - 1] == McuRow(c, sh, row + n - 1, col)[sh.w - 1]
  {
    hide McuRow;
  }

  // ----- the full-image buffer -----

  /** Width of a component padded to whole MCUs. */
  function Padded(c: Component): nat
    requires c.h > 0
  {
    c.width + if c.width % c.h > 0 then c.h - c.width % c.h else 0
  }

  lemma PaddedIs(c: Component)
    requires c.h > 0
    ensures Padded(c) % c.h == 0 && Padded(c) / c.h * c.h == Padded(c) >= c.width
  {
    var q, r := c.width / c.h, c.width % c.h;
    assert c.width == c.h * q + r;
    MulSucc(q, c.h);
    var n := if r > 0 then q + 1 else q;
    assert Padded(c) == n * c.h;
    MulSucc(n, c.h);
    DivBounds(Padded(c), c.h, n);
  }

  /** Row r of the buffer is as the MCUs need it. */
  ghost predicate RowFilled(c: Component, whole: array2<Block>, r: nat)
    reads whole
  {
    CompOk(c) && r < whole.Length0 && whole.Length1 == Padded(c) &&
    forall x :: 0 <= x < whole.Length1 ==> whole[r, x] == Cell(c, r, x)
  }

  /** A real block row, with dummy blocks at its right end. */
  method FillRealRow(c: Component, whole: array2<Block>, r: nat)
    requires CompOk(c) && r < c.height && r < whole.Length0 && whole.Length1 == Padded(c)
    modifies whole
    ensures RowFilled(c, whole, r)
    ensures forall q, x :: 0 <= q < whole.Length0 && q != r && 0 <= x < whole.Length1 ==> whole[q, x] == old(whole[q, x])
    ensures forall q :: 0 <= q < whole.Length0 && q != r && old(RowFilled(c, whole, q)) ==> RowFilled(c, whole, q)
  {
    PaddedIs(c);
    var blocksAcross := c.width;
    for x := 0 to blocksAcross
      invariant forall y :: 0 <= y < x ==> whole[r, y] == c.img[r][y]
      invariant forall q, y :: 0 <= q < whole.Length0 && q != r && 0 <= y < whole.Length1 ==> whole[q, y] == old(whole[q, y])
    {
      whole[r, x] := c.img[r][x];
    }
    var ndummy := Padded(c) - c.width;
    var zero: Block := seq(64, _ => 0);
    var lastDC := whole[r, blocksAcross - 1][0];
    for bi := 0 to ndummy
      invariant forall y :: 0 <= y < blocksAcross ==> whole[r, y] == c.img[r][y]
      invariant forall y :: blocksAcross <= y < blocksAcross + bi ==> whole[r, y] == Dummy(lastDC)
      invariant forall q, y :: 0 <= q < whole.Length0 && q != r && 0 <= y < whole.Length1 ==> whole[q, y] == old(whole[q, y])
    {
      whole[r, blocksAcross + bi] := zero;
      whole[r, blocksAcross + bi] := whole[r, blocksAcross + bi][0 := lastDC];
      assert whole[r, blocksAcross + bi] == Dummy(lastDC);
    }
  }

  /** A dummy block row: in each MCU, the DC value of its last block in the row above. */
  method FillDummyRow(c: Component, whole: array2<Block>, r: nat)
    requires CompOk(c) && c.height <= r < whole.Length0 && r > 0 && whole.Length1 == Padded(c) && RowFilled(c, whole, r - 1)
    modifies whole
    ensures RowFilled(c, whole, r)
    ensures forall q, x :: 0 <= q < whole.Length0 && q != r && 0 <= x < whole.Length1 ==> whole[q, x] == old(whole[q, x])
    ensures forall q :: 0 <= q < whole.Length0 && q != r && old(RowFilled(c, whole, q)) ==> RowFilled(c, whole, q)
  {
    PaddedIs(c);
    hide Cell, Padded;
    var mcusAcross := whole.Length1 / c.h;
    var zero: Block := seq(64, _ => 0);
    var at: nat := 0;
    for mcuIndex := 0 to mcusAcross
      invariant at == mcuIndex * c.h && at <= whole.Length1
      invariant forall y :: 0 <= y < at ==> whole[r, y] == Cell(c, r, y)
      invariant forall q, y :: 0 <= q < whole.Length0 && q != r && 0 <= y < whole.Length1 ==> whole[q, y] == old(whole[q, y])
    {
      MulSucc(mcuIndex, c.h);
      MulLe(mcuIndex + 1, mcusAcross, c.h);
      FillDummies(c, whole, r, mcuIndex, at);
      at := at + c.h;
    }
  }

  /** The dummy blocks of one MCU. */
  method FillDummies(c: Component, whole: array2<Block>, r: nat, ghost mcuIndex: nat, at: nat)
    requires CompOk(c) && c.height <= r < whole.Length0 && r > 0 && at == mcuIndex * c.h && at + c.h <= whole.Length1
    requires whole[r - 1, at + c.h - 1] == Cell(c, r - 1, at + c.h - 1)
    modifies whole
    ensures forall y :: at <= y < at + c.h ==> whole[r, y] == Cell(c, r, y)
    ensures forall q, y :: 0 <= q < whole.Length0 && 0 <= y < whole.Length1 && (q != r || y < at) ==> whole[q, y] == old(whole[q, y])
  {
    hide Cell;
    var lastDC := whole[r - 1, at + c.h - 1][0];
    var zero: Block := seq(64, _ => 0);
    for bi := 0 to c.h
      invariant forall y :: at <= y < at + bi ==> whole[r, y] == Cell(c, r, y)
      invariant forall q, y :: 0 <= q < whole.Length0 && 0 <= y < whole.Length1 && (q != r || y < at) ==> whole[q, y] == old(whole[q, y])
    {
      whole[r, at + bi] := zero;
      whole[r, at + bi] := whole[r, at + bi][0 := lastDC];
      assert whole[r, at + bi] == Dummy(lastDC);
      DummyRowIs(c, McuShape(c.h, c.v, 1, 1), r, mcuIndex, bi);
    }
  }

  /** The part of compress_first_pass for one component: iMCU row i goes into the
      buffer, complete with dummy blocks. */
  method FillImcuRow(down: nat, c: Component, whole: array2<Block>, i: nat)
    requires FitsDown(c, down) && i < down && whole.Length1 == Padded(c) && i * c.v + c.v <= whole.Length0
    modifies whole
    ensures forall r :: i * c.v <= r < i * c.v + c.v ==> RowFilled(c, whole, r)
    ensures forall q :: 0 <= q < i * c.v && old(RowFilled(c, whole, q)) ==> RowFilled(c, whole, q)
  {
    assert CompOk(c);
    hide Cell, Padded, RowFilled, FitsDown, LastPart;
    var blockRows := if i < down - 1 then c.v else LastPart(c.height, c.v);
    var row0: nat := i * c.v;
    for blockRow := 0 to c.v
      invariant forall r :: row0 <= r < row0 + blockRow ==> RowFilled(c, whole, r)
      invariant forall q :: 0 <= q < row0 && old(RowFilled(c, whole, q)) ==> RowFilled(c, whole, q)
    {
      RealRows(down, c, i, blockRow);
      if blockRow < blockRows {
        FillRealRow(c, whole, row0 + blockRow);
      } else {
        FillDummyRow(c, whole, row0 + blockRow);
      }
    }
  }

  // ----- what dummy blocks hold -----

  lemma {:induction false} RowsAt(c: Component, sh: McuShape, row: nat, col: nat, n: nat, y: nat, x: nat)
    requires CompOk(c) && y < n && x < sh.w
    ensures 0 <= y * sh.w + x < |McuRows(c, sh, row, col, n)| == n * sh.w
    ensures McuRows(c, sh, row, col, n)[y * sh.w + x] == Cell(c, row + y, col * sh.w + x)
  {
    hide Cell, CompOk;
    MulSucc(n - 1, sh.w);
    BlocksInRows(c, sh, row, col, n - 1);
    MulLe(0, y, sh.w);
    if y < n - 1 {
      RowsAt(c, sh, row, col, n - 1, y, x);
    }
  }

  lemma {:induction false} BlocksInRows(c: Component, sh: McuShape, row: nat, col: nat, n: nat)
    requires CompOk(c)
    ensures |McuRows(c, sh, row, col, n)| == n * sh.w
  {
    hide CompOk;
    if n > 0 {
      MulSucc(n - 1, sh.w);
      BlocksInRows(c, sh, row, col, n - 1);
    }
  }

  /** a has the DC value of b, and nothing else. */
  predicate RepeatsDc(a: Block, b: Block) {
    a[0] == b[0] && forall i :: 1 <= i < 64 ==> a[i] == 0
  }

  /** The block at row r and column x of an MCU that begins at row row and column col. */
  lemma CellRepeats(c: Component, w: nat, row: nat, col: nat, y: nat, x: nat)
    requires CompOk(c) && w == c.h && row < c.height && col * w < c.width && x < w
    ensures row + y < c.height && col * w + x < c.width ==> Cell(c, row + y, col * w + x) == c.img[row + y][col * w + x]
    ensures !(row + y < c.height && col * w + x < c.width) ==>
      y + x > 0 && RepeatsDc(Cell(c, row + y, col * w + x),
                             if x > 0 then Cell(c, row + y, col * w + x - 1) else Cell(c, row + y - 1, col * w + w - 1))
  {
    var sh := McuShape(w, 1, 1, 1);
    if row + y >= c.height {
      DummyRowIs(c, sh, row + y, col, x);
      if x > 0 { DummyRowIs(c, sh, row + y, col, x - 1); }
    }
  }

  /** Dummy blocks cost next to nothing: in an MCU, such a block has the DC value of the
      block of its component before it, and no other coefficients. The other blocks are
      those of the image. */
  lemma DummiesRepeat(c: Component, sh: McuShape, row: nat, col: nat, n: nat, y: nat, x: nat)
    requires CompOk(c) && sh.w == c.h && row < c.height && col * sh.w < c.width && y < n && x < sh.w
    ensures 0 <= y * sh.w + x < |McuRows(c, sh, row, col, n)|
    ensures var blocks, k := McuRows(c, sh, row, col, n), y * sh.w + x;
            if row + y < c.height && col * sh.w + x < c.width then blocks[k] == c.img[row + y][col * sh.w + x]
            else k > 0 && RepeatsDc(blocks[k], blocks[k - 1])
  {
    hide Cell, McuRows, RepeatsDc;
    CellRepeats(c, sh.w, row, col, y, x);
    RowsAt(c, sh, row, col, n, y, x);
    if x > 0 {
      RowsAt(c, sh, row, col, n, y, x - 1);
      MulLe(0, y, sh.w);
    } else if y > 0 {
      RowsAt(c, sh, row, col, n, y - 1, sh.w - 1);
      MulSucc(y - 1, sh.w);
      MulLe(0, y - 1, sh.w);
    }
  }
}
