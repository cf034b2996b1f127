/** The order in which a scan presents the blocks of its components. */
module McuOrder {
  import opened Bits
  import opened AcCoding
  import opened Rounding
  import opened McuAssembly
  import opened CoefController

  // ----- one component: its blocks in raster order, without dummies -----

  function Raster(c: Component, n: nat): (r: seq<seq<Block>>)
    requires CompOk(c) && n <= c.height
  {
    if n == 0 then [] else Raster(c, n - 1) + RasterRow(c, n - 1)
  }

  function RasterRow(c: Component, r: nat): (row: seq<seq<Block>>)
    requires CompOk(c) && r < c.height
    ensures |row| == c.width
  {
    seq<seq<Block>>(c.width, x requires 0 <= x < c.width => [c.img[r][x]])
  }

  lemma {:induction false} RasterAt(c: Component, n: nat, r: nat, x: nat)
    requires CompOk(c) && r < n <= c.height && x < c.width
    ensures |Raster(c, n)| == n * c.width && r * c.width + x < n * c.width
    ensures Raster(c, n)[r * c.width + x] == [c.img[r][x]]
  {
    hide CompOk;
    RasterSize(c, n - 1);
    MulSucc(n - 1, c.width);
    MulSucc(r, c.width);
    MulLe(r + 1, n, c.width);
    if r < n - 1 {
      RasterAt(c, n - 1, r, x);
    }
  }

  lemma {:induction false} RasterSize(c: Component, n: nat)
    requires CompOk(c) && n <= c.height
    ensures |Raster(c, n)| == n * c.width
  {
    hide CompOk;
    if n > 0 {
      RasterSize(c, n - 1);
      MulSucc(n - 1, c.width);
    }
  }

  lemma OneBlock(s: ScanShape, i: nat, y: nat, col: nat)
    requires ShapeOk(s) && !Interleaved(s) && col < s.across
    requires var c := s.comps[0]; i * c.v + y < c.height
    ensures Mcu(s, i, y, col) == [s.comps[0].img[i * s.comps[0].v + y][col]]
  {
    var c := s.comps[0];
    assert Fits(s, c);
    var row: nat := i * c.v + y;
    var sh := Setup(c, false);
    assert s.across == c.width && sh.w == 1;
    hide Fits;
    assert McuBlocks(s, i, y, col, 0) == [];
    assert McuRows(c, sh, row, col, 0) == [];
    assert col * sh.w + 0 == col;
    assert Cell(c, row, col) == c.img[row][col];
    assert McuRow(c, sh, row, col)[0] == Cell(c, row, col * sh.w + 0);
    assert McuRow(c, sh, row, col) == [c.img[row][col]];
  }

  lemma OneRow(s: ScanShape, i: nat, y: nat)
    requires ShapeOk(s) && !Interleaved(s) && CompOk(s.comps[0]) && i * s.comps[0].v + y < s.comps[0].height
    ensures RowMcus(s, i, y, s.across) == RasterRow(s.comps[0], i * s.comps[0].v + y)
  {
    assert Fits(s, s.comps[0]);
    hide ShapeOk, Mcu, Fits;
    forall col | 0 <= col < s.across ensures Mcu(s, i, y, col) == [s.comps[0].img[i * s.comps[0].v + y][col]] {
      OneBlock(s, i, y, col);
    }
  }

  lemma {:induction false} ImcuRaster(s: ScanShape, i: nat, n: nat)
    requires ShapeOk(s) && !Interleaved(s) && CompOk(s.comps[0])
    requires var c := s.comps[0]; i * c.v + n <= c.height
    ensures var c := s.comps[0]; Raster(c, i * c.v) + ImcuRowMcus(s, i, n) == Raster(c, i * c.v + n)
  {
    var c := s.comps[0];
    hide ShapeOk, RasterRow, RowMcus, CompOk;
    var row0: nat := i * c.v;
    if n == 0 {
      assert Raster(c, row0) + [] == Raster(c, row0);
    } else {
      ImcuRaster(s, i, n - 1);
      OneRow(s, i, n - 1);
      assert Raster(c, row0) + (ImcuRowMcus(s, i, n - 1) + RowMcus(s, i, n - 1, s.across))
             == Raster(c, row0 + n - 1) + RasterRow(c, row0 + n - 1);
    }
  }

  lemma {:induction false} ScanRaster(s: ScanShape, n: nat)
    requires ShapeOk(s) && !Interleaved(s) && CompOk(s.comps[0]) && n <= s.down
    ensures var c := s.comps[0]; var m: nat := if n < s.down then n * c.v else c.height;
            m <= c.height && ScanMcus(s, n) == Raster(c, m)
    decreases n
  {
    assert s.down > 0;
    if n > 0 {
      hide ShapeOk, Raster, ImcuRowMcus, CompOk, McuRowsIn;
      ScanRaster(s, n - 1);
      RowsSoFar(s, n - 1);
      ImcuRaster(s, n - 1, McuRowsIn(s, n - 1));
    }
  }

  /** Where iMCU row i ends. */
  lemma RowsSoFar(s: ScanShape, i: nat)
    requires ShapeOk(s) && !Interleaved(s) && i < s.down
    ensures var c := s.comps[0];
            i * c.v + McuRowsIn(s, i) == (if i + 1 < s.down then (i + 1) * c.v else c.height) <= c.height
  {
    var c := s.comps[0];
    assert Fits(s, c);
    MulSucc(i, c.v);
    if i < s.down - 1 {
      MulLe(i + 1, s.down - 1, c.v);
    }
  }

  /** A scan of one component sends each of its blocks once, row by row, and nothing else. */
  lemma NoninterleavedScan(s: ScanShape, r: nat, x: nat)
    requires ShapeOk(s) && |s.comps| == 1 && r < s.comps[0].height && x < s.comps[0].width
    ensures var c := s.comps[0]; var mcus := ScanMcus(s, s.down);
            |mcus| == c.height * c.width && r * c.width + x < |mcus| &&
            r < |c.img| && x < |c.img[r]| && mcus[r * c.width + x] == [c.img[r][x]]
  {
    assert Fits(s, s.comps[0]);
    ScanRaster(s, s.down);
    RasterAt(s.comps[0], s.comps[0].height, r, x);
  }

  // ----- several components -----

  lemma OneMcuRow(s: ScanShape, i: nat)
    requires ShapeOk(s) && Interleaved(s)
    ensures McuRowsIn(s, i) == 1 && ImcuRowMcus(s, i, 1) == RowMcus(s, i, 0, s.across)
  {
    hide ShapeOk, Mcu, RowMcus;
    assert ImcuRowMcus(s, i, 0) == [];
  }

  lemma {:induction false} InterleavedAt(s: ScanShape, n: nat, i: nat, col: nat)
    requires ShapeOk(s) && Interleaved(s) && i < n && col < s.across
    ensures |ScanMcus(s, n)| == n * s.across && i * s.across + col < n * s.across
    ensures ScanMcus(s, n)[i * s.across + col] == Mcu(s, i, 0, col)
    decreases n
  {
    OneMcuRow(s, n - 1);
    assert ScanMcus(s, n) == ScanMcus(s, n - 1) + RowMcus(s, n - 1, 0, s.across);
    hide ShapeOk, ImcuRowMcus, McuRowsIn, ScanMcus;
    InterleavedSize(s, n - 1);
    RowAt(s, n - 1, col);
    hide Mcu, RowMcus;
    MulSucc(n - 1, s.across);
    MulSucc(i, s.across);
    MulLe(i + 1, n, s.across);
    if i < n - 1 {
      InterleavedAt(s, n - 1, i, col);
    } else {
      InSecond(ScanMcus(s, n - 1), RowMcus(s, n - 1, 0, s.across), col);
    }
  }

  lemma RowAt(s: ScanShape, i: nat, col: nat)
    requires ShapeOk(s) && col < s.across
    ensures RowMcus(s, i, 0, s.across)[col] == Mcu(s, i, 0, col)
  {
    hide ShapeOk, Mcu;
  }

  lemma InSecond<X>(a: seq<X>, b: seq<X>, k: nat)
    requires k < |b|
    ensures (a + b)[|a| + k] == b[k]
  {
  }

  lemma {:induction false} InterleavedSize(s: ScanShape, n: nat)
    requires ShapeOk(s) && Interleaved(s)
    ensures |ScanMcus(s, n)| == n * s.across
  {
    hide ShapeOk, Mcu, ImcuRowMcus, RowMcus;
    if n > 0 {
      InterleavedSize(s, n - 1);
      RowsLength(s, n - 1, 1);
      MulSucc(n - 1, s.across);
    }
  }

  lemma {:induction false} RowsAt(c: Component, sh: McuShape, row: nat, col: nat, n: nat, y: nat, x: nat)
    requires CompOk(c) && y < n && x < sh.w
    ensures |McuRows(c, sh, row, col, n)| == n * sh.w && y * sh.w + x < n * sh.w
    ensures McuRows(c, sh, row, col, n)[y * sh.w + x] == Cell(c, row + y, col * sh.w + x)
    decreases n
  {
    McuRowsSize(c, sh, row, col, n - 1);
    hide CompOk, Cell;
    MulSucc(n - 1, sh.w);
    MulSucc(y, sh.w);
    MulLe(y + 1, n, sh.w);
    if y < n - 1 {
      RowsAt(c, sh, row, col, n - 1, y, x);
    }
  }

  lemma {:induction false} BlocksAt(s: ScanShape, i: nat, yoffset: nat, col: nat, n: nat, ci: nat, k: nat)
    requires ScanOk(s) && ci < n <= |s.comps| && CompOk(s.comps[ci])
    requires var c := s.comps[ci]; var sh := Setup(c, Interleaved(s)); k < |McuRows(c, sh, BlockRow(c, i, yoffset), col, sh.h)|
    ensures var c := s.comps[ci]; var sh := Setup(c, Interleaved(s));
            var b := McuBlocks(s, i, yoffset, col, n);
            BlocksInMcu(s, ci) + k < |b| && b[BlocksInMcu(s, ci) + k] == McuRows(c, sh, BlockRow(c, i, yoffset), col, sh.h)[k]
    decreases n
  {
    hide McuRows, Setup, Cell, BlocksInMcu;
    McuSize(s, i, yoffset, col, ci);
    if ci < n - 1 {
      BlocksAt(s, i, yoffset, col, n - 1, ci, k);
    }
  }

  /** In an interleaved scan, the block at row y and column x of component ci in the MCU
      at row i and column col comes after those of the components before it. */
  lemma InterleavedScan(s: ScanShape, i: nat, col: nat, ci: nat, y: nat, x: nat)
    requires ScanOk(s) && |s.comps| > 1 && i < s.down && col < s.across && ci < |s.comps|
    requires y < s.comps[ci].v && x < s.comps[ci].h
    ensures var c := s.comps[ci]; var mcus := ScanMcus(s, s.down);
            |mcus| == s.down * s.across && i * s.across + col < |mcus| && CompOk(c) &&
            var mcu := mcus[i * s.across + col];
            |mcu| == BlocksInMcu(s, |s.comps|) && BlocksInMcu(s, ci) + (y * c.h + x) < |mcu| &&
            mcu[BlocksInMcu(s, ci) + (y * c.h + x)] == Cell(c, i * c.v + y, col * c.h + x)
  {
    var c := s.comps[ci];
    assert Fits(s, c);
    hide Cell, LastPart;
    InterleavedAt(s, s.down, i, col);
    RowsAt(c, Setup(c, true), i * c.v, col, c.v, y, x);
    BlocksAt(s, i, 0, col, |s.comps|, ci, y * c.h + x);
    McuSize(s, i, 0, col, |s.comps|);
  }
}
