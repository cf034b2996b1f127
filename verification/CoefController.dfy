/** The coefficient controller (jccoefct.c). It hands the MCUs of a scan to the entropy
    encoder, either straight from the DCT or from the full-image buffer, and can be
    interrupted after any MCU. */
module CoefController {
  import opened Bits
  import opened AcCoding
  import opened Rounding
  import opened McuAssembly

  const C_MAX_BLOCKS_IN_MCU: nat := 10

  // ----- the MCUs of a scan, in order -----

  /** MCU rows in iMCU row i (start_iMCU_row). */
  function McuRowsIn(s: ScanShape, i: nat): (n: nat)
    requires ShapeOk(s)
    ensures n > 0
  {
    if Interleaved(s) then 1
    else
      var c := s.comps[0];
      assert Fits(s, c);
      if i < s.down - 1 then c.v else LastPart(c.height, c.v)
  }

  function RowMcus(s: ScanShape, i: nat, y: nat, n: nat): (r: seq<seq<Block>>)
    requires ShapeOk(s)
    ensures |r| == n
  {
    seq<seq<Block>>(n, col requires 0 <= col < n => Mcu(s, i, y, col))
  }

  function ImcuRowMcus(s: ScanShape, i: nat, n: nat): seq<seq<Block>>
    requires ShapeOk(s)
  {
    if n == 0 then [] else ImcuRowMcus(s, i, n - 1) + RowMcus(s, i, n - 1, s.across)
  }

  /** The MCUs of the first n iMCU rows. */
  function ScanMcus(s: ScanShape, n: nat): seq<seq<Block>>
    requires ShapeOk(s)
  {
    if n == 0 then [] else ScanMcus(s, n - 1) + ImcuRowMcus(s, n - 1, McuRowsIn(s, n - 1))
  }

  /** The MCUs before the one at row y of iMCU row i and column col. */
  function McusBefore(s: ScanShape, i: nat, y: nat, col: nat): seq<seq<Block>>
    requires ShapeOk(s)
  {
    ScanMcus(s, i) + ImcuRowMcus(s, i, y) + RowMcus(s, i, y, col)
  }

  lemma NextMcu(s: ScanShape, i: nat, y: nat, col: nat)
    requires ShapeOk(s)
    ensures McusBefore(s, i, y, col + 1) == McusBefore(s, i, y, col) + [Mcu(s, i, y, col)]
  {
    hide Mcu, ShapeOk, ScanMcus, ImcuRowMcus;
    assert RowMcus(s, i, y, col + 1) == RowMcus(s, i, y, col) + [Mcu(s, i, y, col)];
  }

  lemma NextMcuRow(s: ScanShape, i: nat, y: nat)
    requires ShapeOk(s)
    ensures McusBefore(s, i, y + 1, 0) == McusBefore(s, i, y, s.across)
  {
    hide Mcu, ShapeOk, ScanMcus;
  }

  lemma NextImcuRow(s: ScanShape, i: nat)
    requires ShapeOk(s)
    ensures McusBefore(s, i + 1, 0, 0) == McusBefore(s, i, McuRowsIn(s, i), 0) == ScanMcus(s, i + 1)
  {
    hide Mcu, ShapeOk, McuRowsIn;
  }

  lemma {:induction false} RowsLength(s: ScanShape, i: nat, n: nat)
    requires ShapeOk(s)
    ensures |ImcuRowMcus(s, i, n)| == n * s.across
  {
    hide Mcu, ShapeOk, RowMcus;
    if n > 0 {
      RowsLength(s, i, n - 1);
      MulSucc(n - 1, s.across);
    }
  }

  /** Before the end of an iMCU row some of its MCUs are still missing. */
  lemma NotYetAll(s: ScanShape, i: nat, y: nat, col: nat)
    requires ShapeOk(s) && y < McuRowsIn(s, i) && col < s.across
    ensures |McusBefore(s, i, y, col)| < |ScanMcus(s, i + 1)|
  {
    hide Mcu, ShapeOk, ImcuRowMcus, RowMcus, McuRowsIn;
    RowsLength(s, i, y);
    RowsLength(s, i, McuRowsIn(s, i));
    MulLe(y + 1, McuRowsIn(s, i), s.across);
    MulSucc(y, s.across);
  }

  // ----- sizes -----

  /** blocks_in_MCU, for the first n components. */
  function BlocksInMcu(s: ScanShape, n: nat): nat
    requires n <= |s.comps| && forall ci :: 0 <= ci < |s.comps| ==> s.comps[ci].h > 0 && s.comps[ci].v > 0
  {
    if n == 0 then 0
    else
      var sh := Setup(s.comps[n - 1], Interleaved(s));
      BlocksInMcu(s, n - 1) + sh.h * sh.w
  }

  lemma {:induction false} McuRowsSize(c: Component, sh: McuShape, row: nat, col: nat, n: nat)
    requires CompOk(c)
    ensures |McuRows(c, sh, row, col, n)| == n * sh.w
  {
    hide CompOk, McuRow;
    if n > 0 {
      McuRowsSize(c, sh, row, col, n - 1);
      MulSucc(n - 1, sh.w);
    }
  }

  ghost predicate ScanOk(s: ScanShape) {
    ShapeOk(s) && (forall ci :: 0 <= ci < |s.comps| ==> s.comps[ci].h > 0 && s.comps[ci].v > 0) &&
    BlocksInMcu(s, |s.comps|) <= C_MAX_BLOCKS_IN_MCU
  }

  lemma {:induction false} McuSize(s: ScanShape, i: nat, y: nat, col: nat, n: nat)
    requires ScanOk(s) && n <= |s.comps|
    ensures |McuBlocks(s, i, y, col, n)| == BlocksInMcu(s, n)
  {
    hide McuRows, Setup, Cell;
    if n > 0 {
      assert Fits(s, s.comps[n - 1]);
      McuSize(s, i, y, col, n - 1);
      McuRowsSize(s.comps[n - 1], Setup(s.comps[n - 1], Interleaved(s)), BlockRow(s.comps[n - 1], i, y), col,
                  Setup(s.comps[n - 1], Interleaved(s)).h);
    }
  }

  lemma {:induction false} BlocksGrow(s: ScanShape, n: nat, m: nat)
    requires ScanOk(s) && n <= m <= |s.comps|
    ensures BlocksInMcu(s, n) <= BlocksInMcu(s, m)
    decreases m
  {
    hide Setup, ShapeOk;
    if n < m { BlocksGrow(s, n, m - 1); }
  }

  // ----- one MCU, straight from the DCT -----

  /** The MCU at row yoffset of iMCU row i and column col, as compress_data makes it. */
  method MakeMcu(s: ScanShape, mcuBuffer: array<Block>, i: nat, yoffset: nat, col: nat) returns (blkn: nat)
    requires ScanOk(s) && mcuBuffer.Length == C_MAX_BLOCKS_IN_MCU && i < s.down && col < s.across && yoffset < McuRowsIn(s, i)
    modifies mcuBuffer
    ensures blkn <= mcuBuffer.Length && mcuBuffer[..blkn] == Mcu(s, i, yoffset, col)
  {
    hide Setup, McuRows, McuRowsIn, BlocksInMcu;
    blkn := 0;
    assert McuBlocks(s, i, yoffset, col, 0) == [];
    assert mcuBuffer[..0] == [];
    for ci := 0 to |s.comps|
      invariant blkn <= mcuBuffer.Length && mcuBuffer[..blkn] == McuBlocks(s, i, yoffset, col, ci)
    {
      var c := s.comps[ci];
      assert Fits(s, c);
      RoomForComponent(s, i, yoffset, col, ci);
      OffsetOk(s, c, i, yoffset);
      blkn := PutComponent(s, c, Setup(c, Interleaved(s)), mcuBuffer, blkn, i, yoffset, col);
    }
  }

  lemma OffsetOk(s: ScanShape, c: Component, i: nat, yoffset: nat)
    requires ShapeOk(s) && c in s.comps && c.h > 0 && c.v > 0 && yoffset < McuRowsIn(s, i)
    ensures if Interleaved(s) then yoffset == 0
            else yoffset < if i < s.down - 1 then c.v else Setup(c, Interleaved(s)).lastRow
  {
  }

  lemma RoomForComponent(s: ScanShape, i: nat, yoffset: nat, col: nat, ci: nat)
    requires ScanOk(s) && ci < |s.comps| && CompOk(s.comps[ci])
    ensures var c := s.comps[ci]; var sh := Setup(c, Interleaved(s));
            var rows := McuRows(c, sh, BlockRow(c, i, yoffset), col, sh.h);
            McuBlocks(s, i, yoffset, col, ci + 1) == McuBlocks(s, i, yoffset, col, ci) + rows &&
            |McuBlocks(s, i, yoffset, col, ci)| + |rows| <= C_MAX_BLOCKS_IN_MCU
  {
    hide McuRows, Setup, Cell, BlocksInMcu;
    McuSize(s, i, yoffset, col, ci + 1);
    BlocksGrow(s, ci + 1, |s.comps|);
  }

  // ----- one MCU, from the full-image buffer -----

  /** The rows of iMCU row i are in the buffer. */
  ghost predicate ImcuRowFilled(c: Component, whole: array2<Block>, i: nat)
    reads whole
  {
    forall r :: i * c.v <= r < i * c.v + c.v ==> RowFilled(c, whole, r)
  }

  lemma InImcuRow(c: Component, i: nat, y: nat, n: nat)
    requires y + n <= c.v
    ensures i * c.v <= BlockRow(c, i, y) && BlockRow(c, i, y) + n <= i * c.v + c.v
  {
  }

  lemma FilledAt(c: Component, whole: array2<Block>, i: nat, r: nat)
    requires ImcuRowFilled(c, whole, i) && i * c.v <= r < i * c.v + c.v
    ensures RowFilled(c, whole, r)
  {
    hide RowFilled;
  }

  lemma InPadding(s: ScanShape, c: Component, col: nat)
    requires Fits(s, c) && col < s.across
    ensures var w := Setup(c, Interleaved(s)).w; col * w + w <= Padded(c)
  {
    PaddedIs(c);
    MulSucc(col, c.h);
    if Interleaved(s) {
      MulLe(col + 1, s.across, c.h);
      MulSucc(s.across - 1, c.h);
      TooFew(Padded(c) / c.h, s.across, c.h);
      MulLe(s.across, Padded(c) / c.h, c.h);
    }
  }

  lemma TooFew(n: nat, m: nat, h: nat)
    requires n * h > (m - 1) * h
    ensures n >= m
  {
    if n < m { MulLe(n, m - 1, h); }
  }

  method GatherRow(s: ScanShape, c: Component, sh: McuShape, whole: array2<Block>, mcuBuffer: array<Block>,
                   blkn0: nat, r: nat, col: nat) returns (blkn: nat)
    requires Fits(s, c) && sh == Setup(c, Interleaved(s)) && RowFilled(c, whole, r) && col < s.across
    requires blkn0 + sh.w <= mcuBuffer.Length
    modifies mcuBuffer
    ensures blkn == blkn0 + sh.w && mcuBuffer[..blkn] == old(mcuBuffer[..blkn0]) + McuRow(c, sh, r, col)
  {
    InPadding(s, c, col);
    RowCells(c, sh, whole, r, col);
    hide Cell, Setup, Padded, LastPart, McuRow, Fits, RowFilled;
    blkn := CopyRow(whole, r, col * sh.w, sh.w, mcuBuffer, blkn0, McuRow(c, sh, r, col));
  }

  lemma RowCells(c: Component, sh: McuShape, whole: array2<Block>, r: nat, col: nat)
    requires RowFilled(c, whole, r) && col * sh.w + sh.w <= Padded(c)
    ensures var row := McuRow(c, sh, r, col); forall x :: 0 <= x < sh.w ==> row[x] == whole[r, col * sh.w + x]
  {
    hide Cell, Padded, CompOk;
  }

  method CopyRow(whole: array2<Block>, r: nat, startCol: nat, n: nat, mcuBuffer: array<Block>, blkn0: nat, ghost row: seq<Block>)
      returns (blkn: nat)
    requires r < whole.Length0 && startCol + n <= whole.Length1 && blkn0 + n <= mcuBuffer.Length
    requires |row| == n && forall x :: 0 <= x < n ==> row[x] == whole[r, startCol + x]
    modifies mcuBuffer
    ensures blkn == blkn0 + n && mcuBuffer[..blkn] == old(mcuBuffer[..blkn0]) + row
  {
    blkn := blkn0;
    for xindex := 0 to n
      invariant blkn == blkn0 + xindex && mcuBuffer[..blkn] == old(mcuBuffer[..blkn0]) + row[..xindex]
    {
      ghost var before := mcuBuffer[..blkn];
      mcuBuffer[blkn] := whole[r, startCol + xindex];
      assert mcuBuffer[..blkn + 1] == before + [row[xindex]];
      blkn := blkn + 1;
    }
    assert row[..n] == row;
  }

  method GatherComponent(s: ScanShape, c: Component, sh: McuShape, whole: array2<Block>, mcuBuffer: array<Block>,
                         blkn0: nat, i: nat, yoffset: nat, col: nat) returns (blkn: nat)
    requires Fits(s, c) && sh == Setup(c, Interleaved(s)) && ImcuRowFilled(c, whole, i) && col < s.across
    requires yoffset + sh.h <= c.v
    requires blkn0 + |McuRows(c, sh, BlockRow(c, i, yoffset), col, sh.h)| <= mcuBuffer.Length
    modifies mcuBuffer
    ensures blkn == blkn0 + |McuRows(c, sh, BlockRow(c, i, yoffset), col, sh.h)|
    ensures mcuBuffer[..blkn] == old(mcuBuffer[..blkn0]) + McuRows(c, sh, BlockRow(c, i, yoffset), col, sh.h)
  {
    var row0: nat := BlockRow(c, i, yoffset);
    assert CompOk(c);
    InImcuRow(c, i, yoffset, sh.h);
    hide Cell, LastPart, McuRow, Fits, FitsDown, CompOk, Setup, RowFilled, ImcuRowFilled, BlockRow;
    ghost var before := mcuBuffer[..blkn0];
    blkn := blkn0;
    assert before + [] == before;
    for yindex := 0 to sh.h
      invariant blkn == blkn0 + |McuRows(c, sh, row0, col, yindex)|
      invariant blkn <= mcuBuffer.Length && mcuBuffer[..blkn] == before + McuRows(c, sh, row0, col, yindex)
      invariant ImcuRowFilled(c, whole, i)
    {
      McuRowsLength(c, sh, row0, col, yindex + 1, sh.h);
      McuRowsLength(c, sh, row0, col, yindex, sh.h);
      FilledAt(c, whole, i, row0 + yindex) by { InImcuRow(c, i, yoffset, yindex + 1); }
      blkn := GatherRow(s, c, sh, whole, mcuBuffer, blkn, row0 + yindex, col);
      assert McuRows(c, sh, row0, col, yindex + 1) == McuRows(c, sh, row0, col, yindex) + McuRow(c, sh, row0 + yindex, col);
    }
  }

  /** The same MCU, as compress_output finds it in the buffers of the scan's components. */
  method GatherMcu(s: ScanShape, wholes: seq<array2<Block>>, mcuBuffer: array<Block>, i: nat, yoffset: nat, col: nat)
      returns (blkn: nat)
    requires ScanOk(s) && mcuBuffer.Length == C_MAX_BLOCKS_IN_MCU && i < s.down && col < s.across && yoffset < McuRowsIn(s, i)
    requires |wholes| == |s.comps| && forall ci :: 0 <= ci < |wholes| ==> ImcuRowFilled(s.comps[ci], wholes[ci], i)
    modifies mcuBuffer
    ensures blkn <= mcuBuffer.Length && mcuBuffer[..blkn] == Mcu(s, i, yoffset, col)
  {
    hide Setup, McuRows, McuRowsIn, BlocksInMcu, ImcuRowFilled;
    blkn := 0;
    assert McuBlocks(s, i, yoffset, col, 0) == [];
    assert mcuBuffer[..0] == [];
    for ci := 0 to |s.comps|
      invariant blkn <= mcuBuffer.Length && mcuBuffer[..blkn] == McuBlocks(s, i, yoffset, col, ci)
      invariant forall k :: 0 <= k < |wholes| ==> ImcuRowFilled(s.comps[k], wholes[k], i)
    {
      var c := s.comps[ci];
      assert Fits(s, c);
      RoomForComponent(s, i, yoffset, col, ci);
      RowsInside(s, c, i, yoffset);
      blkn := GatherComponent(s, c, Setup(c, Interleaved(s)), wholes[ci], mcuBuffer, blkn, i, yoffset, col);
    }
  }

  lemma RowsInside(s: ScanShape, c: Component, i: nat, yoffset: nat)
    requires ShapeOk(s) && c in s.comps && c.h > 0 && c.v > 0 && yoffset < McuRowsIn(s, i)
    ensures yoffset + Setup(c, Interleaved(s)).h <= c.v
  {
  }

  // ----- emission, interruptible after any MCU -----

  /** One MCU row from column col0 on, until the encoder has taken room MCUs. */
  method EmitMcuRow(s: ScanShape, direct: bool, wholes: seq<array2<Block>>, mcuBuffer: array<Block>, i: nat, yoffset: nat,
                    col0: nat, sent0: seq<seq<Block>>, room: nat)
      returns (ok: bool, col: nat, sent: seq<seq<Block>>, left: nat)
    requires ScanOk(s) && mcuBuffer.Length == C_MAX_BLOCKS_IN_MCU && i < s.down && col0 <= s.across && yoffset < McuRowsIn(s, i)
    requires direct || ScanFilled(s, wholes, i)
    requires sent0 == McusBefore(s, i, yoffset, col0)
    modifies mcuBuffer
    ensures col <= s.across && sent == McusBefore(s, i, yoffset, col) && |sent| + left == |sent0| + room
    ensures if ok then col == s.across else col < s.across && left == 0
  {
    ScanOkIs(s);
    hide ScanOk, ShapeOk, Mcu, McuRowsIn, McusBefore, ScanFilled;
    col, sent, left := col0, sent0, room;
    while col < s.across
      modifies mcuBuffer
      invariant col <= s.across && sent == McusBefore(s, i, yoffset, col) && |sent| + left == |sent0| + room
      invariant direct || ScanFilled(s, wholes, i)
    {
      var blkn;
      if direct {
        blkn := MakeMcu(s, mcuBuffer, i, yoffset, col);
      } else {
        blkn := GatherFilled(s, wholes, mcuBuffer, i, yoffset, col);
      }
      if left == 0 {
        return false, col, sent, left;
      }
      NextMcu(s, i, yoffset, col);
      sent := sent + [mcuBuffer[..blkn]];
      left := left - 1;
      col := col + 1;
    }
    ok := true;
  }

  lemma ScanOkIs(s: ScanShape)
    requires ScanOk(s)
    ensures ShapeOk(s)
  {
  }

  ghost predicate ScanFilled(s: ScanShape, wholes: seq<array2<Block>>, i: nat)
    reads wholes
  {
    |wholes| == |s.comps| && forall ci :: 0 <= ci < |wholes| ==> ImcuRowFilled(s.comps[ci], wholes[ci], i)
  }

  method GatherFilled(s: ScanShape, wholes: seq<array2<Block>>, mcuBuffer: array<Block>, i: nat, yoffset: nat, col: nat)
      returns (blkn: nat)
    requires ScanOk(s) && mcuBuffer.Length == C_MAX_BLOCKS_IN_MCU && i < s.down && col < s.across && yoffset < McuRowsIn(s, i)
    requires ScanFilled(s, wholes, i)
    modifies mcuBuffer
    ensures blkn <= mcuBuffer.Length && mcuBuffer[..blkn] == Mcu(s, i, yoffset, col)
  {
    hide ScanOk, Mcu, McuRowsIn, ImcuRowFilled;
    blkn := GatherMcu(s, wholes, mcuBuffer, i, yoffset, col);
  }

  /** The rest of an iMCU row, from row y0 and column col0 on. If the encoder refuses
      an MCU, that is the one to start with the next time. */
  method EmitImcuRow(s: ScanShape, direct: bool, wholes: seq<array2<Block>>, mcuBuffer: array<Block>, i: nat, rowsPer: nat,
                     y0: nat, col0: nat, sent0: seq<seq<Block>>, room: nat)
      returns (ok: bool, y: nat, col: nat, sent: seq<seq<Block>>)
    requires ScanOk(s) && mcuBuffer.Length == C_MAX_BLOCKS_IN_MCU && i < s.down && col0 < s.across
    requires rowsPer == McuRowsIn(s, i) && y0 < rowsPer
    requires direct || ScanFilled(s, wholes, i)
    requires sent0 == McusBefore(s, i, y0, col0)
    modifies mcuBuffer
    ensures if ok then sent == ScanMcus(s, i + 1) && |sent| <= |sent0| + room
            else y < rowsPer && col < s.across && sent == McusBefore(s, i, y, col) && |sent| == |sent0| + room
  {
    ScanOkIs(s);
    hide ScanOk, ShapeOk, Mcu, McuRowsIn, McusBefore, ScanFilled, ScanMcus;
    y, col, sent := y0, col0, sent0;
    var left := room;
    while y < rowsPer
      modifies mcuBuffer
      invariant y <= rowsPer && col <= s.across && (y == rowsPer ==> col == 0)
      invariant sent == McusBefore(s, i, y, col) && |sent| + left == |sent0| + room
      invariant direct || ScanFilled(s, wholes, i)
    {
      ok, col, sent, left := EmitMcuRow(s, direct, wholes, mcuBuffer, i, y, col, sent, left);
      if !ok {
        return;
      }
      NextMcuRow(s, i, y);
      y, col := y + 1, 0;
    }
    NextImcuRow(s, i);
    ok := true;
  }

  // ----- the controller -----

  /** The full-image buffer is large enough and its parts are distinct. */
  ghost predicate BuffersFit(comps: seq<Component>, wholes: seq<array2<Block>>, down: nat) {
    |wholes| == |comps| &&
    (forall ci :: 0 <= ci < |comps| ==> FitsBuffer(comps[ci], wholes[ci], down)) &&
    forall ci, cj :: 0 <= ci < cj < |comps| ==> wholes[ci] != wholes[cj]
  }

  ghost predicate FitsBuffer(c: Component, whole: array2<Block>, down: nat) {
    FitsDown(c, down) && whole.Length1 == Padded(c) && whole.Length0 == down * c.v
  }

  /** The first n iMCU rows of c are in the buffer. */
  ghost predicate Stored(c: Component, whole: array2<Block>, n: nat)
    reads whole
  {
    forall i :: 0 <= i < n ==> ImcuRowFilled(c, whole, i)
  }

  ghost predicate AllStored(comps: seq<Component>, wholes: seq<array2<Block>>, n: nat)
    reads wholes
  {
    |wholes| == |comps| && forall ci :: 0 <= ci < |comps| ==> Stored(comps[ci], wholes[ci], n)
  }

  /** compress_first_pass for one component keeps what was stored before. */
  method StoreComponent(c: Component, whole: array2<Block>, down: nat, i: nat)
    requires FitsBuffer(c, whole, down) && i < down && Stored(c, whole, i)
    modifies whole
    ensures Stored(c, whole, i + 1)
  {
    MulSucc(i, c.v);
    MulLe(i + 1, down, c.v);
    FillImcuRow(down, c, whole, i);
    hide RowFilled, Padded, FitsDown;
    forall k | 0 <= k < i ensures ImcuRowFilled(c, whole, k) {
      MulLe(k + 1, i, c.v);
      MulSucc(k, c.v);
      assert old(ImcuRowFilled(c, whole, k));
    }
  }

  method StoreAll(comps: seq<Component>, wholes: seq<array2<Block>>, down: nat, i: nat)
    requires BuffersFit(comps, wholes, down) && i < down && AllStored(comps, wholes, i)
    modifies wholes
    ensures AllStored(comps, wholes, i + 1)
  {
    hide Stored, FitsBuffer;
    for ci := 0 to |comps|
      invariant forall k :: 0 <= k < ci ==> Stored(comps[k], wholes[k], i + 1)
      invariant forall k :: ci <= k < |comps| ==> Stored(comps[k], wholes[k], i)
    {
      StoreComponent(comps[ci], wholes[ci], down, i);
    }
  }

  /** The components of a scan. */
  ghost predicate ScanOf(s: ScanShape, comps: seq<Component>, cur: seq<nat>, down: nat) {
    s.down == down && |cur| == |s.comps| &&
    forall k :: 0 <= k < |cur| ==> cur[k] < |comps| && s.comps[k] == comps[cur[k]]
  }

  function CurrentBuffers(wholes: seq<array2<Block>>, cur: seq<nat>): (r: seq<array2<Block>>)
    requires forall k :: 0 <= k < |cur| ==> cur[k] < |wholes|
    ensures |r| == |cur| && forall k :: 0 <= k < |cur| ==> r[k] == wholes[cur[k]]
  {
    seq(|cur|, k requires 0 <= k < |cur| => wholes[cur[k]])
  }

  lemma StoredForScan(s: ScanShape, comps: seq<Component>, cur: seq<nat>, wholes: seq<array2<Block>>, down: nat, n: nat, i: nat)
    requires ScanOf(s, comps, cur, down) && AllStored(comps, wholes, n) && i < n
    ensures ScanFilled(s, CurrentBuffers(wholes, cur), i)
  {
    hide ImcuRowFilled;
    forall k | 0 <= k < |cur| ensures ImcuRowFilled(s.comps[k], wholes[cur[k]], i) {
      assert Stored(comps[cur[k]], wholes[cur[k]], n);
    }
  }

  lemma StoredLess(comps: seq<Component>, wholes: seq<array2<Block>>, n: nat, m: nat)
    requires AllStored(comps, wholes, n) && m <= n
    ensures AllStored(comps, wholes, m)
  {
    hide ImcuRowFilled;
    forall ci | 0 <= ci < |comps| ensures Stored(comps[ci], wholes[ci], m) {
      assert Stored(comps[ci], wholes[ci], n);
    }
  }

  lemma {:induction false} ScanGrows(s: ScanShape, n: nat, m: nat)
    requires ShapeOk(s) && n <= m
    ensures ScanMcus(s, n) <= ScanMcus(s, m)
    decreases m
  {
    hide ShapeOk, ImcuRowMcus, McuRowsIn;
    if n < m { ScanGrows(s, n, m - 1); }
  }

  lemma {:induction false} RowsGrow(s: ScanShape, i: nat, n: nat, m: nat)
    requires ShapeOk(s) && n <= m
    ensures ImcuRowMcus(s, i, n) <= ImcuRowMcus(s, i, m)
    decreases m
  {
    hide ShapeOk, RowMcus;
    if n < m { RowsGrow(s, i, n, m - 1); }
  }

  /** What has been sent so far is always the beginning of the scan. */
  lemma SentIs(s: ScanShape, i: nat, y: nat, col: nat)
    requires ShapeOk(s) && i <= s.down && y < McuRowsIn(s, i) && col < s.across && (i == s.down ==> y == 0 && col == 0)
    ensures McusBefore(s, i, y, col) <= ScanMcus(s, s.down)
  {
    var all := ScanMcus(s, s.down);
    hide ShapeOk, Mcu, McuRowsIn;
    if i == s.down {
      assert McusBefore(s, i, 0, 0) == all;
    } else {
      ScanGrows(s, i + 1, s.down);
      RowsGrow(s, i, y + 1, McuRowsIn(s, i));
      PrefixesAdd(ScanMcus(s, i), ImcuRowMcus(s, i, y), RowMcus(s, i, y, col), RowMcus(s, i, y, s.across),
                  ImcuRowMcus(s, i, McuRowsIn(s, i)), all);
    }
  }

  lemma PrefixesAdd<T>(a: seq<T>, b: seq<T>, c: seq<T>, row: seq<T>, rows: seq<T>, all: seq<T>)
    requires a + rows <= all && b + row <= rows && c <= row
    ensures a + b + c <= all
  {
    var n := |a + b + c|;
    assert all[..|a + rows|] == a + rows && rows[..|b + row|] == b + row;
    assert forall k :: 0 <= k < n ==> (a + b + c)[k] == (a + rows)[k];
  }

  /** What one call did: the encoder took all that was left of the iMCU row, or room
      MCUs, and has so far been given the beginning of the scan. */
  ghost predicate Advanced(s: ScanShape, i0: nat, sent0: nat, room: nat, ok: bool, i: nat, sent: seq<seq<Block>>)
    requires ShapeOk(s)
  {
    (ok <==> |ScanMcus(s, i0 + 1)| <= sent0 + room) && i == i0 + (if ok then 1 else 0) &&
    sent <= ScanMcus(s, s.down) && |sent| == if ok then |ScanMcus(s, i)| else sent0 + room
  }

  class Controller {
    const comps: seq<Component>             // comp_info
    const down: nat                         // total_iMCU_rows
    const wholeImage: seq<array2<Block>>    // empty: no full-image buffer
    const mcuBuffer: array<Block>
    var s: ScanShape                        // set up by per_scan_setup
    var cur: seq<nat>                       // cur_comp_info
    var iMcuRowNum: nat
    var mcuCtr: nat
    var mcuVertOffset: nat
    var mcuRowsPerImcuRow: nat
    var sent: seq<seq<Block>>               // what encode_mcu has accepted in this pass
    ghost var stored: nat                   // iMCU rows in the buffer

    ghost predicate Valid()
      reads this, wholeImage
      ensures Valid() ==> ShapeOk(s) && s.down == down
    {
      mcuBuffer.Length == C_MAX_BLOCKS_IN_MCU && ScanOk(s) && ScanOf(s, comps, cur, down) && iMcuRowNum <= down &&
      mcuRowsPerImcuRow == McuRowsIn(s, iMcuRowNum) && mcuVertOffset < mcuRowsPerImcuRow && mcuCtr < s.across &&
      (iMcuRowNum == down ==> mcuVertOffset == 0 && mcuCtr == 0) &&
      sent == McusBefore(s, iMcuRowNum, mcuVertOffset, mcuCtr) &&
      (wholeImage == [] || (BuffersFit(comps, wholeImage, down) && AllStored(comps, wholeImage, stored)))
    }

    /** Starts a pass over a scan. */
    method StartPass(scan: ScanShape, current: seq<nat>)
      requires Valid() && ScanOk(scan) && ScanOf(scan, comps, current, down)
      modifies this
      ensures Valid() && s == scan && iMcuRowNum == 0 && sent == [] && stored == old(stored)
    {
      hide ScanOk, ScanOf, ShapeOk, Mcu, BuffersFit, AllStored, McuRowsIn;
      s, cur, iMcuRowNum, sent := scan, current, 0, [];
      ScanOkIs(s);
      assert McusBefore(s, 0, 0, 0) == [];
      StartImcuRow();
    }

    /** Resets the counters for a new iMCU row. */
    method StartImcuRow()
      requires ScanOk(s)
      modifies `mcuRowsPerImcuRow, `mcuCtr, `mcuVertOffset
      ensures mcuRowsPerImcuRow == McuRowsIn(s, iMcuRowNum) && mcuCtr == 0 && mcuVertOffset == 0
    {
      if |s.comps| > 1 {
        mcuRowsPerImcuRow := 1;
      } else {
        assert Fits(s, s.comps[0]);
        if iMcuRowNum < s.down - 1 {
          mcuRowsPerImcuRow := s.comps[0].v;
        } else {
          mcuRowsPerImcuRow := LastPart(s.comps[0].height, s.comps[0].v);
        }
      }
      mcuCtr, mcuVertOffset := 0, 0;
    }

    /** The loop that compress_data and compress_output have in common. */
    method Emit(direct: bool, room: nat) returns (ok: bool)
      requires Valid() && iMcuRowNum < down && (direct || (wholeImage != [] && iMcuRowNum < stored))
      modifies this, mcuBuffer
      ensures Valid() && s == old(s) && cur == old(cur) && stored == old(stored)
      ensures ok <==> |ScanMcus(s, old(iMcuRowNum) + 1)| <= |old(sent)| + room
      ensures iMcuRowNum == old(iMcuRowNum) + (if ok then 1 else 0)
      ensures ok ==> sent == ScanMcus(s, iMcuRowNum)
      ensures !ok ==> |sent| == |old(sent)| + room
    {
      ghost var sent0 := sent;
      ScanOkIs(s);
      var wholes: seq<array2<Block>> := [];
      if !direct {
        wholes := CurrentBuffers(wholeImage, cur);
        StoredForScan(s, comps, cur, wholeImage, down, stored, iMcuRowNum);
      }
      hide ScanOk, ShapeOk, ScanOf, Mcu, McuRowsIn, McusBefore, ScanMcus, ScanFilled, BuffersFit, AllStored;
      var y, col;
      ok, y, col, sent := EmitImcuRow(s, direct, wholes, mcuBuffer, iMcuRowNum, mcuRowsPerImcuRow, mcuVertOffset, mcuCtr, sent, room);
      if ok {
        NextImcuRow(s, iMcuRowNum);
        iMcuRowNum := iMcuRowNum + 1;
        StartImcuRow();
      } else {
        NotYetAll(s, iMcuRowNum, y, col);
        mcuVertOffset, mcuCtr := y, col;
      }
    }

    /** Single pass: the DCT feeds the encoder, which takes up to room MCUs. */
    method CompressData(room: nat) returns (ok: bool)
      requires Valid() && iMcuRowNum < down && wholeImage == []
      modifies this, mcuBuffer
      ensures Valid() && s == old(s) && cur == old(cur)
      ensures Advanced(s, old(iMcuRowNum), |old(sent)|, room, ok, iMcuRowNum, sent)
    {
      hide ScanOk, ScanOf, ShapeOk;
      ok := Emit(true, room);
      SentIs(s, iMcuRowNum, mcuVertOffset, mcuCtr);
    }

    /** Later passes: the full-image buffer feeds the encoder. */
    method CompressOutput(room: nat) returns (ok: bool)
      requires Valid() && iMcuRowNum < down && wholeImage != [] && iMcuRowNum < stored
      modifies this, mcuBuffer
      ensures Valid() && s == old(s) && cur == old(cur) && stored == old(stored)
      ensures Advanced(s, old(iMcuRowNum), |old(sent)|, room, ok, iMcuRowNum, sent)
    {
      hide ScanOk, ScanOf, ShapeOk;
      ok := Emit(false, room);
      SentIs(s, iMcuRowNum, mcuVertOffset, mcuCtr);
    }

    /** First pass of several: the DCT fills the buffer, which feeds the encoder. After a
        suspension the iMCU row is filled in again. */
    method CompressFirstPass(room: nat) returns (ok: bool)
      requires Valid() && iMcuRowNum < down && wholeImage != [] && iMcuRowNum <= stored <= iMcuRowNum + 1
      modifies this, mcuBuffer, wholeImage
      ensures Valid() && s == old(s) && cur == old(cur) && stored == old(iMcuRowNum) + 1
      ensures Advanced(s, old(iMcuRowNum), |old(sent)|, room, ok, iMcuRowNum, sent)
    {
      hide ScanOk, ScanOf, ShapeOk, McusBefore, Mcu, BuffersFit;
      StoredLess(comps, wholeImage, stored, iMcuRowNum);
      hide AllStored;
      StoreAll(comps, wholeImage, down, iMcuRowNum);
      stored := iMcuRowNum + 1;
      ok := CompressOutput(room);
    }
  }
}
