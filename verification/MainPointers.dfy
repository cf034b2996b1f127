/** The row pointers of the main buffer controller (jdmainct.c): two lists over one
    small workspace that make the rows above and below each row group look contiguous.
    Sample rows are represented by their row numbers. */
module MainPointers {
  import opened Bits
  import opened RowGroups

  /** Sizes in sample rows: a row group has R rows; A, B and C are M - 2, M and M + 2
      row groups, where an iMCU row has M. */
  datatype Sizes = Sizes(R: nat, A: nat, B: nat, C: nat)

  predicate SizesOk(z: Sizes) {
    z.R > 0 && z.B == z.A + 2 * z.R && z.C == z.B + 2 * z.R
  }

  /** The workspace row at index k of pointer list which, in the normal state. Index R
      is what the source calls row 0. */
  function Ptr(z: Sizes, which: nat, k: int): int {
    var p := k - z.R;
    if which == 0 then
      if p < 0 then p + z.C else if p < z.C then p else p - z.C
    else
      if p < 0 then p + z.C - 2 * z.R
      else if p < z.A then p
      else if p < z.B then p + 2 * z.R
      else if p < z.C then p - 2 * z.R
      else if p - z.C < z.A then p - z.C
      else p - z.C + 2 * z.R
  }

  /** The list is normal at indexes lo..hi. */
  ghost predicate Normal(z: Sizes, which: nat, x: seq<int>, lo: int, hi: int) {
    |x| == z.C + 2 * z.R && 0 <= lo && hi <= |x| && forall k :: lo <= k < hi ==> x[k] == Ptr(z, which, k)
  }

  /** At the top of the image the first list repeats the first row above itself. */
  ghost predicate Top(z: Sizes, x: seq<int>) {
    Normal(z, 0, x, z.R, z.C + z.R) && forall k :: 0 <= k < z.R ==> x[k] == 0
  }

  /** Through the list, indexes lo..hi show the rows off + lo .. off + hi. */
  ghost predicate Shows(z: Sizes, x: seq<int>, ws: seq<int>, lo: int, hi: int, off: int) {
    |ws| == z.C && 0 <= lo && hi <= |x| && forall k :: lo <= k < hi ==> 0 <= x[k] < |ws| && ws[x[k]] == off + k
  }

  /** The same, with the last row of the image repeated below it. */
  ghost predicate ShowsEdged(g: Image, x: seq<int>, ws: seq<int>, lo: int, hi: int, off: int) {
    g.height > 0 && 0 <= lo && hi <= |x| && forall k :: lo <= k < hi ==> 0 <= x[k] < |ws| && ws[x[k]] == Clamp(g, off + k)
  }

  lemma PtrRange(z: Sizes, which: nat, k: int)
    requires SizesOk(z) && which <= 1 && 0 <= k < z.C + 2 * z.R
    ensures 0 <= Ptr(z, which, k) < z.C
  {
  }

  /** Indexes R..C + R are different rows of the workspace. */
  lemma PtrInjective(z: Sizes, which: nat, j: int, k: int)
    requires SizesOk(z) && which <= 1 && z.R <= j < z.C + z.R && z.R <= k < z.C + z.R && j != k
    ensures Ptr(z, which, j) != Ptr(z, which, k)
  {
  }

  /** The rows that the lists share: the last two row groups of an iMCU row in one list
      are found after the iMCU row in the other. */
  lemma PtrShared(z: Sizes, which: nat, k: int)
    requires SizesOk(z) && which <= 1 && z.B + z.R <= k < z.C + z.R
    ensures Ptr(z, which, k) == Ptr(z, 1 - which, k - 2 * z.R)
  {
  }

  /** The wraparound indexes. */
  lemma PtrWraps(z: Sizes, which: nat, k: int)
    requires SizesOk(z) && which <= 1
    ensures 0 <= k < z.R ==> Ptr(z, which, k) == Ptr(z, which, k + z.C)
    ensures z.C + z.R <= k < z.C + 2 * z.R ==> Ptr(z, which, k) == Ptr(z, which, k - z.C)
  {
  }

  // ----- setting up the lists -----

  /** The sizes for row groups of rgroup rows, M to an iMCU row. */
  function MakeSizes(rgroup: nat, M: nat): Sizes
    requires M >= 2
  {
    Sizes(rgroup, rgroup * (M - 2), rgroup * M, rgroup * (M + 2))
  }

  lemma MakeSizesOk(rgroup: nat, M: nat)
    requires M >= 2 && rgroup > 0
    ensures SizesOk(MakeSizes(rgroup, M))
    ensures rgroup * (M + 1) == MakeSizes(rgroup, M).C - rgroup
  {
  }

  /** make_funny_pointers. The lists hold row numbers of the workspace. */
  method MakeFunnyPointers(rgroup: nat, M: nat, ghost z: Sizes, x0: array<int>, x1: array<int>)
    requires M >= 2 && rgroup > 0 && x0 != x1 && z == MakeSizes(rgroup, M)
    requires x0.Length == x1.Length == z.C + 2 * rgroup
    modifies x0, x1
    ensures Top(z, x0[..]) && Normal(z, 1, x1[..], z.R, z.C + z.R)
  {
    MakeSizesOk(rgroup, M);
    var low, mid, end := rgroup * (M - 2), rgroup * M, rgroup * (M + 2);
    hide MakeSizes;
    FillInOrder(rgroup, end, x0, x1);
    Interchange(rgroup, low, mid, end, x1);
    DuplicateTop(rgroup, end, x0);
  }

  /** First the workspace rows in order. */
  method FillInOrder(rgroup: nat, end: nat, x0: array<int>, x1: array<int>)
    requires x0 != x1 && x0.Length == x1.Length == end + 2 * rgroup
    modifies x0, x1
    ensures forall k :: rgroup <= k < end + rgroup ==> x0[k] == k - rgroup && x1[k] == k - rgroup
  {
    for i := 0 to end
      invariant forall k :: rgroup <= k < i + rgroup ==> x0[k] == k - rgroup && x1[k] == k - rgroup
    {
      x0[rgroup + i], x1[rgroup + i] := i, i;
    }
  }

  /** In the second list the last four row groups are rearranged. */
  method Interchange(rgroup: nat, low: nat, mid: nat, end: nat, x1: array<int>)
    requires mid == low + 2 * rgroup && end == low + 4 * rgroup && x1.Length == end + 2 * rgroup
    requires forall k :: rgroup <= k < end + rgroup ==> x1[k] == k - rgroup
    modifies x1
    ensures forall k :: rgroup <= k < end + rgroup ==>
      x1[k] == if low + rgroup <= k < low + 3 * rgroup then k + rgroup
               else if mid + rgroup <= k < mid + 3 * rgroup then k - 3 * rgroup
               else k - rgroup
  {
    for i := 0 to rgroup * 2
      invariant forall k :: rgroup <= k < end + rgroup ==>
        x1[k] == if low + rgroup <= k < low + rgroup + i then k + rgroup
                 else if mid + rgroup <= k < mid + rgroup + i then k - 3 * rgroup
                 else k - rgroup
    {
      x1[rgroup + low + i] := mid + i;
      x1[rgroup + mid + i] := low + i;
    }
  }

  /** The rows above the image repeat its first row. */
  method DuplicateTop(rgroup: nat, end: nat, x0: array<int>)
    requires rgroup > 0 && end > 0 && x0.Length == end + 2 * rgroup
    requires forall k :: rgroup <= k < end + rgroup ==> x0[k] == k - rgroup
    modifies x0
    ensures forall k :: rgroup <= k < end + rgroup ==> x0[k] == k - rgroup
    ensures forall k :: 0 <= k < rgroup ==> x0[k] == 0
  {
    for i := 0 to rgroup
      invariant forall k :: rgroup <= k < end + rgroup ==> x0[k] == k - rgroup
      invariant forall k :: 0 <= k < i ==> x0[k] == 0
    {
      x0[i] := x0[rgroup];
    }
  }

  /** set_wraparound_pointers, for one list. */
  method SetWraparound(rgroup: nat, M: nat, ghost z: Sizes, ghost which: nat, x: array<int>)
    requires M >= 2 && rgroup > 0 && which <= 1 && z == MakeSizes(rgroup, M) && x.Length == z.C + 2 * rgroup
    modifies x
    ensures old(Normal(z, which, x[..], z.R, z.C + z.R)) ==> Normal(z, which, x[..], 0, z.C + 2 * z.R)
  {
    MakeSizesOk(rgroup, M);
    CopyWraparound(rgroup, rgroup * (M + 1), rgroup * (M + 2), z, which, x);
  }

  method CopyWraparound(rgroup: nat, last: nat, end: nat, ghost z: Sizes, ghost which: nat, x: array<int>)
    requires SizesOk(z) && rgroup == z.R && end == z.C && last == z.C - z.R && which <= 1 && x.Length == z.C + 2 * rgroup
    modifies x
    ensures old(Normal(z, which, x[..], z.R, z.C + z.R)) ==> Normal(z, which, x[..], 0, z.C + 2 * z.R)
  {
    hide Ptr;
    ghost var normal := Normal(z, which, x[..], z.R, z.C + z.R);
    for i := 0 to rgroup
      invariant normal ==> forall k :: rgroup <= k < end + rgroup ==> x[k] == Ptr(z, which, k)
      invariant normal ==> forall k :: 0 <= k < i ==> x[k] == Ptr(z, which, k)
      invariant normal ==> forall k :: end + rgroup <= k < end + rgroup + i ==> x[k] == Ptr(z, which, k)
    {
      PtrWraps(z, which, i);
      PtrWraps(z, which, end + rgroup + i);
      x[i] := x[rgroup + last + i];
      x[rgroup + end + i] := x[rgroup + i];
    }
  }

  // ----- what the postprocessor should see -----

  /** The image: height real rows; last is the first row of the last iMCU row. */
  datatype Image = Image(z: Sizes, height: nat, last: nat)

  predicate ImageOk(g: Image) {
    SizesOk(g.z) && g.last < g.height <= g.last + g.z.B
  }

  /** Row r as seen from the row group that starts at row q. Rows beyond the image
      repeat its edge, but for one case: when the row group just before the last iMCU
      row is shown, the bottom edge has not been set up yet, and rows below the image
      are the padding rows of the last iMCU row. */
  function Seen(g: Image, q: int, r: int): int {
    if r < 0 then 0
    else if r < g.height || q + g.z.R == g.last then r
    else g.height - 1
  }

  /** A row group with the row groups above and below it. */
  function Window(g: Image, q: int): seq<int> {
    seq(3 * g.z.R, i requires 0 <= i < 3 * g.z.R => Seen(g, q, q - g.z.R + i))
  }

  /** Each row group was shown in its place. */
  ghost predicate InOrder(g: Image, shown: seq<seq<int>>) {
    forall j :: 0 <= j < |shown| ==> ShownAt(g, shown[j], j)
  }

  ghost predicate ShownAt(g: Image, window: seq<int>, j: nat) {
    Rows(j, g.z.R) < g.height && window == Window(g, Rows(j, g.z.R))
  }

  /** The nearest row of the image. */
  function Clamp(g: Image, r: int): int
    requires g.height > 0
  {
    Nearest(g.height, r)
  }

  /** All rows around the row group at q are the nearest real rows. */
  predicate Faithful(g: Image, q: int)
    requires g.height > 0
  {
    forall r :: q - g.z.R <= r < q + 2 * g.z.R ==> Seen(g, q, r) == Clamp(g, r)
  }

  /** Where that fails, and where not: full row groups of context are right except
      just before a last iMCU row with less than a row group of real rows. The nearest
      row below is right in any case. */
  lemma ContextRows(g: Image, q: nat)
    requires ImageOk(g)
    ensures Faithful(g, q) <==> !(q + g.z.R == g.last && g.height - g.last < g.z.R)
    ensures q + g.z.R <= g.last ==> Seen(g, q, q + g.z.R) == Clamp(g, q + g.z.R)
  {
    if q + g.z.R == g.last && g.height - g.last < g.z.R {
      assert Seen(g, q, g.height) != Clamp(g, g.height);
    }
  }

  /** All row groups of an image see the right rows around them unless the last of
      several iMCU rows has less than a row group of real rows. */
  predicate ContextOk(g: Image) {
    g.last == 0 || g.height - g.last >= g.z.R
  }

  /** The same for a whole image, whose last iMCU row is number n and has M row groups:
      the condition depends on its height alone. */
  lemma ContextOfImage(g: Image, n: nat, M: nat)
    requires ImageOk(g) && g.z.B == Rows(M, g.z.R) && g.last == Rows(n, g.z.B)
    ensures (forall j: nat :: Rows(j, g.z.R) < g.height ==> Faithful(g, Rows(j, g.z.R))) <==> ContextOk(g)
    ensures ContextOk(g) <==> g.height <= g.z.B || g.height % g.z.B == 0 || g.height % g.z.B >= g.z.R
  {
    hide Faithful;
    RowsLeft(g.height, g.last, n, g.z.B);
    OneImcuRow(g, n);
    forall j: nat | Rows(j, g.z.R) < g.height && ContextOk(g) ensures Faithful(g, Rows(j, g.z.R)) {
      ContextRows(g, Rows(j, g.z.R));
    }
    if !ContextOk(g) {
      var j: nat := RowGroupAbove(g, n, M);
      ContextRows(g, Rows(j, g.z.R));
    }
  }

  lemma OneImcuRow(g: Image, n: nat)
    requires ImageOk(g) && g.last == Rows(n, g.z.B)
    ensures g.last == 0 <==> g.height <= g.z.B
  {
    if n > 0 { MulLe(1, n, g.z.B); }
  }

  /** The last row group of the last but one iMCU row. */
  lemma RowGroupAbove(g: Image, n: nat, M: nat) returns (j: nat)
    requires ImageOk(g) && g.z.B == Rows(M, g.z.R) && g.last == Rows(n, g.z.B) && g.last > 0
    ensures Rows(j, g.z.R) + g.z.R == g.last
  {
    MulLe(1, n * M, g.z.R);
    assert n * (M * g.z.R) == n * M * g.z.R;
    if n * M == 0 { assert false; }
    j := n * M - 1;
    MulSucc(j, g.z.R);
  }

  /** An image of five rows in iMCU rows of two row groups of two rows: just before the
      last row, a padding row is seen instead of the image's last row. */
  lemma ContextFails()
    ensures var g := Image(Sizes(2, 0, 4, 8), 5, 4);
            ImageOk(g) && Rows(1, 2) == 2 && !Faithful(g, 2) && Seen(g, 2, 5) == 5 != Clamp(g, 5) && !ContextOk(g)
  {
    var g := Image(Sizes(2, 0, 4, 8), 5, 4);
    assert Seen(g, 2, 5) == 5;
  }

  lemma ListLength(rgroup: nat, M: nat)
    requires M >= 2 && rgroup > 0
    ensures rgroup * (M + 4) == MakeSizes(rgroup, M).C + 2 * rgroup
  {
  }

  /** As long as rows are wanted, there are iMCU rows to read. */
  lemma MoreRows(n: nat, total: nat, b: nat, next: nat, height: nat)
    requires n <= total && total > 0 && height <= Rows(total - 1, b) + b && next < height
    ensures n == total ==> Rows(n, b) >= height
    ensures n < total ==> Rows(n, b) <= Rows(total - 1, b)
    ensures Rows(n + 1, b) == Rows(n, b) + b
  {
    hide Rows;
    RowsNext(total - 1, b);
    RowsNext(n, b);
    if n < total { RowsMono(n, total - 1, b); }
  }

  /** Storing a row at list index k does not touch rows seen at other indexes. */
  lemma StoreRow(z: Sizes, which: nat, x: seq<int>, ws: seq<int>, k: nat, row: int, more: bool, off: int, base: int)
    requires SizesOk(z) && which <= 1 && z.R <= k < z.R + z.B && Normal(z, which, x, z.R, z.C + z.R)
    requires Shows(z, x, ws, z.R, k, base) && row == base + k
    requires more ==> Shows(z, x, ws, z.B + z.R, z.C + z.R, off)
    ensures 0 <= x[k] < |ws| && Shows(z, x, ws[x[k] := row], z.R, k + 1, base)
    ensures more ==> Shows(z, x, ws[x[k] := row], z.B + z.R, z.C + z.R, off)
  {
    hide Ptr;
    PtrRange(z, which, k);
    forall j | z.R <= j < z.C + z.R && j != k ensures x[j] != x[k] {
      PtrInjective(z, which, j, k);
    }
  }

  /** With the row in place, the rows around it are, too. */
  lemma RowLoaded(z: Sizes, which: nat, x: seq<int>, ws: seq<int>, fed: int, more: bool)
    requires SizesOk(z) && which <= 1 && Shows(z, x, ws, z.R, z.R + z.B, fed - z.R)
    requires more ==> Normal(z, which, x, 0, z.C + 2 * z.R) && Shows(z, x, ws, z.B + z.R, z.C + z.R, fed - z.B - 3 * z.R)
    ensures more ==> Shows(z, x, ws, 0, z.R + z.B, fed - z.R)
    ensures more ==> Shows(z, x, ws, z.C - z.R, z.C + 2 * z.R, fed - z.R - z.C)
  {
    hide Ptr;
    if more {
      forall k | 0 <= k < z.R + z.B ensures 0 <= x[k] < |ws| && ws[x[k]] == fed - z.R + k {
        if k < z.R {
          PtrWraps(z, which, k);
          assert x[k] == x[k + z.C];
        }
      }
      forall k | z.C - z.R <= k < z.C + 2 * z.R ensures 0 <= x[k] < |ws| && ws[x[k]] == fed - z.R - z.C + k {
        if k >= z.C + z.R {
          PtrWraps(z, which, k);
          assert x[k] == x[k - z.C];
        }
      }
    }
  }

  lemma BottomEdged(g: Image, before: seq<int>, x: seq<int>, ws: seq<int>, left: nat, hi: nat, top: bool, off: int)
    requires ImageOk(g) && left == g.height - g.last && off == g.last - g.z.R && |before| == |x| == g.z.C + 2 * g.z.R
    requires hi <= g.z.R + left + 2 * g.z.R && hi <= |x|
    requires Shows(g.z, before, ws, if top then g.z.R else 0, g.z.R + g.z.B, off)
    requires if top then g.last == 0 && Top(g.z, before) else g.last >= g.z.R
    requires x[..g.z.R + left] == before[..g.z.R + left]
    requires forall k :: g.z.R + left <= k < g.z.R + left + 2 * g.z.R ==> x[k] == before[g.z.R + left - 1]
    ensures ShowsEdged(g, x, ws, 0, hi, off)
  {
    hide Ptr;
    forall k | 0 <= k < hi ensures 0 <= x[k] < |ws| && ws[x[k]] == Clamp(g, off + k) {
      if k < g.z.R + left {
        assert x[k] == x[..g.z.R + left][k] == before[k];
        if top && k < g.z.R {
          assert before[k] == 0 && before[g.z.R] == Ptr(g.z, 0, g.z.R);
          FirstPtr(g.z);
        }
      }
    }
  }

  lemma FirstPtr(z: Sizes)
    requires SizesOk(z)
    ensures Ptr(z, 0, z.R) == 0
  {
  }

  lemma RowsLeft(height: nat, last: nat, n: nat, b: nat)
    requires b > 0 && last == Rows(n, b) && last < height <= last + b
    ensures height % b == if height == last + b then 0 else height - last
  {
    RowsNext(n, b);
    if height == last + b {
      DivBounds(height, b, n + 1);
      RowsNext(n + 1, b);
    } else {
      RowsNext(n, b);
      DivBounds(height, b, n);
    }
  }

  /** Row groups that hold the given number of rows. */
  lemma RoundUp(rows: nat, rgroup: nat)
    requires rows > 0 && rgroup > 0
    ensures rows <= Rows((rows - 1) / rgroup + 1, rgroup) < rows + rgroup
  {
    var q := (rows - 1) / rgroup;
    assert rows - 1 == rgroup * q + (rows - 1) % rgroup;
    MulSucc(q, rgroup);
  }

  /** Real sample rows, and row groups with real rows, in the last iMCU row. */
  method CountLeft(height: nat, rgroup: nat, M: nat, ghost total: nat, ghost last: nat) returns (rowsLeft: nat, avail: nat)
    requires M >= 2 && rgroup > 0 && total > 0 && last == Rows(total - 1, rgroup * M) && last < height <= last + rgroup * M
    ensures rowsLeft == height - last > 0 && height <= last + Rows(avail, rgroup) < height + rgroup
    ensures avail == (rowsLeft - 1) / rgroup + 1
  {
    SizesTimes(rgroup, M);
    RowsLeft(height, last, total - 1, rgroup * M);
    hide Rows;
    rowsLeft := height % (rgroup * M);
    if rowsLeft == 0 {
      rowsLeft := rgroup * M;
    }
    avail := (rowsLeft - 1) / rgroup + 1;
    RoundUp(rowsLeft, rgroup);
  }

  /** Repeats a row in the two row groups of pointers after it. */
  method DuplicateLast(xbuf: array<int>, rgroup: nat, rowsLeft: nat)
    requires rgroup > 0 && rowsLeft > 0 && rgroup + rowsLeft + 2 * rgroup <= xbuf.Length
    modifies xbuf
    ensures xbuf[..rgroup + rowsLeft] == old(xbuf[..rgroup + rowsLeft])
    ensures forall k :: rgroup + rowsLeft <= k < rgroup + rowsLeft + 2 * rgroup ==> xbuf[k] == old(xbuf[rgroup + rowsLeft - 1])
  {
    for i := 0 to rgroup * 2
      invariant xbuf[..rgroup + rowsLeft] == old(xbuf[..rgroup + rowsLeft])
      invariant forall k :: rgroup + rowsLeft <= k < rgroup + rowsLeft + i ==> xbuf[k] == old(xbuf[rgroup + rowsLeft - 1])
    {
      assert xbuf[rgroup + rowsLeft - 1] == xbuf[..rgroup + rowsLeft][rgroup + rowsLeft - 1];
      xbuf[rgroup + rowsLeft + i] := xbuf[rgroup + rowsLeft - 1];
    }
  }

  /** Without a bottom edge all rows are real. */
  lemma EdgedRows(g: Image, x: seq<int>, ws: seq<int>, top: bool, off: int)
    requires ImageOk(g) && |x| == g.z.C + 2 * g.z.R && Shows(g.z, x, ws, if top then g.z.R else 0, g.z.R + g.z.B, off)
    requires if top then off + g.z.R == 0 && Top(g.z, x) else off >= 0
    ensures off + g.z.R + g.z.B <= g.height ==> ShowsEdged(g, x, ws, 0, g.z.R + g.z.B, off)
  {
    hide Ptr;
    if off + g.z.R + g.z.B <= g.height {
      forall k | 0 <= k < g.z.R + g.z.B ensures 0 <= x[k] < |ws| && ws[x[k]] == Clamp(g, off + k) {
        if top && k < g.z.R {
          assert x[k] == 0 && x[g.z.R] == Ptr(g.z, 0, g.z.R);
          FirstPtr(g.z);
        }
      }
    }
  }

  /** The wraparound does not change what the iMCU row looks like. */
  lemma StillShows(z: Sizes, which: nat, x: seq<int>, x1: seq<int>, ws: seq<int>, off: int)
    requires SizesOk(z) && Normal(z, which, x, z.R, z.C + z.R) && Normal(z, which, x1, z.R, z.C + z.R)
    requires Shows(z, x, ws, z.R, z.R + z.B, off)
    ensures Shows(z, x1, ws, z.R, z.R + z.B, off)
  {
    hide Ptr;
  }

  /** The last two row groups of an iMCU row are found in the other list. */
  lemma OtherList(z: Sizes, which: nat, x: seq<int>, other: seq<int>, ws: seq<int>, top: bool, off: int)
    requires SizesOk(z) && which <= 1 && Normal(z, which, x, z.R, z.C + z.R) && Normal(z, 1 - which, other, 0, z.C + 2 * z.R)
    requires Shows(z, x, ws, if top then z.R else 0, z.R + z.B, off)
    ensures Shows(z, other, ws, z.B + z.R, z.C + z.R, off - 2 * z.R)
  {
    hide Ptr;
    forall k | z.B + z.R <= k < z.C + z.R ensures 0 <= other[k] < |ws| && ws[other[k]] == off - 2 * z.R + k {
      PtrShared(z, 1 - which, k);
      assert other[k] == x[k - 2 * z.R];
    }
  }

  /** How far the rows of n iMCU rows reach. */
  lemma Reached(n: nat, total: nat, b: nat)
    requires 0 < n <= total
    ensures n < total ==> Rows(n, b) <= Rows(total - 1, b)
    ensures n == total ==> Rows(n, b) == Rows(total - 1, b) + b
    ensures n > 1 ==> Rows(n, b) >= 2 * b
    ensures n == 1 ==> Rows(n, b) == b
  {
    RowsNext(total - 1, b);
    if n < total { RowsMono(n, total - 1, b); }
    if n > 1 { RowsMono(2, n, b); }
  }

  ghost function Samples(x: seq<int>, ws: seq<int>, at: nat, n: nat): seq<int> {
    seq(n, i requires 0 <= i < n => if at + i < |x| && 0 <= x[at + i] < |ws| then ws[x[at + i]] else -1)
  }

  lemma ShowsWindow(g: Image, x: seq<int>, ws: seq<int>, at: nat, next: nat, off: int)
    requires g.z.R > 0 && Shows(g.z, x, ws, at, at + 3 * g.z.R, off) && next - g.z.R == off + at
    requires next >= g.z.R && (next + g.z.R == g.last || next + 2 * g.z.R <= g.height)
    ensures Samples(x, ws, at, 3 * g.z.R) == Window(g, next)
  {
    var got, want := Samples(x, ws, at, 3 * g.z.R), Window(g, next);
    forall i | 0 <= i < 3 * g.z.R ensures got[i] == want[i] {
      var k := at + i;
      assert got[i] == ws[x[k]];
      assert want[i] == Seen(g, next, next - g.z.R + i);
    }
    assert got == want;
  }

  lemma EdgedWindow(g: Image, x: seq<int>, ws: seq<int>, at: nat, next: nat, off: int)
    requires g.z.R > 0 && ShowsEdged(g, x, ws, at, at + 3 * g.z.R, off) && next - g.z.R == off + at && next + g.z.R != g.last
    ensures Samples(x, ws, at, 3 * g.z.R) == Window(g, next)
  {
    var got, want := Samples(x, ws, at, 3 * g.z.R), Window(g, next);
    forall i | 0 <= i < 3 * g.z.R ensures got[i] == want[i] {
      var k := at + i;
      assert got[i] == ws[x[k]];
      assert want[i] == Seen(g, next, next - g.z.R + i);
    }
    assert got == want;
  }

  lemma ShownMore(g: Image, shown: seq<seq<int>>, window: seq<int>, next: nat)
    requires InOrder(g, shown) && next == Rows(|shown|, g.z.R) < g.height && window == Window(g, next)
    ensures InOrder(g, shown + [window])
  {
    hide Window, Rows;
    assert ShownAt(g, window, |shown|);
  }

  /** The sizes, row group by row group. */
  lemma SizesTimes(rgroup: nat, M: nat)
    requires M >= 2 && rgroup > 0
    ensures var z := MakeSizes(rgroup, M);
            SizesOk(z) && z.R == rgroup && z.B == rgroup * M && Rows(M - 1, z.R) == z.B - z.R &&
            Rows(M + 1, z.R) == z.C - z.R && Rows(M + 2, z.R) == z.C && Rows(M, z.R) == z.B
  {
  }

  lemma NothingStored(z: Sizes, x: seq<int>, ws: seq<int>, off: int)
    requires |ws| == z.C && z.R <= |x|
    ensures Shows(z, x, ws, z.R, z.R, off)
  {
  }

  lemma TopIsNormal(z: Sizes, x0: seq<int>, x1: seq<int>)
    ensures Top(z, x0) ==> Normal(z, 0, x0, z.R, z.C + z.R)
    ensures Normal(z, 0, x0, 0, z.C + 2 * z.R) ==> Normal(z, 0, x0, z.R, z.C + z.R)
    ensures Normal(z, 1, x1, 0, z.C + 2 * z.R) ==> Normal(z, 1, x1, z.R, z.C + z.R)
  {
  }
}
