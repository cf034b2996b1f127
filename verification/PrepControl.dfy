/** The preprocessing controller of the compressor when downsampling needs context rows
    (jcprepct.c): a ring of three row groups, seen through pointers that wrap around at
    both ends. Sample rows are represented by their row numbers; one component is
    modelled, the others are treated alike. */
module PrepControl {
  import opened RowGroups

  /** The ring row behind pointer k of the five row groups of pointers; pointer V is
      the source's row 0. */
  function RingRow(V: nat, k: int): int {
    if k < V then k + 2 * V else if k < 4 * V then k - V else k - 4 * V
  }

  /** Rows base .. base + stored are in the ring from its start; after them are rows of
      the lap before, as far back as the row group above the image. */
  ghost predicate Holds(V: nat, height: nat, ring: seq<int>, base: nat, stored: nat) {
    height > 0 && |ring| == 3 * V && stored <= 3 * V &&
    (forall s :: 0 <= s < stored ==> ring[s] == Nearest(height, base + s)) &&
    (forall s :: stored <= s < 3 * V && base + s >= 2 * V ==> ring[s] == Nearest(height, base + s - 3 * V))
  }

  /** A row group with the ones above and below it. */
  function Around(V: nat, height: nat, q: nat): seq<int>
    requires height > 0
  {
    seq(3 * V, i requires 0 <= i < 3 * V => Nearest(height, q - V + i))
  }

  /** What downsampling sees around row group index. */
  function Seen(V: nat, ring: seq<int>, index: nat): seq<int>
    requires index <= 2 * V && |ring| == 3 * V
  {
    seq(3 * V, i requires 0 <= i < 3 * V => ring[RingRow(V, index + i)])
  }

  /** The row group index that is due when the ring is filled up to stop. */
  function IndexAt(V: nat, stop: nat): int {
    if stop == V then 2 * V else stop - 2 * V
  }

  /** A full window is the row group in its place. */
  lemma WindowIs(V: nat, height: nat, ring: seq<int>, base: nat, stop: nat, q: nat)
    requires V > 0 && Holds(V, height, ring, base, stop) && q + 2 * V == base + stop
    requires stop == V || stop == 2 * V || stop == 3 * V
    ensures Seen(V, ring, IndexAt(V, stop)) == Around(V, height, q)
  {
    var index := IndexAt(V, stop);
    var got, want := Seen(V, ring, index), Around(V, height, q);
    forall i | 0 <= i < 3 * V ensures got[i] == want[i] {
      var s := RingRow(V, index + i);
      assert got[i] == ring[s];
      assert want[i] == Nearest(height, q - V + i);
    }
    assert got == want;
  }

  /** Storing the next row. */
  lemma StoreNext(V: nat, height: nat, ring: seq<int>, base: nat, stored: nat, row: int)
    requires Holds(V, height, ring, base, stored) && stored < 3 * V && row == Nearest(height, base + stored)
    ensures Holds(V, height, ring[stored := row], base, stored + 1)
  {
  }

  /** A full ring starts over. */
  lemma NextLap(V: nat, height: nat, ring: seq<int>, base: nat)
    requires V > 0 && Holds(V, height, ring, base, 3 * V)
    ensures Holds(V, height, ring, base + 3 * V, 0)
  {
  }

  class PrepController {
    /** max_v_samp_factor */
    const V: nat
    const height: nat
    const ring: array<int>
    /** Row pointers: five row groups, the middle three in ring order. */
    const colorBuf: array<nat>
    var rowsToGo: nat
    var nextBufRow: nat
    var thisRowGroup: nat
    var nextBufStop: nat
    /** The image row at the start of the ring, and what downsampling has seen. */
    ghost var base: nat
    ghost var seen: seq<seq<int>>

    ghost predicate Pointers()
      reads colorBuf
    {
      colorBuf.Length == 5 * V && forall k :: 0 <= k < 5 * V ==> colorBuf[k] == RingRow(V, k)
    }

    /** Every row group was seen in its place. */
    ghost predicate InOrder()
      reads this
      requires height > 0
    {
      forall j :: 0 <= j < |seen| ==> seen[j] == Around(V, height, Rows(j, V))
    }

    ghost predicate Valid()
      reads this, ring, colorBuf
    {
      V > 0 && height > 0 && ring.Length == 3 * V && Pointers() && InOrder() && rowsToGo <= height &&
      (nextBufStop == V || nextBufStop == 2 * V || nextBufStop == 3 * V) && thisRowGroup == IndexAt(V, nextBufStop) &&
      nextBufRow < nextBufStop && (nextBufStop == 3 * V ==> nextBufRow >= 2 * V) && Rows(|seen|, V) + 2 * V == base + nextBufStop &&
      (if rowsToGo > 0 then base + nextBufRow == height - rowsToGo else base + nextBufRow >= height) &&
      (rowsToGo < height ==> Holds(V, height, ring[..], base, nextBufRow))
    }

    /** create_context_buffer and start_pass_prep */
    constructor (V: nat, height: nat)
      requires V > 0 && height > 0
      ensures Valid() && fresh({this, ring, colorBuf}) && seen == [] && rowsToGo == height && this.V == V && this.height == height
    {
      this.V, this.height := V, height;
      ring := new int[3 * V](_ => 0);
      colorBuf := new nat[5 * V](_ => 0);
      rowsToGo, nextBufRow, thisRowGroup, nextBufStop := height, 0, 0, 2 * V;
      base, seen := 0, [];
      new;
      for i := 0 to 3 * V
        modifies colorBuf
        invariant forall k :: V <= k < V + i ==> colorBuf[k] == k - V
      {
        colorBuf[V + i] := i;
      }
      for i := 0 to V
        modifies colorBuf
        invariant forall k :: V <= k < 4 * V ==> colorBuf[k] == k - V
        invariant forall k :: 0 <= k < i ==> colorBuf[k] == 2 * V + k
        invariant forall k :: 4 * V <= k < 4 * V + i ==> colorBuf[k] == k - 4 * V
      {
        colorBuf[i] := 2 * V + i;
        colorBuf[4 * V + i] := i;
      }
      RowsNext(0, V);
    }

    /** color_convert, which stores the next n rows of the image; the first ones are
        followed by the top padding. */
    method ReadRows(n: nat)
      requires V > 0 && height > 0 && ring.Length == 3 * V && Pointers() && nextBufRow + n <= 3 * V && n > 0
      requires n <= rowsToGo <= height && base + nextBufRow == height - rowsToGo
      requires if rowsToGo == height then n <= 2 * V else Holds(V, height, ring[..], base, nextBufRow)
      modifies ring
      ensures Holds(V, height, ring[..], base, nextBufRow + n)
    {
      hide RingRow;
      var first := rowsToGo == height;
      for i := 0 to n
        invariant first ==> forall s :: 0 <= s < i ==> ring[s] == Nearest(height, s)
        invariant !first ==> Holds(V, height, ring[..], base, nextBufRow + i)
      {
        if !first {
          StoreNext(V, height, ring[..], base, nextBufRow + i, height - rowsToGo + i);
        }
        ghost var before := ring[..];
        ring[nextBufRow + i] := height - rowsToGo + i;
        assert ring[..] == before[nextBufRow + i := height - rowsToGo + i];
      }
      if first {
        PadTop(n);
      }
    }

    /** Row 0 is repeated above itself. */
    method PadTop(ghost n: nat)
      requires V > 0 && height > 0 && ring.Length == 3 * V && Pointers() && 0 < n <= 2 * V
      requires forall s :: 0 <= s < n ==> ring[s] == Nearest(height, s)
      modifies ring
      ensures Holds(V, height, ring[..], 0, n)
    {
      for row := 1 to V + 1
        invariant forall s :: 0 <= s < n ==> ring[s] == Nearest(height, s)
        invariant forall s :: 3 * V - row < s < 3 * V ==> ring[s] == 0
      {
        ring[colorBuf[V - row]] := ring[colorBuf[V]];
      }
    }

    /** expand_bottom_edge: the row before is repeated until the next row group is full. */
    method ExpandBottomEdge()
      requires Valid() && rowsToGo == 0
      modifies ring
      ensures Holds(V, height, ring[..], base, nextBufStop)
    {
      hide RingRow, IndexAt, Around;
      LastRow();
      var last := colorBuf[V + nextBufRow - 1];
      for row := nextBufRow to nextBufStop
        invariant Holds(V, height, ring[..], base, row) && ring[last] == height - 1
      {
        ghost var before := ring[..];
        StoreNext(V, height, before, base, row, height - 1);
        StoreAt(row);
        ring[colorBuf[V + row]] := ring[last];
        assert ring[..] == before[row := height - 1];
      }
    }

    lemma LastRow()
      requires Valid() && rowsToGo == 0
      ensures var last := colorBuf[V + nextBufRow - 1];
        last < 3 * V && ring[last] == height - 1 && (last < nextBufRow || last >= nextBufStop)
    {
    }

    lemma StoreAt(row: nat)
      requires Pointers() && row < 3 * V
      ensures colorBuf[V + row] == row
    {
    }

    /** Downsamples the row group that is due. */
    method Downsample()
      requires V > 0 && height > 0 && ring.Length == 3 * V && Pointers() && InOrder() && rowsToGo < height
      requires nextBufStop == V || nextBufStop == 2 * V || nextBufStop == 3 * V
      requires thisRowGroup == IndexAt(V, nextBufStop) && nextBufRow == nextBufStop
      requires Rows(|seen|, V) + 2 * V == base + nextBufStop && Holds(V, height, ring[..], base, nextBufStop)
      requires if rowsToGo > 0 then base + nextBufRow == height - rowsToGo else base + nextBufRow >= height
      modifies this`seen, this`base, this`thisRowGroup, this`nextBufRow, this`nextBufStop
      ensures Valid() && |seen| == |old(seen)| + 1 && old(seen) <= seen
      ensures height - rowsToGo <= Rows(|seen|, V) + V
    {
      hide RingRow, Around, Rows, Holds;
      WindowIs(V, height, ring[..], base, nextBufStop, Rows(|seen|, V));
      RowsNext(|seen|, V);
      seen := seen + [Seen(V, ring[..], thisRowGroup)];
      thisRowGroup := thisRowGroup + V;
      if thisRowGroup >= 3 * V {
        thisRowGroup := 0;
      }
      if nextBufRow >= 3 * V {
        NextLap(V, height, ring[..], base);
        nextBufRow := 0;
        base := base + 3 * V;
      }
      nextBufStop := nextBufRow + V;
    }

    /** pre_process_context, called with rows more rows of the image and room for groups
        row groups; returns how many rows it took and how many row groups it made. */
    method PreProcess(rows: nat, groups: nat) returns (taken: nat, made: nat)
      requires Valid() && rows <= rowsToGo
      modifies this, ring
      ensures Valid() && taken <= rows && made <= groups && rowsToGo == old(rowsToGo) - taken
      ensures |seen| == |old(seen)| + made && old(seen) <= seen
      ensures made < groups ==> taken == rows && rowsToGo > 0
      ensures height - rowsToGo < Rows(|seen|, V) + 2 * V
      ensures made == groups ==> if groups == 0 then taken == 0 else height - rowsToGo <= Rows(|seen|, V) + V
    {
      hide RingRow, Around, Rows, Holds, IndexAt;
      taken, made := 0, 0;
      while made < groups
        invariant Valid() && taken <= rows && made <= groups && rowsToGo == old(rowsToGo) - taken
        invariant |seen| == |old(seen)| + made && old(seen) <= seen
        invariant groups == 0 ==> taken == 0
        invariant made == groups > 0 ==> height - rowsToGo <= Rows(|seen|, V) + V
        decreases groups - made, rows - taken
      {
        if taken < rows {
          var n := if nextBufStop - nextBufRow < rows - taken then nextBufStop - nextBufRow else rows - taken;
          FirstRows();
          ReadRows(n);
          taken := taken + n;
          nextBufRow := nextBufRow + n;
          rowsToGo := rowsToGo - n;
        } else {
          if rowsToGo != 0 {
            break;
          }
          if nextBufRow < nextBufStop {
            ExpandBottomEdge();
            nextBufRow := nextBufStop;
          }
        }
        if nextBufRow == nextBufStop {
          Downsample();
          made := made + 1;
        }
      }
    }

    lemma FirstRows()
      requires Valid() && rowsToGo > 0
      ensures rowsToGo == height ==> nextBufStop == 2 * V
    {
      RowsNext(|seen|, V);
    }
  }
}
