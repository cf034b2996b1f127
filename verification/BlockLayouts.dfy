/** How the blocks of a component are numbered in the MCUs of a scan: the arrangement
    that the coefficient controller makes is one that whole files can be read back from. */
module BlockLayouts {
  import opened Bits
  import opened McuAssembly
  import opened CoefController
  import opened McuOrder
  import R = Reconstruction

  /** Real blocks are numbered row by row; dummy blocks, in a component padded to
      rows of pw blocks, come after them. */
  function Number(c: Component, pw: nat, r: nat, x: nat): nat {
    if r < c.height && x < c.width then r * c.width + x else c.height * c.width + (r * pw + x)
  }

  // ----- arithmetic -----

  lemma Unique(q: nat, r: nat, q1: nat, r1: nat, d: nat)
    requires r < d && r1 < d && q * d + r == q1 * d + r1
    ensures q == q1 && r == r1
  {
    if q < q1 { MulLe(q + 1, q1, d); MulSucc(q, d); }
    if q1 < q { MulLe(q1 + 1, q, d); MulSucc(q1, d); }
  }

  lemma Split(n: nat, d: nat)
    requires d > 0
    ensures n == n / d * d + n % d && n % d < d
  {
  }

  lemma Joined(q: nat, r: nat, d: nat)
    requires r < d
    ensures (q * d + r) / d == q && (q * d + r) % d == r
  {
    MulSucc(q, d);
    DivBounds(q * d + r, d, q);
    Split(q * d + r, d);
  }

  lemma Below(q: nat, r: nat, n: nat, d: nat)
    requires q < n && r < d
    ensures q * d + r < n * d
  {
    MulLe(q + 1, n, d);
    MulSucc(q, d);
  }

  lemma NotBeyond(q: nat, r: nat, n: nat, d: nat)
    requires q * d + r < n * d
    ensures q < n
  {
    if q >= n { MulLe(n, q, d); }
  }

  lemma NumberBound(c: Component, pw: nat, ph: nat, r: nat, x: nat)
    requires r < ph && x < pw
    ensures Number(c, pw, r, x) < c.height * c.width + ph * pw
    ensures Number(c, pw, r, x) < c.height * c.width <==> r < c.height && x < c.width
  {
    Below(r, x, ph, pw);
    if r < c.height && x < c.width { Below(r, x, c.height, c.width); }
  }

  lemma NumberInjective(c: Component, pw: nat, r: nat, x: nat, r1: nat, x1: nat)
    requires x < pw && x1 < pw && Number(c, pw, r, x) == Number(c, pw, r1, x1)
    ensures r == r1 && x == x1
  {
    NumberBound(c, pw, r + 1, r, x);
    NumberBound(c, pw, r1 + 1, r1, x1);
    if r < c.height && x < c.width {
      Unique(r, x, r1, x1, c.width);
    } else {
      Unique(r, x, r1, x1, pw);
    }
  }

  // ----- one component -----

  /** A scan of one component has a block to each MCU, in raster order. */
  ghost predicate RasterLayout(ps: R.Pass, ci: int, c: Component) {
    ps.info.comps == [ci] && |ps.layout| == c.height * c.width &&
    forall m :: 0 <= m < |ps.layout| ==> ps.layout[m] == [m]
  }

  lemma RasterLayoutOk(n: nat, ps: R.Pass, dims: seq<nat>, live: seq<nat>, ci: nat, c: Component)
    requires R.PassShaped(n, ps) && RasterLayout(ps, ci, c)
    requires |dims| == |live| == n && (forall i :: 0 <= i < n ==> live[i] <= dims[i]) && ci < n && live[ci] == c.height * c.width
    ensures R.LayoutOk(n, ps, dims, live)
  {
    assert ps.membership == [0];
    forall idx: nat | idx < live[ci] ensures R.Placed(n, ps, ci, idx) {
      assert R.Places(n, ps, idx, 0, ci, idx);
    }
  }

  /** The MCUs of that layout are those which the coefficient controller sends. */
  lemma RasterGathered(n: nat, ps: R.Pass, dims: seq<nat>, live: seq<nat>, ci: nat, s: ScanShape, img: R.Image)
    requires ShapeOk(s) && |s.comps| == 1 && CompOk(s.comps[0])
    requires R.PassShaped(n, ps) && R.LayoutOk(n, ps, dims, live) && R.Sized(n, dims, img) && RasterLayout(ps, ci, s.comps[0])
    requires ci < n && dims[ci] >= s.comps[0].height * s.comps[0].width
    requires forall k: nat :: k < s.comps[0].height * s.comps[0].width ==>
      k / s.comps[0].width < s.comps[0].height && img[ci][k] == s.comps[0].img[k / s.comps[0].width][k % s.comps[0].width]
    ensures R.Gather(n, ps, dims, live, img) == ScanMcus(s, s.down)
  {
    var c := s.comps[0];
    var got, want := R.Gather(n, ps, dims, live, img), ScanMcus(s, s.down);
    NoninterleavedScan(s, 0, 0);
    hide ShapeOk, ScanMcus, R.LayoutOk;
    forall m | 0 <= m < |got| ensures got[m] == want[m] {
      assert got[m] == [img[ci][m]];
      RasterMcu(s, c, m);
    }
  }

  lemma RasterMcu(s: ScanShape, c: Component, m: nat)
    requires ShapeOk(s) && s.comps == [c] && CompOk(c) && m < c.height * c.width
    ensures m < |ScanMcus(s, s.down)| && m / c.width < c.height && ScanMcus(s, s.down)[m] == [c.img[m / c.width][m % c.width]]
  {
    hide ShapeOk, ScanMcus;
    Split(m, c.width);
    NotBeyond(m / c.width, m % c.width, c.height, c.width);
    NoninterleavedScan(s, m / c.width, m % c.width);
  }

  // ----- several components -----

  /** MCU_membership, for the first n components. */
  function MembershipOf(s: ScanShape, n: nat): (r: seq<nat>)
    requires ScanOk(s) && n <= |s.comps|
    ensures |r| == BlocksInMcu(s, n)
  {
    if n == 0 then []
    else
      var sh := Setup(s.comps[n - 1], Interleaved(s));
      MembershipOf(s, n - 1) + seq(sh.h * sh.w, _ => n - 1)
  }

  lemma {:induction false} MemberAt(s: ScanShape, n: nat, k: nat, o: nat)
    requires ScanOk(s) && Interleaved(s) && k < n <= |s.comps| && o < s.comps[k].v * s.comps[k].h
    ensures BlocksInMcu(s, k) + o < BlocksInMcu(s, n) && MembershipOf(s, n)[BlocksInMcu(s, k) + o] == k
    decreases n
  {
    MemberStep(s, n);
    hide ScanOk, MembershipOf, BlocksInMcu;
    if k < n - 1 { MemberAt(s, n - 1, k, o); }
  }

  lemma MemberStep(s: ScanShape, n: nat)
    requires ScanOk(s) && Interleaved(s) && 0 < n <= |s.comps|
    ensures MembershipOf(s, n) == MembershipOf(s, n - 1) + seq(s.comps[n - 1].v * s.comps[n - 1].h, _ => n - 1)
    ensures BlocksInMcu(s, n) == BlocksInMcu(s, n - 1) + s.comps[n - 1].v * s.comps[n - 1].h
  {
  }

  /** Which component a block of the MCU belongs to, and its offset there. */
  lemma {:induction false} MemberOf(s: ScanShape, n: nat, b: nat) returns (k: nat, o: nat)
    requires ScanOk(s) && Interleaved(s) && n <= |s.comps| && b < BlocksInMcu(s, n)
    ensures k < n && k == MembershipOf(s, n)[b] && b == BlocksInMcu(s, k) + o && o < s.comps[k].v * s.comps[k].h
    decreases n
  {
    MemberStep(s, n);
    hide ScanOk, MembershipOf, BlocksInMcu;
    if b < BlocksInMcu(s, n - 1) {
      k, o := MemberOf(s, n - 1, b);
    } else {
      k, o := n - 1, b - BlocksInMcu(s, n - 1);
    }
  }

  /** The block row and column of offset o of component c in MCU m. */
  function RowIn(s: ScanShape, c: Component, m: nat, o: nat): nat
    requires s.across > 0 && c.h > 0
  {
    m / s.across * c.v + o / c.h
  }

  function ColIn(s: ScanShape, c: Component, m: nat, o: nat): nat
    requires s.across > 0 && c.h > 0
  {
    m % s.across * c.h + o % c.h
  }

  function NumberIn(s: ScanShape, c: Component, m: nat, o: nat): nat
    requires s.across > 0 && c.h > 0
  {
    Number(c, s.across * c.h, RowIn(s, c, m, o), ColIn(s, c, m, o))
  }

  /** An interleaved scan in the arrangement of the coefficient controller. */
  ghost predicate InterleavedLayout(ps: R.Pass, s: ScanShape) {
    ScanOk(s) && Interleaved(s) && |ps.info.comps| == |s.comps| && ps.membership == MembershipOf(s, |s.comps|) &&
    |ps.layout| == s.down * s.across &&
    forall m: nat, k: nat, o: nat :: m < |ps.layout| && k < |s.comps| && o < s.comps[k].v * s.comps[k].h ==>
      InLayout(ps, s, m, k, o)
  }

  ghost predicate InLayout(ps: R.Pass, s: ScanShape, m: nat, k: nat, o: nat)
    requires ScanOk(s) && m < |ps.layout| && k < |s.comps|
  {
    BlocksInMcu(s, k) + o < |ps.layout[m]| && ps.layout[m][BlocksInMcu(s, k) + o] == NumberIn(s, s.comps[k], m, o)
  }

  /** Where offset o of MCU m is in its component. */
  lemma Position(s: ScanShape, c: Component, m: nat, o: nat)
    requires s.across > 0 && c.h > 0 && c.v > 0 && m < s.down * s.across && o < c.v * c.h
    ensures m / s.across < s.down && o / c.h < c.v
    ensures RowIn(s, c, m, o) < s.down * c.v && ColIn(s, c, m, o) < s.across * c.h
  {
    Split(m, s.across);
    NotBeyond(m / s.across, m % s.across, s.down, s.across);
    Split(o, c.h);
    NotBeyond(o / c.h, o % c.h, c.v, c.h);
    Below(m / s.across, o / c.h, s.down, c.v);
    Below(m % s.across, o % c.h, s.across, c.h);
  }

  lemma SamePosition(s: ScanShape, c: Component, m: nat, o: nat, m1: nat, o1: nat)
    requires s.across > 0 && c.h > 0 && o / c.h < c.v && o1 / c.h < c.v
    requires RowIn(s, c, m, o) == RowIn(s, c, m1, o1) && ColIn(s, c, m, o) == ColIn(s, c, m1, o1)
    ensures m == m1 && o == o1
  {
    Unique(m / s.across, o / c.h, m1 / s.across, o1 / c.h, c.v);
    Unique(m % s.across, o % c.h, m1 % s.across, o1 % c.h, c.h);
    SameParts(o, o1, c.h);
    SameParts(m, m1, s.across);
  }

  lemma SameParts(n: nat, n1: nat, d: nat)
    requires d > 0 && n / d == n1 / d && n % d == n1 % d
    ensures n == n1
  {
    Split(n, d);
    Split(n1, d);
  }

  lemma NumberInInjective(s: ScanShape, c: Component, m: nat, o: nat, m1: nat, o1: nat)
    requires s.across > 0 && c.h > 0 && c.v > 0 && m < s.down * s.across && m1 < s.down * s.across && o < c.v * c.h && o1 < c.v * c.h
    requires NumberIn(s, c, m, o) == NumberIn(s, c, m1, o1)
    ensures m == m1 && o == o1
  {
    hide Number, RowIn, ColIn;
    Position(s, c, m, o);
    Position(s, c, m1, o1);
    NumberInjective(c, s.across * c.h, RowIn(s, c, m, o), ColIn(s, c, m, o), RowIn(s, c, m1, o1), ColIn(s, c, m1, o1));
    SamePosition(s, c, m, o, m1, o1);
  }

  /** Every block of a component is somewhere in the scan. */
  lemma Located(s: ScanShape, c: Component, r: nat, x: nat) returns (m: nat, o: nat)
    requires s.across > 0 && c.h > 0 && c.v > 0 && r < s.down * c.v && x < s.across * c.h
    ensures m < s.down * s.across && o < c.v * c.h && RowIn(s, c, m, o) == r && ColIn(s, c, m, o) == x
  {
    var i, y, col, x1 := r / c.v, r % c.v, x / c.h, x % c.h;
    Split(r, c.v);
    Split(x, c.h);
    NotBeyond(i, y, s.down, c.v);
    NotBeyond(col, x1, s.across, c.h);
    m, o := i * s.across + col, y * c.h + x1;
    Below(i, col, s.down, s.across);
    Below(y, x1, c.v, c.h);
    Joined(i, col, s.across);
    Joined(y, x1, c.h);
  }

  lemma SizesFit(s: ScanShape, c: Component)
    requires Fits(s, c) && Interleaved(s) && s.across > 0
    ensures s.across > 0 && c.h > 0 && c.v > 0 && c.height <= s.down * c.v && c.width <= s.across * c.h
  {
    MulSucc(s.down - 1, c.v);
    MulSucc(s.across - 1, c.h);
  }

  /** Where a block of the layout comes from. */
  lemma PlaceOf(n: nat, ps: R.Pass, s: ScanShape, m: nat, b: nat, ci: int, idx: nat) returns (k: nat, o: nat)
    requires R.PassShaped(n, ps) && InterleavedLayout(ps, s) && R.Places(n, ps, m, b, ci, idx)
    ensures k < |s.comps| && ps.info.comps[k] == ci && o < s.comps[k].v * s.comps[k].h && b == BlocksInMcu(s, k) + o
    ensures s.across > 0 && s.comps[k].h > 0 && m < s.down * s.across && idx == NumberIn(s, s.comps[k], m, o)
  {
    hide NumberIn, MembershipOf, BlocksInMcu;
    k, o := MemberOf(s, |s.comps|, b);
    assert InLayout(ps, s, m, k, o);
  }

  /** The same component has the same place in the scan. */
  lemma OnePlace(n: nat, ps: R.Pass, k: nat, k1: nat)
    requires R.PassShaped(n, ps) && k < |ps.info.comps| && k1 < |ps.info.comps| && ps.info.comps[k] == ps.info.comps[k1]
    ensures k == k1
  {
    if k < k1 { InOrder(n, ps, k, k1); }
    if k1 < k { InOrder(n, ps, k1, k); }
  }

  lemma InOrder(n: nat, ps: R.Pass, k: nat, k1: nat)
    requires R.PassShaped(n, ps) && k < k1 < |ps.info.comps|
    ensures ps.info.comps[k] < ps.info.comps[k1]
  {
  }

  /** Room for all blocks of a component, dummies included. */
  ghost predicate RoomFor(ps: R.Pass, s: ScanShape, dims: seq<nat>, live: seq<nat>, k: nat)
    requires k < |s.comps| == |ps.info.comps| && 0 <= ps.info.comps[k] < |dims| == |live|
  {
    var c, ci := s.comps[k], ps.info.comps[k];
    live[ci] == c.height * c.width && dims[ci] >= c.height * c.width + s.down * c.v * (s.across * c.h)
  }

  ghost predicate RoomForAll(n: nat, ps: R.Pass, s: ScanShape, dims: seq<nat>, live: seq<nat>)
    requires R.PassShaped(n, ps)
  {
    |dims| == |live| == n && |s.comps| == |ps.info.comps| && (forall i :: 0 <= i < n ==> live[i] <= dims[i]) &&
    forall k :: 0 <= k < |s.comps| ==> RoomFor(ps, s, dims, live, k)
  }

  lemma InRoom(n: nat, ps: R.Pass, s: ScanShape, dims: seq<nat>, live: seq<nat>, m: nat, b: nat, ci: int, idx: nat)
    requires R.PassShaped(n, ps) && InterleavedLayout(ps, s) && RoomForAll(n, ps, s, dims, live) && R.Places(n, ps, m, b, ci, idx)
    ensures idx < dims[ci]
  {
    var k, o := PlaceOf(n, ps, s, m, b, ci, idx);
    assert Fits(s, s.comps[k]) && RoomFor(ps, s, dims, live, k);
    hide InterleavedLayout, RoomForAll, ScanOk, Number, RowIn, ColIn;
    Position(s, s.comps[k], m, o);
    NumberBound(s.comps[k], s.across * s.comps[k].h, s.down * s.comps[k].v, RowIn(s, s.comps[k], m, o), ColIn(s, s.comps[k], m, o));
  }

  lemma PlacedOnce(n: nat, ps: R.Pass, s: ScanShape, m: nat, b: nat, m1: nat, b1: nat, ci: int, idx: nat)
    requires R.PassShaped(n, ps) && InterleavedLayout(ps, s) && R.Places(n, ps, m, b, ci, idx) && R.Places(n, ps, m1, b1, ci, idx)
    ensures m == m1 && b == b1
  {
    var k, o := PlaceOf(n, ps, s, m, b, ci, idx);
    var k1, o1 := PlaceOf(n, ps, s, m1, b1, ci, idx);
    OnePlace(n, ps, k, k1);
    assert Fits(s, s.comps[k]);
    hide InterleavedLayout, ScanOk, NumberIn;
    NumberInInjective(s, s.comps[k], m, o, m1, o1);
  }

  lemma AllPlaced(n: nat, ps: R.Pass, s: ScanShape, k: nat, idx: nat)
    requires R.PassShaped(n, ps) && InterleavedLayout(ps, s) && k < |s.comps| && idx < s.comps[k].height * s.comps[k].width
    ensures R.Placed(n, ps, ps.info.comps[k], idx)
  {
    var c := s.comps[k];
    LayoutFacts(ps, s, k);
    var m, o := LocatedNumber(s, c, idx);
    assert InLayout(ps, s, m, k, o);
    hide NumberIn, MembershipOf, BlocksInMcu;
    MemberAt(s, |s.comps|, k, o);
    assert R.Places(n, ps, m, BlocksInMcu(s, k) + o, ps.info.comps[k], idx);
  }

  lemma LayoutFacts(ps: R.Pass, s: ScanShape, k: nat)
    requires InterleavedLayout(ps, s) && k < |s.comps|
    ensures ScanOk(s) && ShapeOk(s) && Interleaved(s) && s.across > 0 && Fits(s, s.comps[k]) && CompOk(s.comps[k])
    ensures |ps.layout| == s.down * s.across && |ps.membership| == BlocksInMcu(s, |s.comps|)
    ensures s.comps[k].h > 0 && s.comps[k].v > 0
  {
    assert Fits(s, s.comps[k]);
  }

  lemma LocatedNumber(s: ScanShape, c: Component, idx: nat) returns (m: nat, o: nat)
    requires Fits(s, c) && Interleaved(s) && s.across > 0 && idx < c.height * c.width
    ensures c.h > 0 && m < s.down * s.across && o < c.v * c.h && NumberIn(s, c, m, o) == idx
  {
    SizesFit(s, c);
    assert c.width > 0;
    hide RowIn, ColIn, Fits;
    var r, x := DivMod(idx, c.height, c.width);
    m, o := Located(s, c, r, x);
  }

  lemma InterleavedLayoutOk(n: nat, ps: R.Pass, s: ScanShape, dims: seq<nat>, live: seq<nat>)
    requires R.PassShaped(n, ps) && InterleavedLayout(ps, s) && RoomForAll(n, ps, s, dims, live)
    ensures R.LayoutOk(n, ps, dims, live)
  {
    hide InterleavedLayout;
    assert |ps.info.comps| > 1 by { ManyComps(ps, s); }
    forall m: nat, b: nat, ci, idx: nat | R.Places(n, ps, m, b, ci, idx) ensures idx < dims[ci] {
      InRoom(n, ps, s, dims, live, m, b, ci, idx);
    }
    forall m: nat, b: nat, m1: nat, b1: nat, ci, idx: nat | R.Places(n, ps, m, b, ci, idx) && R.Places(n, ps, m1, b1, ci, idx)
      ensures m == m1 && b == b1
    {
      PlacedOnce(n, ps, s, m, b, m1, b1, ci, idx);
    }
    forall k, idx: nat | 0 <= k < |ps.info.comps| && idx < live[ps.info.comps[k]] ensures R.Placed(n, ps, ps.info.comps[k], idx) {
      assert RoomFor(ps, s, dims, live, k);
      AllPlaced(n, ps, s, k, idx);
    }
  }

  lemma ManyComps(ps: R.Pass, s: ScanShape)
    requires InterleavedLayout(ps, s)
    ensures |ps.info.comps| == |s.comps| > 1
  {
  }

  /** The image holds the blocks of the components, dummies included, by their numbers. */
  ghost predicate Numbered(ps: R.Pass, s: ScanShape, img: R.Image)
    requires InterleavedLayout(ps, s)
  {
    forall m: nat, k: nat, o: nat :: m < |ps.layout| && k < |s.comps| && o < s.comps[k].v * s.comps[k].h ==>
      HoldsNumber(ps, s, img, m, k, o)
  }

  ghost predicate HoldsNumber(ps: R.Pass, s: ScanShape, img: R.Image, m: nat, k: nat, o: nat)
    requires k < |s.comps| == |ps.info.comps|
  {
    var c := s.comps[k];
    s.across > 0 && c.h > 0 && CompOk(c) && 0 <= ps.info.comps[k] < |img| &&
    NumberIn(s, c, m, o) < |img[ps.info.comps[k]]| &&
    img[ps.info.comps[k]][NumberIn(s, c, m, o)] == Cell(c, RowIn(s, c, m, o), ColIn(s, c, m, o))
  }

  /** The MCUs of that layout are those which the coefficient controller sends. */
  lemma InterleavedGathered(n: nat, ps: R.Pass, s: ScanShape, dims: seq<nat>, live: seq<nat>, img: R.Image)
    requires R.PassShaped(n, ps) && InterleavedLayout(ps, s) && R.LayoutOk(n, ps, dims, live) && R.Sized(n, dims, img)
    requires Numbered(ps, s, img)
    ensures R.Gather(n, ps, dims, live, img) == ScanMcus(s, s.down)
  {
    hide R.LayoutOk, Numbered, Cell, InterleavedLayout, ScanMcus;
    McusAre(ps, s);
    var got, want := R.Gather(n, ps, dims, live, img), ScanMcus(s, s.down);
    forall m | 0 <= m < |got| ensures got[m] == want[m] {
      SizeOfMcu(ps, s, m);
      forall b | 0 <= b < |got[m]| ensures got[m][b] == want[m][b] {
        SameBlock(n, ps, s, dims, live, img, m, b);
      }
    }
  }

  lemma McusAre(ps: R.Pass, s: ScanShape)
    requires InterleavedLayout(ps, s)
    ensures ShapeOk(s) && |ScanMcus(s, s.down)| == |ps.layout|
  {
    InterleavedSize(s, s.down);
  }

  lemma SizeOfMcu(ps: R.Pass, s: ScanShape, m: nat)
    requires InterleavedLayout(ps, s) && m < |ps.layout|
    ensures ShapeOk(s) && m < |ScanMcus(s, s.down)| && |ScanMcus(s, s.down)[m]| == |ps.membership|
  {
    assert |s.comps| > 1;
    LayoutFacts(ps, s, 0);
    hide Cell, InterleavedLayout, ScanOk, ShapeOk, ScanMcus, BlocksInMcu, Fits;
    var i, col := DivMod(m, s.down, s.across);
    InterleavedScan(s, i, col, 0, 0, 0);
  }

  lemma SameBlock(n: nat, ps: R.Pass, s: ScanShape, dims: seq<nat>, live: seq<nat>, img: R.Image, m: nat, b: nat)
    requires R.PassShaped(n, ps) && InterleavedLayout(ps, s) && R.LayoutOk(n, ps, dims, live) && R.Sized(n, dims, img)
    requires Numbered(ps, s, img) && m < |ps.layout| && b < |ps.membership|
    ensures ShapeOk(s) && m < |ScanMcus(s, s.down)| && b < |ScanMcus(s, s.down)[m]|
    ensures R.BlockOf(n, ps, dims, live, img, m, b) == ScanMcus(s, s.down)[m][b]
  {
    SizeOfMcu(ps, s, m);
    var k, o := MemberOf(s, |s.comps|, b);
    assert InLayout(ps, s, m, k, o) && HoldsNumber(ps, s, img, m, k, o);
    LayoutFacts(ps, s, k);
    hide R.LayoutOk, Cell, InterleavedLayout, ScanMcus, ScanOk, ShapeOk, NumberIn, MembershipOf, BlocksInMcu, Numbered, Fits;
    SentBlock(s, m, k, o);
  }

  /** The coefficient controller's block at offset o of component k in MCU m. */
  lemma SentBlock(s: ScanShape, m: nat, k: nat, o: nat)
    requires ScanOk(s) && ShapeOk(s) && Interleaved(s) && s.across > 0 && m < s.down * s.across && k < |s.comps|
    requires CompOk(s.comps[k]) && o < s.comps[k].v * s.comps[k].h && m < |ScanMcus(s, s.down)|
    requires BlocksInMcu(s, k) + o < |ScanMcus(s, s.down)[m]|
    ensures s.comps[k].h > 0
    ensures ScanMcus(s, s.down)[m][BlocksInMcu(s, k) + o] == Cell(s.comps[k], RowIn(s, s.comps[k], m, o), ColIn(s, s.comps[k], m, o))
  {
    var c := s.comps[k];
    assert c.h > 0 && c.v > 0;
    hide Cell, ScanMcus, ScanOk, ShapeOk, BlocksInMcu, CompOk, RowIn, ColIn;
    var i, col, y, x := Parts(s, c, m, o);
    InterleavedScan(s, i, col, k, y, x);
  }

  /** The rows and columns of MCU m and of offset o. */
  lemma Parts(s: ScanShape, c: Component, m: nat, o: nat) returns (i: nat, col: nat, y: nat, x: nat)
    requires s.across > 0 && c.h > 0 && c.v > 0 && m < s.down * s.across && o < c.v * c.h
    ensures i < s.down && col < s.across && m == i * s.across + col && y < c.v && x < c.h && o == y * c.h + x
    ensures RowIn(s, c, m, o) == i * c.v + y && ColIn(s, c, m, o) == col * c.h + x
  {
    Position(s, c, m, o);
    Split(m, s.across);
    Split(o, c.h);
    i, col, y, x := m / s.across, m % s.across, o / c.h, o % c.h;
  }

  lemma DivMod(n: nat, a: nat, d: nat) returns (q: nat, r: nat)
    requires n < a * d && d > 0
    ensures q < a && r < d && n == q * d + r
  {
    q, r := n / d, n % d;
    Split(n, d);
    NotBeyond(q, r, a, d);
  }
}
