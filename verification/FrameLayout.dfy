/** What follows from a frame header: the sizes of the components in blocks, and how the
    blocks of any scan are arranged in MCUs. Encoder and decoder compute the same. */
module FrameLayout {
  import opened AcCoding
  import opened Rounding
  import opened Markers
  import opened McuAssembly
  import opened CoefController
  import opened BlockLayouts
  import R = Reconstruction

  const MAX_SAMP_FACTOR: nat := 4

  /** What initial_setup checks. */
  predicate Sizable(f: Frame) {
    f.height > 0 && f.width > 0 && |f.comps| > 0 &&
    forall i :: 0 <= i < |f.comps| ==> 0 < f.comps[i].h <= MAX_SAMP_FACTOR && 0 < f.comps[i].v <= MAX_SAMP_FACTOR
  }

  /** max_h_samp_factor */
  function MaxH(comps: seq<FrameComp>): (r: nat)
    ensures r > 0 && forall i :: 0 <= i < |comps| ==> comps[i].h <= r
  {
    if comps == [] then 1
    else
      var l := |comps| - 1;
      assert forall i :: 0 <= i < l ==> comps[..l][i] == comps[i];
      if comps[l].h > MaxH(comps[..l]) then comps[l].h else MaxH(comps[..l])
  }

  /** max_v_samp_factor */
  function MaxV(comps: seq<FrameComp>): (r: nat)
    ensures r > 0 && forall i :: 0 <= i < |comps| ==> comps[i].v <= r
  {
    if comps == [] then 1
    else
      var l := |comps| - 1;
      assert forall i :: 0 <= i < l ==> comps[..l][i] == comps[i];
      if comps[l].v > MaxV(comps[..l]) then comps[l].v else MaxV(comps[..l])
  }

  function ZeroBlock(): Block {
    seq(64, _ => 0)
  }

  /** A component of the frame, with blank blocks. */
  function CompOf(f: Frame, ci: nat): (c: Component)
    requires Sizable(f) && ci < |f.comps|
    ensures McuAssembly.Sized(c, f.width, f.height, MaxH(f.comps), MaxV(f.comps))
    ensures c.h == f.comps[ci].h && c.v == f.comps[ci].v
  {
    var x := f.comps[ci];
    var w, h := CeilDiv(f.width * x.h, MaxH(f.comps) * DCTSIZE), CeilDiv(f.height * x.v, MaxV(f.comps) * DCTSIZE);
    Component(x.h, x.v, w, h, seq(h, _ => seq(w, _ => ZeroBlock())))
  }

  /** MCUs per row of an interleaved scan. */
  function Across(f: Frame): nat {
    CeilDiv(f.width, MaxH(f.comps) * DCTSIZE)
  }

  /** total_iMCU_rows */
  function Down(f: Frame): nat {
    CeilDiv(f.height, MaxV(f.comps) * DCTSIZE)
  }

  /** Blocks of a component that belong to the image. */
  function Live(f: Frame, ci: nat): nat
    requires Sizable(f) && ci < |f.comps|
  {
    CompOf(f, ci).height * CompOf(f, ci).width
  }

  function Times(a: nat, b: nat): nat {
    a * b
  }

  /** And room for those that fill up MCUs. */
  function Room(f: Frame, ci: nat): nat
    requires Sizable(f) && ci < |f.comps|
  {
    Live(f, ci) + Times(Times(Down(f), f.comps[ci].v), Times(Across(f), f.comps[ci].h))
  }

  function Lives(f: Frame): (r: seq<nat>)
    requires Sizable(f)
    ensures |r| == |f.comps|
  {
    seq(|f.comps|, ci requires 0 <= ci < |f.comps| => Live(f, ci))
  }

  function Rooms(f: Frame): (r: seq<nat>)
    requires Sizable(f)
    ensures |r| == |f.comps|
  {
    seq(|f.comps|, ci requires 0 <= ci < |f.comps| => Room(f, ci))
  }

  /** The components of a scan. */
  predicate CurOk(f: Frame, cur: seq<nat>) {
    |cur| > 0 && forall i :: 0 <= i < |cur| ==> cur[i] < |f.comps|
  }

  function ShapeOf(f: Frame, cur: seq<nat>): (s: ScanShape)
    requires Sizable(f) && CurOk(f, cur)
    ensures |s.comps| == |cur| && forall i :: 0 <= i < |cur| ==> s.comps[i] == CompOf(f, cur[i])
  {
    ScanShape(seq(|cur|, i requires 0 <= i < |cur| => CompOf(f, cur[i])),
              if |cur| > 1 then Across(f) else CompOf(f, cur[0]).width, Down(f))
  }

  lemma ShapeFits(f: Frame, cur: seq<nat>)
    requires Sizable(f) && CurOk(f, cur)
    ensures ShapeOk(ShapeOf(f, cur)) && forall i :: 0 <= i < |cur| ==> CompOk(CompOf(f, cur[i]))
  {
    hide CompOf, MaxH, MaxV;
    var s := ShapeOf(f, cur);
    ImageFits(s, f.width, f.height, MaxH(f.comps), MaxV(f.comps));
    assert forall i :: 0 <= i < |cur| ==> Fits(s, s.comps[i]);
  }

  /** Blocks per MCU do not exceed the limit of an interleaved scan. */
  ghost predicate McuFits(f: Frame, cur: seq<nat>)
    requires Sizable(f) && CurOk(f, cur)
  {
    |cur| > 1 ==> CoefController.ScanOk(ShapeOf(f, cur))
  }

  datatype Arrangement = Arrangement(membership: seq<nat>, layout: seq<seq<nat>>)

  /** The number of block b of MCU m in its component. */
  function NumberOf(s: ScanShape, members: seq<nat>, m: nat, b: nat): nat
    requires s.across > 0 && b < |members| && forall i :: 0 <= i < |members| ==> members[i] < |s.comps|
    requires forall ci :: 0 <= ci < |s.comps| ==> s.comps[ci].h > 0 && s.comps[ci].v > 0
  {
    var k := members[b];
    var first := BlocksInMcu(s, k);
    NumberIn(s, s.comps[k], m, if b < first then 0 else b - first)
  }

  /** per_scan_setup: which blocks make up the MCUs of a scan. */
  ghost function Arrange(f: Frame, cur: seq<nat>): Arrangement
    requires Sizable(f) && CurOk(f, cur) && McuFits(f, cur)
  {
    if |cur| == 1 then Arrangement([0], seq(Live(f, cur[0]), m => [m]))
    else
      var s := ShapeOf(f, cur);
      var members := MembershipOf(s, |cur|);
      Members(s, |cur|);
      Arrangement(members, seq(s.down * s.across, m requires 0 <= m < s.down * s.across =>
        seq(|members|, b requires 0 <= b < |members| => NumberOf(s, members, m, b))))
  }

  lemma {:induction false} Members(s: ScanShape, n: nat)
    requires CoefController.ScanOk(s) && n <= |s.comps|
    ensures s.across > 0 && forall i :: 0 <= i < |MembershipOf(s, n)| ==> MembershipOf(s, n)[i] < n
  {
    if n > 0 {
      Members(s, n - 1);
    }
  }

  /** The pass has the arrangement that follows from the frame. */
  ghost predicate Arranged(f: Frame, ps: R.Pass, cur: seq<nat>) {
    Sizable(f) && CurOk(f, cur) && McuFits(f, cur) && |ps.info.comps| == |cur| &&
    (forall i :: 0 <= i < |cur| ==> ps.info.comps[i] == cur[i]) &&
    Arrangement(ps.membership, ps.layout) == Arrange(f, cur)
  }

  lemma RoomEnough(f: Frame, ci: nat)
    requires Sizable(f) && ci < |f.comps|
    ensures Lives(f)[ci] <= Rooms(f)[ci]
  {
    hide CompOf, Across, Down;
  }

  lemma ArrangedOk(f: Frame, ps: R.Pass, cur: seq<nat>)
    requires Arranged(f, ps, cur) && R.PassShaped(|f.comps|, ps)
    ensures R.LayoutOk(|f.comps|, ps, Rooms(f), Lives(f))
  {
    hide R.LayoutOk, Room, Live, Across, Down;
    forall ci | 0 <= ci < |f.comps| ensures Lives(f)[ci] <= Rooms(f)[ci] {
      RoomEnough(f, ci);
    }
    if |cur| == 1 {
      RasterCase(f, ps, cur);
    } else {
      InterleavedCase(f, ps, cur);
    }
  }

  lemma RasterCase(f: Frame, ps: R.Pass, cur: seq<nat>)
    requires Arranged(f, ps, cur) && R.PassShaped(|f.comps|, ps) && |cur| == 1
    requires forall i :: 0 <= i < |f.comps| ==> Lives(f)[i] <= Rooms(f)[i]
    ensures R.LayoutOk(|f.comps|, ps, Rooms(f), Lives(f))
  {
    hide R.LayoutOk, CompOf;
    var c := CompOf(f, cur[0]);
    assert ps.info.comps == [cur[0]];
    RasterLayoutOk(|f.comps|, ps, Rooms(f), Lives(f), cur[0], c);
  }

  lemma InterleavedCase(f: Frame, ps: R.Pass, cur: seq<nat>)
    requires Arranged(f, ps, cur) && R.PassShaped(|f.comps|, ps) && |cur| > 1
    requires forall i :: 0 <= i < |f.comps| ==> Lives(f)[i] <= Rooms(f)[i]
    ensures R.LayoutOk(|f.comps|, ps, Rooms(f), Lives(f))
  {
    var s := ShapeOf(f, cur);
    InterleavedArranged(f, ps, cur);
    hide R.LayoutOk, CompOf, InterleavedLayout, Arrange;
    forall k | 0 <= k < |s.comps| ensures RoomFor(ps, s, Rooms(f), Lives(f), k) {
      assert s.comps[k] == CompOf(f, cur[k]);
    }
    InterleavedLayoutOk(|f.comps|, ps, s, Rooms(f), Lives(f));
  }

  lemma LayoutAt(f: Frame, cur: seq<nat>, m: nat, b: nat)
    requires Sizable(f) && CurOk(f, cur) && McuFits(f, cur) && |cur| > 1
    ensures var s, a := ShapeOf(f, cur), Arrange(f, cur);
            a.membership == MembershipOf(s, |cur|) && |a.layout| == s.down * s.across && s.across > 0 &&
            (forall i :: 0 <= i < |a.membership| ==> a.membership[i] < |cur|) &&
            (m < |a.layout| ==> |a.layout[m]| == |a.membership|) &&
            (m < |a.layout| && b < |a.membership| ==> a.layout[m][b] == NumberOf(s, a.membership, m, b))
  {
    hide CompOf, MembershipOf, NumberOf, CoefController.ScanOk, ShapeOf;
    Members(ShapeOf(f, cur), |cur|);
  }

  lemma InLayoutAt(f: Frame, ps: R.Pass, cur: seq<nat>, m: nat, k: nat, o: nat)
    requires Arranged(f, ps, cur) && |cur| > 1
    requires m < |ps.layout| && k < |cur| && o < CompOf(f, cur[k]).v * CompOf(f, cur[k]).h
    ensures InLayout(ps, ShapeOf(f, cur), m, k, o)
  {
    hide CompOf, MembershipOf, BlocksInMcu, NumberIn, Arrange, ShapeOf;
    var s := ShapeOf(f, cur);
    MemberAt(s, |cur|, k, o);
    LayoutAt(f, cur, m, BlocksInMcu(s, k) + o);
  }

  lemma InterleavedArranged(f: Frame, ps: R.Pass, cur: seq<nat>)
    requires Arranged(f, ps, cur) && |cur| > 1
    ensures InterleavedLayout(ps, ShapeOf(f, cur))
  {
    var s := ShapeOf(f, cur);
    LayoutAt(f, cur, 0, 0);
    assert CoefController.ScanOk(s) && Interleaved(s) && |ps.info.comps| == |s.comps| && ps.membership == MembershipOf(s, |s.comps|);
    assert |ps.layout| == s.down * s.across;
    hide CompOf, MembershipOf, BlocksInMcu, InLayout, Arrange;
    forall m: nat, k: nat, o: nat | m < |ps.layout| && k < |s.comps| && o < s.comps[k].v * s.comps[k].h
      ensures InLayout(ps, s, m, k, o)
    {
      InLayoutAt(f, ps, cur, m, k, o);
    }
  }

  // ----- no component of a scan is without blocks -----

  lemma OneBlockAtLeast(f: Frame, cur: seq<nat>)
    requires Sizable(f) && CurOk(f, cur) && |cur| == 1
    ensures Live(f, cur[0]) > 0
  {
    ShapeFits(f, cur);
    hide CompOf;
    var c := CompOf(f, cur[0]);
    assert CompOk(c);
  }

  lemma SomeMember(f: Frame, cur: seq<nat>, k: nat)
    requires Sizable(f) && CurOk(f, cur) && McuFits(f, cur) && |cur| > 1 && k < |cur|
    ensures k in MembershipOf(ShapeOf(f, cur), |cur|)
  {
    hide CompOf, MembershipOf, BlocksInMcu;
    var s := ShapeOf(f, cur);
    assert s.comps[k].v * s.comps[k].h > 0;
    MemberAt(s, |cur|, k, 0);
  }

  lemma SomeMcus(f: Frame, cur: seq<nat>)
    requires Sizable(f) && CurOk(f, cur) && McuFits(f, cur) && |cur| > 1
    ensures ShapeOf(f, cur).down * ShapeOf(f, cur).across > 0
  {
    hide CompOf;
    ShapeFits(f, cur);
  }
}
