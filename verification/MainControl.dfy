/** The main buffer controller of the decompressor when upsampling needs context rows
    (jdmainct.c). One component is modelled; the others are treated alike. */
module MainControl {
  import opened Bits
  import opened MainPointers
  import opened RowGroups

  datatype CtxState = PrepareForImcu | ProcessImcu | PostponedRow

  /** An image of total iMCU rows of M row groups. */
  datatype Env = Env(g: Image, M: nat, total: nat)

  /** The workspace and the two pointer lists. */
  datatype Mem = Mem(ws: seq<int>, x0: seq<int>, x1: seq<int>) {
    function X(which: nat): seq<int> {
      if which == 0 then x0 else x1
    }
  }

  /** The controller's fields; the sample rows delivered so far, the next row to show,
      and the list index at which the current row group's surroundings start. */
  datatype Ctl = Ctl(which: nat, full: bool, state: CtxState, ctr: nat, avail: nat, imcu: nat, fed: nat, next: nat, at: nat)

  ghost predicate EnvOk(e: Env) {
    e.M >= 2 && ImageOk(e.g) && e.total > 0 && e.g.last == Rows(e.total - 1, e.g.z.B) &&
    Rows(e.M - 1, e.g.z.R) == e.g.z.B - e.g.z.R && Rows(e.M, e.g.z.R) == e.g.z.B &&
    Rows(e.M + 1, e.g.z.R) == e.g.z.C - e.g.z.R && Rows(e.M + 2, e.g.z.R) == e.g.z.C
  }

  ghost predicate MemOk(e: Env, m: Mem) {
    |m.ws| == e.g.z.C && |m.x0| == |m.x1| == e.g.z.C + 2 * e.g.z.R
  }

  ghost predicate CtlOk(e: Env, c: Ctl) {
    c.which <= 1 && c.imcu <= e.total && c.fed == Rows(c.imcu, e.g.z.B)
  }

  /** The lists between iMCU rows: special until the first one is done. */
  ghost predicate Lists(e: Env, m: Mem, c: Ctl) {
    if c.imcu == 0 || (c.imcu == 1 && c.state != PostponedRow) then
      c.which == 0 && Top(e.g.z, m.x0) && Normal(e.g.z, 1, m.x1, e.g.z.R, e.g.z.C + e.g.z.R)
    else
      Normal(e.g.z, 0, m.x0, 0, e.g.z.C + 2 * e.g.z.R) && Normal(e.g.z, 1, m.x1, 0, e.g.z.C + 2 * e.g.z.R)
  }

  /** The current iMCU row is in the workspace, below the row group before it. */
  ghost predicate Loaded(e: Env, m: Mem, c: Ctl) {
    Shows(e.g.z, m.X(c.which), m.ws, if c.imcu == 1 then e.g.z.R else 0, e.g.z.R + e.g.z.B, c.fed - e.g.z.B - e.g.z.R)
  }

  /** The row groups from the current one on can be shown. */
  ghost predicate Showable(e: Env, m: Mem, c: Ctl) {
    c.ctr <= c.avail && c.at == Rows(c.ctr, e.g.z.R) &&
    var hi := Rows(c.avail, e.g.z.R) + 2 * e.g.z.R;
    if c.state == PostponedRow then Shows(e.g.z, m.X(c.which), m.ws, c.at, hi, c.fed - e.g.z.B - e.g.z.R - e.g.z.C)
    else ShowsEdged(e.g, m.X(c.which), m.ws, c.at, hi, c.fed - e.g.z.B - e.g.z.R)
  }

  ghost predicate InPrepare(e: Env, m: Mem, c: Ctl) {
    Lists(e, m, c) &&
    if c.full then c.imcu > 0 && Loaded(e, m, c) && c.next == c.fed - e.g.z.B else c.imcu == 0 && c.next == 0
  }

  ghost predicate InProcess(e: Env, m: Mem, c: Ctl) {
    c.full && c.imcu > 0 && Showable(e, m, c) && c.next == c.fed - e.g.z.B + c.at &&
    if c.imcu < e.total then Lists(e, m, c) && Loaded(e, m, c) && c.avail == e.M - 1
    else e.g.height <= c.fed - e.g.z.B + Rows(c.avail, e.g.z.R) < e.g.height + e.g.z.R
  }

  ghost predicate InPostponed(e: Env, m: Mem, c: Ctl) {
    if c.imcu == e.total && !c.full then c.next >= e.g.height
    else
      Lists(e, m, c) && c.avail == e.M + 2 &&
      if c.full then
        c.imcu > 1 && Loaded(e, m, c) && Showable(e, m, c) && c.ctr >= e.M + 1 &&
        c.next == c.fed - e.g.z.B - e.g.z.R + (c.at - (e.g.z.C - e.g.z.R))
      else
        c.imcu > 0 && c.ctr == e.M + 1 && c.at == e.g.z.C - e.g.z.R && c.next == c.fed - e.g.z.R &&
        Shows(e.g.z, m.X(c.which), m.ws, e.g.z.B + e.g.z.R, e.g.z.C + e.g.z.R, c.fed - e.g.z.B - 3 * e.g.z.R)
  }

  /** The invariant of the state machine. */
  ghost predicate Good(e: Env, m: Mem, c: Ctl) {
    EnvOk(e) && MemOk(e, m) && CtlOk(e, c) &&
    match c.state
    case PrepareForImcu => InPrepare(e, m, c)
    case ProcessImcu => InProcess(e, m, c)
    case PostponedRow => InPostponed(e, m, c)
  }

  // ----- every step keeps the invariant -----

  lemma AfterRead(e: Env, m: Mem, c: Ctl, ws: seq<int>)
    requires Good(e, m, c) && !c.full && c.next < e.g.height && |ws| == |m.ws|
    requires Shows(e.g.z, m.X(c.which), ws, e.g.z.R, e.g.z.R + e.g.z.B, c.fed - e.g.z.R)
    requires c.imcu > 0 ==> Shows(e.g.z, m.X(c.which), ws, 0, e.g.z.R + e.g.z.B, c.fed - e.g.z.R)
    requires c.imcu > 0 ==> Shows(e.g.z, m.X(c.which), ws, e.g.z.C - e.g.z.R, e.g.z.C + 2 * e.g.z.R, c.fed - e.g.z.R - e.g.z.C)
    ensures Good(e, m.(ws := ws), c.(fed := c.fed + e.g.z.B, imcu := c.imcu + 1, full := true))
  {
    hide Rows, Normal, Top, Shows, ShowsEdged;
    RowsNext(0, e.g.z.B);
    MoreRows(c.imcu, e.total, e.g.z.B, c.next, e.g.height);
  }

  lemma BeforeRead(e: Env, m: Mem, c: Ctl)
    requires Good(e, m, c) && !c.full && c.next < e.g.height
    ensures c.which <= 1 && SizesOk(e.g.z) && Normal(e.g.z, c.which, m.X(c.which), e.g.z.R, e.g.z.C + e.g.z.R)
    ensures c.imcu > 0 ==> Normal(e.g.z, c.which, m.X(c.which), 0, e.g.z.C + 2 * e.g.z.R)
    ensures c.imcu > 0 ==>
      Shows(e.g.z, m.X(c.which), m.ws, e.g.z.B + e.g.z.R, e.g.z.C + e.g.z.R, c.fed - e.g.z.B - 3 * e.g.z.R)
  {
    hide Rows, Normal, Top, Shows, ShowsEdged;
    TopIsNormal(e.g.z, m.x0, m.x1);
  }

  /** What the postprocessor finds around the next row group is the row group in its
      place, and showing it is one step. */
  lemma AfterPost(e: Env, m: Mem, c: Ctl)
    requires Good(e, m, c) && c.full && c.state != PrepareForImcu && c.ctr < c.avail
    ensures Samples(m.X(c.which), m.ws, c.at, 3 * e.g.z.R) == Window(e.g, c.next) && c.next < e.g.height
    ensures Good(e, m, c.(ctr := c.ctr + 1, next := c.next + e.g.z.R, at := c.at + e.g.z.R))
  {
    hide Rows, Lists, Loaded, Samples, Window, Showable;
    StillListed(e, m, c);
    ShowableAt(e, m, c);
    RowsNext(c.ctr, e.g.z.R);
    RowsMono(c.ctr + 1, c.avail, e.g.z.R);
    Reached(c.imcu, e.total, e.g.z.B);
    if c.state == PostponedRow {
      assert c.ctr == e.M + 1;
      PostponedShown(e, m, c);
    } else {
      ProcessShown(e, m, c);
    }
  }

  lemma ShowableAt(e: Env, m: Mem, c: Ctl)
    requires Showable(e, m, c)
    ensures c.ctr <= c.avail && c.at == Rows(c.ctr, e.g.z.R)
  {
    hide Rows, Shows, ShowsEdged;
  }

  lemma PostponedShown(e: Env, m: Mem, c: Ctl)
    requires SizesOk(e.g.z) && Showable(e, m, c) && c.state == PostponedRow && c.avail == c.ctr + 1 && c.next >= e.g.z.R
    requires c.next == c.fed - e.g.z.B - e.g.z.R + (c.at - (e.g.z.C - e.g.z.R)) && c.at == e.g.z.C - e.g.z.R
    requires c.next + e.g.z.R == e.g.last || c.next + 2 * e.g.z.R <= e.g.height
    ensures Samples(m.X(c.which), m.ws, c.at, 3 * e.g.z.R) == Window(e.g, c.next)
    ensures Showable(e, m, c.(ctr := c.ctr + 1, next := c.next + e.g.z.R, at := c.at + e.g.z.R))
  {
    hide Rows, Shows, Samples, Window;
    RowsNext(c.ctr, e.g.z.R);
    ShowsWindow(e.g, m.X(c.which), m.ws, c.at, c.next, c.fed - e.g.z.B - e.g.z.R - e.g.z.C);
    ShowsLess(e.g.z, m.X(c.which), m.ws, c.at, e.g.z.R, Rows(c.avail, e.g.z.R) + 2 * e.g.z.R, c.fed - e.g.z.B - e.g.z.R - e.g.z.C);
  }

  lemma ProcessShown(e: Env, m: Mem, c: Ctl)
    requires SizesOk(e.g.z) && Showable(e, m, c) && c.state == ProcessImcu && c.ctr < c.avail
    requires c.next == c.fed - e.g.z.B + c.at && c.next + e.g.z.R != e.g.last
    ensures Samples(m.X(c.which), m.ws, c.at, 3 * e.g.z.R) == Window(e.g, c.next)
    ensures Showable(e, m, c.(ctr := c.ctr + 1, next := c.next + e.g.z.R, at := c.at + e.g.z.R))
  {
    hide Rows, ShowsEdged, Samples, Window;
    RowsNext(c.ctr, e.g.z.R);
    RowsMono(c.ctr + 1, c.avail, e.g.z.R);
    var hi := Rows(c.avail, e.g.z.R) + 2 * e.g.z.R;
    EdgedLess(e.g, m.X(c.which), m.ws, c.at, hi, c.at, c.at + 3 * e.g.z.R, c.fed - e.g.z.B - e.g.z.R);
    EdgedLess(e.g, m.X(c.which), m.ws, c.at, hi, c.at + e.g.z.R, hi, c.fed - e.g.z.B - e.g.z.R);
    EdgedWindow(e.g, m.X(c.which), m.ws, c.at, c.next, c.fed - e.g.z.B - e.g.z.R);
  }

  lemma StillListed(e: Env, m: Mem, c: Ctl)
    ensures var c1 := c.(ctr := c.ctr + 1, next := c.next + e.g.z.R, at := c.at + e.g.z.R);
            Lists(e, m, c1) == Lists(e, m, c) && Loaded(e, m, c1) == Loaded(e, m, c)
  {
  }

  lemma ShowsLess(z: Sizes, x: seq<int>, ws: seq<int>, at: nat, n: nat, hi: int, off: int)
    requires Shows(z, x, ws, at, hi, off)
    ensures Shows(z, x, ws, at + n, hi, off)
  {
  }

  lemma EdgedLess(g: Image, x: seq<int>, ws: seq<int>, lo: nat, hi: nat, lo1: nat, hi1: nat, off: int)
    requires ShowsEdged(g, x, ws, lo, hi, off) && lo <= lo1 && hi1 <= hi
    ensures ShowsEdged(g, x, ws, lo1, hi1, off)
  {
  }

  /** The row groups of an iMCU row, but for the last, can be shown. */
  lemma AfterPrepare(e: Env, m: Mem, c: Ctl)
    requires Good(e, m, c) && c.full && c.state == PrepareForImcu && c.imcu < e.total
    ensures Good(e, m, c.(state := ProcessImcu, ctr := 0, at := 0, avail := e.M - 1))
  {
    hide Rows, Normal, Top, Shows, ShowsEdged;
    RowsNext(0, e.g.z.R);
    Reached(c.imcu, e.total, e.g.z.B);
    EdgedRows(e.g, m.X(c.which), m.ws, c.imcu == 1, c.fed - e.g.z.B - e.g.z.R);
  }

  /** The list x repeats the last real row of the image. */
  ghost predicate Bottomed(g: Image, before: seq<int>, x: seq<int>) {
    var n := g.z.R + (g.height - g.last);
    ImageOk(g) && |x| == |before| == g.z.C + 2 * g.z.R && x[..n] == before[..n] &&
    forall k :: n <= k < n + 2 * g.z.R ==> x[k] == before[n - 1]
  }

  function SetX(m: Mem, which: nat, x: seq<int>): Mem {
    if which == 0 then m.(x0 := x) else m.(x1 := x)
  }

  lemma AfterBottom(e: Env, m: Mem, c: Ctl, x: seq<int>, avail: nat)
    requires Good(e, m, c) && c.full && c.state == PrepareForImcu && c.imcu == e.total
    requires Bottomed(e.g, m.X(c.which), x) && e.g.height <= e.g.last + Rows(avail, e.g.z.R) < e.g.height + e.g.z.R
    ensures Good(e, SetX(m, c.which, x), c.(state := ProcessImcu, ctr := 0, at := 0, avail := avail))
  {
    hide Rows, Normal, Shows, ShowsEdged, Top;
    RowsNext(0, e.g.z.R);
    RowsNext(e.total - 1, e.g.z.B);
    Reached(c.imcu, e.total, e.g.z.B);
    BottomEdged(e.g, m.X(c.which), x, m.ws, e.g.height - e.g.last, Rows(avail, e.g.z.R) + 2 * e.g.z.R, c.imcu == 1, c.fed - e.g.z.B - e.g.z.R);
  }

  /** The list is set to its normal state if it had the right rows before. */
  ghost predicate Wrapped(z: Sizes, which: nat, before: seq<int>, x: seq<int>) {
    |x| == |before| && (Normal(z, which, before, z.R, z.C + z.R) ==> Normal(z, which, x, 0, z.C + 2 * z.R))
  }

  lemma AfterFinish(e: Env, m: Mem, c: Ctl, x0: seq<int>, x1: seq<int>)
    requires Good(e, m, c) && c.state == ProcessImcu && c.ctr >= c.avail
    requires if c.imcu == 1 then Wrapped(e.g.z, 0, m.x0, x0) && Wrapped(e.g.z, 1, m.x1, x1) else x0 == m.x0 && x1 == m.x1
    ensures Good(e, Mem(m.ws, x0, x1),
                 c.(which := 1 - c.which, full := false, ctr := e.M + 1, at := e.g.z.C - e.g.z.R, avail := e.M + 2, state := PostponedRow))
  {
    hide Rows, Normal, Shows, ShowsEdged, Top;
    Reached(c.imcu, e.total, e.g.z.B);
    TopIsNormal(e.g.z, m.x0, m.x1);
    if c.imcu < e.total {
      TopIsNormal(e.g.z, x0, x1);
      var x := if c.which == 0 then x0 else x1;
      if c.imcu == 1 {
        StillShows(e.g.z, 0, m.x0, x0, m.ws, c.fed - e.g.z.B - e.g.z.R);
      }
      OtherList(e.g.z, c.which, x, if c.which == 0 then x1 else x0, m.ws, c.imcu == 1, c.fed - e.g.z.B - e.g.z.R);
    }
  }

  lemma AfterPostponed(e: Env, m: Mem, c: Ctl)
    requires Good(e, m, c) && c.full && c.state == PostponedRow && c.ctr >= c.avail
    ensures Good(e, m, c.(state := PrepareForImcu))
  {
    hide Rows, Normal, Shows, ShowsEdged, Top;
  }

  // ----- the controller -----

  /** Stores the rows fed, fed + 1, ... of an iMCU row through a pointer list. */
  method StoreImcuRow(ws: array<int>, x: array<int>, rgroup: nat, rows: nat, fed: nat, ghost z: Sizes, ghost which: nat, ghost more: bool)
    requires SizesOk(z) && rgroup == z.R && rows == z.B && which <= 1 && ws != x && ws.Length == z.C && x.Length == z.C + 2 * z.R
    requires Normal(z, which, x[..], z.R, z.C + z.R)
    requires more ==> Normal(z, which, x[..], 0, z.C + 2 * z.R)
    requires more ==> Shows(z, x[..], ws[..], z.B + z.R, z.C + z.R, fed - z.B - 3 * z.R)
    modifies ws
    ensures Shows(z, x[..], ws[..], z.R, z.R + z.B, fed - z.R)
    ensures more ==> Shows(z, x[..], ws[..], 0, z.R + z.B, fed - z.R)
    ensures more ==> Shows(z, x[..], ws[..], z.C - z.R, z.C + 2 * z.R, fed - z.R - z.C)
  {
    hide Ptr, Shows, Normal;
    ghost var off := fed - z.B - 3 * z.R;
    NothingStored(z, x[..], ws[..], fed - z.R);
    for k := 0 to rows
      invariant Shows(z, x[..], ws[..], z.R, z.R + k, fed - z.R)
      invariant more ==> Shows(z, x[..], ws[..], z.B + z.R, z.C + z.R, off)
    {
      StoreRow(z, which, x[..], ws[..], rgroup + k, fed + k, more, off, fed - z.R);
      ghost var before := ws[..];
      var row := x[rgroup + k];
      assert row == x[..][rgroup + k];
      ws[row] := fed + k;
      assert ws[..] == before[x[rgroup + k] := fed + k];
    }
    RowLoaded(z, which, x[..], ws[..], fed, more);
  }

  // ----- progress -----

  function Min(a: int, b: int): int {
    if a < b then a else b
  }

  /** Row groups shown once k iMCU rows are finished: all but the last of them, which needs
      the row group below; in the end, all row groups of the image. */
  function GroupsBy(e: Env, k: nat): int
    requires e.g.z.R > 0
  {
    if k < e.total then k * e.M - 1 else (e.g.height - 1) / e.g.z.R + 1
  }

  /** Rows in k iMCU rows and n row groups. */
  lemma GroupRows(M: nat, R: nat, k: nat, n: int)
    requires k * M + n >= 0
    ensures Rows(k * M + n, R) == Rows(k, Rows(M, R)) + n * R
  {
    Distribute(k * M, n, R);
    Regroup(k, M, R);
  }

  lemma Distribute(a: int, b: int, c: int)
    ensures (a + b) * c == a * c + b * c
  {
  }

  lemma Regroup(a: int, b: int, c: int)
    ensures (a * b) * c == a * (b * c)
  {
  }

  /** As many row groups as it takes for all rows. */
  lemma Ceiling(n: nat, R: nat, h: nat)
    requires R > 0 && h > 0 && h <= Rows(n, R) < h + R
    ensures n == (h - 1) / R + 1
  {
    if n > 0 {
      Distribute(n - 1, 1, R);
      DivBounds(h - 1, R, n - 1);
    }
  }

  lemma SameGroups(n: int, k: int, R: nat)
    requires R > 0 && n * R == k * R
    ensures n == k
  {
    if n < k { MulLe(n + 1, k, R); Distribute(n, 1, R); }
    if k < n { MulLe(k + 1, n, R); Distribute(k, 1, R); }
  }

  /** The row groups still to be shown for the current iMCU row, when n have been shown. */
  ghost predicate At(e: Env, c: Ctl, n: nat)
    requires e.g.z.R > 0
  {
    match c.state
    case PrepareForImcu => if c.full then c.imcu > 0 && n < GroupsBy(e, c.imcu) else c.imcu == 0 && n == 0
    case ProcessImcu => c.full && c.imcu > 0 && c.ctr <= c.avail && n + (c.avail - c.ctr) == GroupsBy(e, c.imcu)
    case PostponedRow =>
      if c.full then c.imcu > 1 && c.ctr <= c.avail <= c.ctr + 1 && n + (c.avail - c.ctr) < GroupsBy(e, c.imcu)
      else c.imcu > 0 && (c.imcu < e.total ==> c.ctr < c.avail && n == GroupsBy(e, c.imcu))
  }

  /** An iMCU row has row groups of its own to show. */
  lemma SomethingLeft(e: Env, k: nat)
    requires EnvOk(e) && 0 < k <= e.total
    ensures (k - 1) * e.M < GroupsBy(e, k)
  {
    hide Rows;
    Earlier(k, e.M, e.g.z.B);
    if k == e.total {
      MulNonneg(k - 1, e.M);
      GroupRows(e.M, e.g.z.R, k - 1, 0);
      Above((k - 1) * e.M, e.g.z.R, e.g.height);
    }
  }

  lemma Above(n: nat, R: nat, h: nat)
    requires R > 0 && h > Rows(n, R)
    ensures (h - 1) / R >= n
  {
    var q := (h - 1) / R;
    if q < n {
      MulLe(q + 1, n, R);
      MulSucc(q, R);
    }
  }

  lemma PlaceOf(M: nat, R: nat, k: nat, j: int, n: nat)
    requires R > 0 && k * M + j >= 0 && Rows(n, R) == Rows(k, Rows(M, R)) + j * R
    ensures n == k * M + j
  {
    GroupRows(M, R, k, j);
    SameGroups(n, k * M + j, R);
  }

  lemma Earlier(k: nat, M: nat, B: nat)
    requires k > 0
    ensures Rows(k, B) == Rows(k - 1, B) + B && k * M == (k - 1) * M + M
  {
    RowsNext(k - 1, B);
    RowsNext(k - 1, M);
  }

  lemma WhereInProcess(e: Env, m: Mem, c: Ctl, n: nat)
    requires EnvOk(e) && CtlOk(e, c) && c.state == ProcessImcu && InProcess(e, m, c) && c.next == Rows(n, e.g.z.R)
    ensures At(e, c, n)
  {
    hide Lists, Loaded, Shows, ShowsEdged, Rows;
    Earlier(c.imcu, e.M, e.g.z.B);
    MulIsRows(c.ctr, e.g.z.R);
    MulNonneg(c.imcu - 1, e.M);
    PlaceOf(e.M, e.g.z.R, c.imcu - 1, c.ctr, n);
    SomethingLeft(e, c.imcu);
    if c.imcu == e.total {
      GroupRows(e.M, e.g.z.R, c.imcu - 1, c.avail);
      MulIsRows(c.avail, e.g.z.R);
      Ceiling((c.imcu - 1) * e.M + c.avail, e.g.z.R, e.g.height);
    }
  }

  lemma MulIsRows(n: nat, R: nat)
    ensures Rows(n, R) == n * R
  {
  }

  lemma MulNonneg(a: nat, b: nat)
    ensures a * b >= 0
  {
  }

  lemma NotLast(e: Env, k: nat)
    requires e.g.z.R > 0 && k < e.total
    ensures GroupsBy(e, k) == k * e.M - 1
  {
  }

  lemma WhereInPostponed(e: Env, m: Mem, c: Ctl, n: nat)
    requires EnvOk(e) && CtlOk(e, c) && c.state == PostponedRow && InPostponed(e, m, c) && c.next == Rows(n, e.g.z.R)
    ensures At(e, c, n)
  {
    hide Lists, Loaded, Shows, ShowsEdged, Rows, GroupsBy, Showable;
    if c.full {
      Earlier(c.imcu, e.M, e.g.z.B);
      Earlier(c.imcu - 1, e.M, e.g.z.B);
      MulNonneg(c.imcu - 2, e.M);
      ShowableAt(e, m, c);
      PlaceOf(e.M, e.g.z.R, c.imcu - 1, if c.ctr == c.avail then 0 else -1, n);
      SomethingLeft(e, c.imcu);
    } else if c.imcu < e.total {
      Earlier(c.imcu, e.M, e.g.z.B);
      MulNonneg(c.imcu - 1, e.M);
      PlaceOf(e.M, e.g.z.R, c.imcu, -1, n);
      NotLast(e, c.imcu);
    }
  }

  lemma WhereInPrepare(e: Env, m: Mem, c: Ctl, n: nat)
    requires EnvOk(e) && CtlOk(e, c) && c.state == PrepareForImcu && InPrepare(e, m, c) && c.next == Rows(n, e.g.z.R)
    ensures At(e, c, n)
  {
    hide Lists, Loaded, Shows, ShowsEdged, Rows;
    if c.full {
      Earlier(c.imcu, e.M, e.g.z.B);
      MulNonneg(c.imcu - 1, e.M);
      PlaceOf(e.M, e.g.z.R, c.imcu - 1, 0, n);
      SomethingLeft(e, c.imcu);
    } else {
      MulIsRows(n, e.g.z.R);
      SameGroups(n, 0, e.g.z.R);
    }
  }

  lemma StillToRead(e: Env, m: Mem, c: Ctl)
    requires Good(e, m, c) && !c.full && c.next < e.g.height
    ensures c.imcu < e.total
  {
    hide Lists, Loaded, Showable;
  }

  /** Where the invariant says the controller is. */
  lemma WhereItIs(e: Env, m: Mem, c: Ctl, n: nat)
    requires Good(e, m, c) && c.next == Rows(n, e.g.z.R)
    ensures e.g.z.R > 0 && At(e, c, n)
  {
    hide Lists, Loaded, Showable, Rows, At;
    match c.state {
      case PrepareForImcu => WhereInPrepare(e, m, c, n);
      case ProcessImcu => WhereInProcess(e, m, c, n);
      case PostponedRow => WhereInPostponed(e, m, c, n);
    }
  }

  class MainController {
    const rgroup: nat
    const M: nat
    const total: nat
    const height: nat
    /** Sample rows in an iMCU row. */
    const imcuHeight: nat
    ghost const e: Env
    const ws: array<int>
    const x0: array<int>
    const x1: array<int>
    var whichptr: nat
    var bufferFull: bool
    var state: CtxState
    var rowgroupCtr: nat
    var rowgroupsAvail: nat
    var imcuRowCtr: nat
    /** Sample rows the coefficient controller has delivered. */
    var fed: nat
    /** Sample rows the postprocessor has consumed. */
    var next: nat
    /** What the postprocessor has found around the row groups it consumed. */
    ghost var shown: seq<seq<int>>
    ghost var at: nat

    ghost function Control(): Ctl
      reads this
    {
      Ctl(whichptr, bufferFull, state, rowgroupCtr, rowgroupsAvail, imcuRowCtr, fed, next, at)
    }

    ghost function Memory(): Mem
      reads ws, x0, x1
    {
      Mem(ws[..], x0[..], x1[..])
    }

    ghost predicate Shape() {
      M >= 2 && rgroup > 0 && e.g.z == MakeSizes(rgroup, M) && imcuHeight == e.g.z.B && EnvOk(e) && e.M == M &&
      e.total == total && e.g.height == height &&
      ws != x0 && ws != x1 && x0 != x1 && ws.Length == e.g.z.C && x0.Length == x1.Length == e.g.z.C + 2 * e.g.z.R
    }

    ghost predicate Valid()
      reads this, ws, x0, x1
    {
      Shape() && Good(e, Memory(), Control()) && next == Rows(|shown|, e.g.z.R) && InOrder(e.g, shown)
    }

    /** start_pass_main for an image of the given height in iMCU rows of M row groups. */
    constructor (rgroup: nat, M: nat, total: nat, height: nat)
      requires M >= 2 && rgroup > 0 && total > 0
      requires Rows(total - 1, rgroup * M) < height <= Rows(total, rgroup * M)
      ensures Valid() && fresh({this, ws, x0, x1}) && shown == []
      ensures this.rgroup == rgroup && this.height == height && this.total == total && this.M == M
    {
      ghost var z := MakeSizes(rgroup, M);
      this.rgroup, this.M, this.total, this.height, imcuHeight := rgroup, M, total, height, rgroup * M;
      e := Env(Image(z, height, Rows(total - 1, z.B)), M, total);
      ws := new int[rgroup * (M + 2)](_ => 0);
      x0 := new int[rgroup * (M + 4)](_ => 0);
      x1 := new int[rgroup * (M + 4)](_ => 0);
      whichptr, bufferFull, state, rowgroupCtr, rowgroupsAvail, imcuRowCtr := 0, false, PrepareForImcu, 0, 0, 0;
      fed, shown, next, at := 0, [], 0, 0;
      new;
      ListLength(rgroup, M);
      SizesTimes(rgroup, M);
      hide Normal, Top, MakeSizes, Rows;
      MakeFunnyPointers(rgroup, M, z, x0, x1);
      RowsNext(total - 1, z.B);
      RowsNext(0, z.B);
      RowsNext(0, z.R);
    }

    /** Between calls: whatever could not be shown is still to be shown. */
    ghost predicate AtRest()
      reads this
    {
      bufferFull && state != PrepareForImcu ==> rowgroupCtr < rowgroupsAvail
    }

    /** Whatever the first calls, once the others can work all row groups are shown, each
        once and in order. */
    method ShowAll(script: seq<(bool, nat, bool, nat)>)
      requires Valid() && AtRest() && shown == []
      modifies this, ws, x0, x1
      ensures Valid() && InOrder(e.g, shown) && height <= Rows(|shown|, e.g.z.R) < height + e.g.z.R
    {
      hide Good, MakeSizes, InOrder, Rows;
      RowsNext(0, e.g.z.R);
      var i := 0;
      while next < height
        invariant Valid() && AtRest() && next < height + e.g.z.R
        decreases |script| - i, height - next
      {
        ghost var n := |shown|;
        if i < |script| {
          var (ready, take1, filled, take2) := script[i];
          ProcessData(ready, take1, filled, take2);
          i := i + 1;
        } else {
          ProcessData(true, 1, false, 1);
          RowsGrow(n, |shown|, e.g.z.R);
        }
        LastShown(e.g, shown, n);
      }
    }

    method ReadImcuRow()
      requires Valid() && !bufferFull && next < height
      modifies this`fed, this`imcuRowCtr, this`bufferFull, ws
      ensures Valid() && bufferFull && state == old(state) && imcuRowCtr == old(imcuRowCtr) + 1
    {
      hide MakeSizes, InOrder, Rows, Shows, Good, EnvOk;
      ghost var m, c := Memory(), Control();
      StoreRows(imcuHeight);
      AfterRead(e, m, c, ws[..]);
      fed := fed + imcuHeight;
      imcuRowCtr := imcuRowCtr + 1;
      bufferFull := true;
    }

    /** decompress_data stores an iMCU row through the current list. */
    method StoreRows(rows: nat)
      requires Valid() && !bufferFull && next < height && rows == e.g.z.B
      modifies ws
      ensures var x := Memory().X(whichptr);
        Shows(e.g.z, x, ws[..], e.g.z.R, e.g.z.R + e.g.z.B, fed - e.g.z.R) &&
        (imcuRowCtr > 0 ==> Shows(e.g.z, x, ws[..], 0, e.g.z.R + e.g.z.B, fed - e.g.z.R)) &&
        (imcuRowCtr > 0 ==> Shows(e.g.z, x, ws[..], e.g.z.C - e.g.z.R, e.g.z.C + 2 * e.g.z.R, fed - e.g.z.R - e.g.z.C))
    {
      SizeR(rgroup, M);
      hide MakeSizes, InOrder, Rows, Normal, Shows, Good, EnvOk;
      BeforeRead(e, Memory(), Control());
      var x := if whichptr == 0 then x0 else x1;
      StoreImcuRow(ws, x, rgroup, rows, fed, e.g.z, whichptr, imcuRowCtr > 0);
    }

    /** The postprocessor consumes a row group, which is found in its place. */
    method ShowOne()
      requires Valid() && bufferFull && state != PrepareForImcu && rowgroupCtr < rowgroupsAvail
      modifies this`rowgroupCtr, this`shown, this`next, this`at
      ensures Valid() && rowgroupCtr == old(rowgroupCtr) + 1 && |shown| == old(|shown|) + 1 && old(shown) <= shown
    {
      SizeR(rgroup, M);
      assert e.g.z.R == rgroup;
      hide Good, InOrder, Rows, Samples, MakeSizes, EnvOk, MainController.Shape;
      ghost var m, c := Memory(), Control();
      ghost var around := Samples(m.X(whichptr), m.ws, at, 3 * e.g.z.R);
      OneShown(e, m, c, shown, around);
      shown := shown + [around];
      rowgroupCtr := rowgroupCtr + 1;
      next := next + rgroup;
      at := at + e.g.z.R;
    }

    /** post_process_data, which consumes up to take of the row groups it is offered. */
    method Post(take: nat)
      requires Valid() && bufferFull && state != PrepareForImcu
      modifies this`rowgroupCtr, this`shown, this`next, this`at
      ensures Valid() && old(shown) <= shown
      ensures var n := Min(take, rowgroupsAvail - old(rowgroupCtr));
              rowgroupCtr == old(rowgroupCtr) + n && |shown| == old(|shown|) + n
    {
      CountersOk(e, Memory(), Control());
      hide Valid;
      var taken := 0;
      while taken < take && rowgroupCtr < rowgroupsAvail
        invariant Valid() && old(shown) <= shown && taken <= take && rowgroupCtr <= rowgroupsAvail
        invariant rowgroupCtr == old(rowgroupCtr) + taken && |shown| == old(|shown|) + taken
        decreases take - taken
      {
        ShowOne();
        taken := taken + 1;
      }
    }

    /** set_bottom_pointers: repeats the last real sample row, and counts the row groups
        with real rows. */
    method SetBottomPointers() returns (avail: nat)
      requires Shape()
      modifies if whichptr == 0 then x0 else x1
      ensures Bottomed(e.g, old(Memory().X(whichptr)), Memory().X(whichptr))
      ensures height <= e.g.last + Rows(avail, e.g.z.R) < height + e.g.z.R
    {
      SizesTimes(rgroup, M);
      SizeR(rgroup, M);
      hide MakeSizes, Rows;
      var rowsLeft: nat;
      rowsLeft, avail := CountLeft(height, rgroup, M, total, e.g.last);
      DuplicateLast(if whichptr == 0 then x0 else x1, rgroup, rowsLeft);
    }

    /** CTX_PREPARE_FOR_IMCU: the first M - 1 row groups can be shown, or all real ones
        if this is the last iMCU row. */
    method PrepareImcu()
      requires Valid() && bufferFull && state == PrepareForImcu
      modifies this`state, this`rowgroupCtr, this`rowgroupsAvail, this`at, x0, x1
      ensures Valid() && state == ProcessImcu && rowgroupCtr == 0
    {
      hide Good, MakeSizes, InOrder, Rows, Bottomed;
      ghost var m, c := Memory(), Control();
      rowgroupCtr, at := 0, 0;
      rowgroupsAvail := M - 1;
      ImcuCount(e, m, c);
      if imcuRowCtr == total {
        rowgroupsAvail := SetBottomPointers();
        AfterBottom(e, m, c, Memory().X(whichptr), rowgroupsAvail);
      } else {
        AfterPrepare(e, m, c);
      }
      state := ProcessImcu;
    }

    /** After the row groups of an iMCU row: the other list is next, where the last row
        group is still to be shown. */
    method FinishImcu()
      requires Valid() && state == ProcessImcu && rowgroupCtr >= rowgroupsAvail
      modifies this`whichptr, this`bufferFull, this`rowgroupCtr, this`rowgroupsAvail, this`state, this`at, x0, x1
      ensures Valid() && !bufferFull && state == PostponedRow
    {
      hide Good, MakeSizes, InOrder, Rows, Normal;
      ghost var m, c := Memory(), Control();
      ImcuCount(e, m, c);
      SizeR(rgroup, M);
      if imcuRowCtr == 1 {
        SetWraparound(rgroup, M, e.g.z, 0, x0);
        SetWraparound(rgroup, M, e.g.z, 1, x1);
      }
      AfterFinish(e, m, c, x0[..], x1[..]);
      whichptr := 1 - whichptr;
      bufferFull := false;
      rowgroupCtr, at := M + 1, e.g.z.C - e.g.z.R;
      rowgroupsAvail := M + 2;
      state := PostponedRow;
    }

    /** process_data_context_main. ready: the coefficient controller can deliver an iMCU
        row; take1, take2: how many row groups the postprocessor swallows; filled: the
        output buffer is exactly full after the first. */
    method ProcessData(ready: bool, take1: nat, filled: bool, take2: nat)
      requires Valid() && AtRest() && next < height
      modifies this, ws, x0, x1
      ensures Valid() && AtRest() && old(shown) <= shown
      ensures !old(bufferFull) && !ready ==> Control() == old(Control()) && shown == old(shown)
      ensures old(bufferFull) || ready ==> 0 < imcuRowCtr == old(imcuRowCtr) + (if old(bufferFull) then 0 else 1)
      ensures imcuRowCtr > 0 ==>
        |shown| <= GroupsBy(e, imcuRowCtr) && (!bufferFull && state == PostponedRow <==> |shown| == GroupsBy(e, imcuRowCtr))
      ensures (old(bufferFull) || ready) && old(state) != PostponedRow ==>
        |shown| == Min(GroupsBy(e, imcuRowCtr), old(|shown|) + take2)
      ensures (old(bufferFull) || ready) && old(state) == PostponedRow ==>
        |shown| == if take1 == 0 then old(|shown|) else if filled then old(|shown|) + 1
                   else Min(GroupsBy(e, imcuRowCtr), old(|shown|) + 1 + take2)
      ensures (old(bufferFull) || ready) && !filled && take1 >= 1 && old(|shown|) + take2 >= GroupsBy(e, imcuRowCtr) ==>
        !bufferFull && state == PostponedRow
      ensures (old(bufferFull) || ready) && take1 >= 1 && take2 >= 1 ==> |shown| > old(|shown|)
    {
      hide Good, MakeSizes, InOrder, Rows, GroupsBy;
      Now();
      if !bufferFull {
        StillToRead(e, Memory(), Control());
        if !ready {
          return;
        }
        ReadImcuRow();
        Now();
      }
      if state == PostponedRow {
        ShowPostponed(take1);
        if state == PostponedRow || filled {
          return;
        }
      }
      ShowImcu(take2);
    }

    /** CTX_POSTPONED_ROW: the last row group of the iMCU row before. */
    method ShowPostponed(take: nat)
      requires Valid() && bufferFull && state == PostponedRow && rowgroupCtr < rowgroupsAvail
      modifies this`state, this`rowgroupCtr, this`shown, this`next, this`at
      ensures Valid() && AtRest() && old(shown) <= shown && |shown| < GroupsBy(e, imcuRowCtr)
      ensures take == 0 ==> state == PostponedRow && |shown| == old(|shown|)
      ensures take > 0 ==> state == PrepareForImcu && |shown| == old(|shown|) + 1
    {
      hide Good, MakeSizes, InOrder, Rows, GroupsBy;
      Now();
      Post(take);
      Now();
      if rowgroupCtr < rowgroupsAvail {
        return;
      }
      AfterPostponed(e, Memory(), Control());
      state := PrepareForImcu;
    }

    /** CTX_PREPARE_FOR_IMCU and CTX_PROCESS_IMCU */
    method ShowImcu(take: nat)
      requires Valid() && AtRest() && bufferFull && state != PostponedRow
      modifies this, ws, x0, x1
      ensures Valid() && AtRest() && old(shown) <= shown && imcuRowCtr == old(imcuRowCtr)
      ensures old(|shown|) < GroupsBy(e, imcuRowCtr) && |shown| == Min(GroupsBy(e, imcuRowCtr), old(|shown|) + take)
      ensures if |shown| == GroupsBy(e, imcuRowCtr) then !bufferFull && state == PostponedRow else bufferFull && state == ProcessImcu
    {
      hide Good, MakeSizes, InOrder, Rows, GroupsBy;
      Now();
      if state == PrepareForImcu {
        PrepareImcu();
        Now();
      }
      Post(take);
      if rowgroupCtr < rowgroupsAvail {
        return;
      }
      FinishImcu();
    }

    lemma Now()
      requires Valid()
      ensures e.g.z.R > 0 && At(e, Control(), |shown|)
    {
      hide Good, MakeSizes, InOrder, Rows, At;
      WhereItIs(e, Memory(), Control(), |shown|);
    }
  }

  /** Showing the next row group. */
  lemma OneShown(e: Env, m: Mem, c: Ctl, shown: seq<seq<int>>, around: seq<int>)
    requires Good(e, m, c) && c.full && c.state != PrepareForImcu && c.ctr < c.avail
    requires c.next == Rows(|shown|, e.g.z.R) && InOrder(e.g, shown)
    requires around == Samples(m.X(c.which), m.ws, c.at, 3 * e.g.z.R)
    ensures Good(e, m, c.(ctr := c.ctr + 1, next := c.next + e.g.z.R, at := c.at + e.g.z.R))
    ensures InOrder(e.g, shown + [around]) && c.next + e.g.z.R == Rows(|shown| + 1, e.g.z.R)
  {
    AfterPost(e, m, c);
    hide Good, InOrder, Rows, Window, Samples;
    RowsNext(|shown|, e.g.z.R);
    ShownMore(e.g, shown, around, c.next);
  }

  lemma RowsGrow(n: nat, k: nat, size: nat)
    requires n < k && size > 0
    ensures Rows(n, size) < Rows(k, size)
  {
    RowsNext(n, size);
    RowsMono(n + 1, k, size);
  }

  /** What was shown last was part of the image. */
  lemma LastShown(g: Image, shown: seq<seq<int>>, n: nat)
    requires InOrder(g, shown) && n <= |shown| && Rows(n, g.z.R) < g.height
    ensures Rows(|shown|, g.z.R) < g.height + g.z.R
  {
    if |shown| > n {
      assert ShownAt(g, shown[|shown| - 1], |shown| - 1);
      RowsNext(|shown| - 1, g.z.R);
    }
  }

  lemma CountersOk(e: Env, m: Mem, c: Ctl)
    requires Good(e, m, c) && c.full && c.state != PrepareForImcu
    ensures c.ctr <= c.avail
  {
  }

  lemma ImcuCount(e: Env, m: Mem, c: Ctl)
    requires Good(e, m, c)
    ensures c.imcu <= e.total && c.which <= 1
  {
  }

  lemma SizeR(rgroup: nat, M: nat)
    requires M >= 2
    ensures MakeSizes(rgroup, M).R == rgroup
  {
  }
}
