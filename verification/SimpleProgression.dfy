/** The progressive script jcparam.c recommends, and the decoder's view of any
    accepted script. */
module SimpleProgression {
  import opened ScanScript

  // ----- jpeg_simple_progression -----

  /** The components 0..n. */
  function FirstComps(n: nat): seq<int> {
    seq(n, i => i)
  }

  /** fill_scans: one scan for each component. */
  function Each(n: nat, Ss: int, Se: int, Ah: int, Al: int): (r: seq<ScanInfo>)
    ensures |r| == n
  {
    seq(n, i => ScanInfo([i], Ss, Se, Ah, Al))
  }

  /** fill_dc_scans: one interleaved scan if possible. */
  function DcScans(n: nat, Ah: int, Al: int): (r: seq<ScanInfo>)
    ensures |r| == if n <= MAX_COMPS_IN_SCAN then 1 else n
  {
    if n <= MAX_COMPS_IN_SCAN then [ScanInfo(FirstComps(n), 0, 0, Ah, Al)] else Each(n, 0, 0, Ah, Al)
  }

  function One(ci: int, Ss: int, Se: int, Ah: int, Al: int): seq<ScanInfo> {
    [ScanInfo([ci], Ss, Se, Ah, Al)]
  }

  /** The script for YCbCr images. */
  function YccScript(): seq<ScanInfo> {
    DcScans(3, 0, 1) + One(0, 1, 5, 0, 2) + One(2, 1, 63, 0, 1) + One(1, 1, 63, 0, 1) + One(0, 6, 63, 0, 2)
    + One(0, 1, 63, 2, 1) + DcScans(3, 1, 0) + One(2, 1, 63, 1, 0) + One(1, 1, 63, 1, 0) + One(0, 1, 63, 1, 0)
  }

  /** The script for other color spaces. */
  function GeneralScript(n: nat): seq<ScanInfo> {
    DcScans(n, 0, 1) + Each(n, 1, 5, 0, 2) + Each(n, 6, 63, 0, 2) + Each(n, 1, 63, 2, 1)
    + DcScans(n, 1, 0) + Each(n, 1, 63, 1, 0)
  }

  function SimpleScript(n: nat, ycc: bool): seq<ScanInfo> {
    if n == 3 && ycc then YccScript() else GeneralScript(n)
  }

  method FillAScan(script: array<ScanInfo>, pos: nat, ci: int, Ss: int, Se: int, Ah: int, Al: int) returns (next: nat)
    requires pos < script.Length
    modifies script
    ensures next == pos + 1
    ensures script[..next] == old(script[..pos]) + One(ci, Ss, Se, Ah, Al)
  {
    script[pos] := ScanInfo([ci], Ss, Se, Ah, Al);
    next := pos + 1;
  }

  method FillScans(script: array<ScanInfo>, pos: nat, n: nat, Ss: int, Se: int, Ah: int, Al: int) returns (next: nat)
    requires pos + n <= script.Length
    modifies script
    ensures next == pos + n
    ensures script[..next] == old(script[..pos]) + Each(n, Ss, Se, Ah, Al)
  {
    next := pos;
    for ci := 0 to n
      invariant next == pos + ci
      invariant script[..next] == old(script[..pos]) + Each(ci, Ss, Se, Ah, Al)
    {
      script[next] := ScanInfo([ci], Ss, Se, Ah, Al);
      next := next + 1;
    }
  }

  method FillDcScans(script: array<ScanInfo>, pos: nat, n: nat, Ah: int, Al: int) returns (next: nat)
    requires pos + |DcScans(n, Ah, Al)| <= script.Length
    modifies script
    ensures next == pos + |DcScans(n, Ah, Al)|
    ensures script[..next] == old(script[..pos]) + DcScans(n, Ah, Al)
  {
    if n <= MAX_COMPS_IN_SCAN {
      script[pos] := ScanInfo(FirstComps(n), 0, 0, Ah, Al);
      next := pos + 1;
    } else {
      next := FillScans(script, pos, n, 0, 0, Ah, Al);
    }
  }

  method FillYcc(script: array<ScanInfo>)
    requires script.Length == 10
    modifies script
    ensures script[..] == YccScript()
  {
    hide DcScans, One;
    var p := FillDcScans(script, 0, 3, 0, 1);
    p := FillAScan(script, p, 0, 1, 5, 0, 2);
    p := FillAScan(script, p, 2, 1, 63, 0, 1);
    p := FillAScan(script, p, 1, 1, 63, 0, 1);
    p := FillAScan(script, p, 0, 6, 63, 0, 2);
    p := FillAScan(script, p, 0, 1, 63, 2, 1);
    p := FillDcScans(script, p, 3, 1, 0);
    p := FillAScan(script, p, 2, 1, 63, 1, 0);
    p := FillAScan(script, p, 1, 1, 63, 1, 0);
    p := FillAScan(script, p, 0, 1, 63, 1, 0);
    assert script[..] == script[..p];
  }

  method FillGeneral(script: array<ScanInfo>, n: nat)
    requires script.Length == if n > MAX_COMPS_IN_SCAN then 6 * n else 2 + 4 * n
    modifies script
    ensures script[..] == GeneralScript(n)
  {
    hide DcScans, Each;
    var p := FillDcScans(script, 0, n, 0, 1);
    p := FillScans(script, p, n, 1, 5, 0, 2);
    assert script[..p] == DcScans(n, 0, 1) + Each(n, 1, 5, 0, 2);
    p := FillScans(script, p, n, 6, 63, 0, 2);
    p := FillScans(script, p, n, 1, 63, 2, 1);
    p := FillDcScans(script, p, n, 1, 0);
    p := FillScans(script, p, n, 1, 63, 1, 0);
    assert script[..] == script[..p];
  }

  /** jpeg_simple_progression: the space reserved up front is filled exactly. */
  method MakeSimpleProgression(n: nat, ycc: bool) returns (script: array<ScanInfo>)
    ensures fresh(script) && script[..] == SimpleScript(n, ycc)
  {
    var nscans: nat;
    if n == 3 && ycc {
      nscans := 10;
    } else {
      if n > MAX_COMPS_IN_SCAN {
        nscans := 6 * n;
      } else {
        nscans := 2 + 4 * n;
      }
    }
    script := new ScanInfo[nscans](_ => ScanInfo([], 0, 0, 0, 0));
    if n == 3 && ycc {
      FillYcc(script);
    } else {
      FillGeneral(script, n);
    }
  }

  /** A group of scans that send one band of each component in some set once. */
  ghost predicate Uniform(n: nat, more: seq<ScanInfo>, Ss: int, Se: int, Ah: int, Al: int) {
    (forall i :: 0 <= i < |more| ==> more[i].Ss == Ss && more[i].Se == Se && more[i].Ah == Ah && more[i].Al == Al &&
                                     CompsOk(n, more[i]) && ProgParamsOk(more[i])) &&
    (forall i, j, ci :: 0 <= i < j < |more| && ci in more[i].comps ==> ci !in more[j].comps)
  }

  ghost predicate Mentions(more: seq<ScanInfo>, ci: int) {
    exists i :: 0 <= i < |more| && ci in more[i].comps
  }

  /** After such a group, the band of its components is at Al, the rest is as before. */
  lemma {:induction false} UniformLastAl(n: nat, before: seq<ScanInfo>, more: seq<ScanInfo>,
                                         Ss: int, Se: int, Ah: int, Al: int, ci: int, k: int)
    requires Uniform(n, more, Ss, Se, Ah, Al)
    ensures LastAl(before + more, ci, k) == if Mentions(more, ci) && Ss <= k <= Se then Al else LastAl(before, ci, k)
    decreases |more|
  {
    if more == [] {
      assert before + more == before;
    } else {
      var l := |more| - 1;
      var init := more[..l];
      assert more == init + [more[l]];
      assert (before + init) + [more[l]] == before + more;
      UniformLastAl(n, before, init, Ss, Se, Ah, Al, ci, k);
      LastAlSnoc(before + init, more[l], ci, k);
      CoversLast(more, ci);
    }
  }

  lemma CoversLast(more: seq<ScanInfo>, ci: int)
    requires more != []
    ensures Mentions(more, ci) <==> Mentions(more[..|more| - 1], ci) || ci in more[|more| - 1].comps
  {
    var l := |more| - 1;
    if Mentions(more[..l], ci) {
      var i :| 0 <= i < l && ci in more[..l][i].comps;
      assert more[i] == more[..l][i];
    }
    if Mentions(more, ci) && ci !in more[l].comps {
      var i :| 0 <= i < |more| && ci in more[i].comps;
      assert more[..l][i] == more[i];
    }
  }

  lemma NotAgain(n: nat, more: seq<ScanInfo>, Ss: int, Se: int, Ah: int, Al: int, ci: int)
    requires more != [] && Uniform(n, more, Ss, Se, Ah, Al) && Mentions(more[..|more| - 1], ci)
    ensures ci !in more[|more| - 1].comps
  {
    var l := |more| - 1;
    var i :| 0 <= i < l && ci in more[..l][i].comps;
    assert more[i] == more[..l][i];
  }

  /** Such a group may be sent if each of its components is ready for it. */
  lemma {:induction false} UniformOk(n: nat, before: seq<ScanInfo>, more: seq<ScanInfo>, Ss: int, Se: int, Ah: int, Al: int)
    requires ProgScansOk(n, before) && Uniform(n, more, Ss, Se, Ah, Al)
    requires forall ci :: Mentions(more, ci) ==>
      (Ss != 0 ==> LastAl(before, ci, 0) >= 0) &&
      forall k :: Ss <= k <= Se ==> Continues(ScanInfo([], Ss, Se, Ah, Al), LastAl(before, ci, k))
    ensures ProgScansOk(n, before + more)
    decreases |more|
  {
    if more == [] {
      assert before + more == before;
    } else {
      var l := |more| - 1;
      var init := more[..l];
      forall ci | Mentions(init, ci) ensures Mentions(more, ci) {
        CoversLast(more, ci);
      }
      UniformOk(n, before, init, Ss, Se, Ah, Al);
      var all := before + more;
      assert all[..|all| - 1] == before + init && all[|all| - 1] == more[l];
      forall i | 0 <= i < |more[l].comps| ensures ContinuesComp(before + init, more[l], more[l].comps[i]) {
        var ci := more[l].comps[i];
        assert ci in more[l].comps;
        assert Mentions(more, ci);
        if Mentions(init, ci) { NotAgain(n, more, Ss, Se, Ah, Al, ci); }
        UniformLastAl(n, before, init, Ss, Se, Ah, Al, ci, 0);
        forall k | Ss <= k <= Se ensures Continues(more[l], LastAl(before + init, ci, k)) {
          UniformLastAl(n, before, init, Ss, Se, Ah, Al, ci, k);
        }
      }
      forall i | 0 <= i < |all| ensures ProgScanOk(n, all[..i], all[i]) {
        if i < |all| - 1 {
          assert all[i] == (before + init)[i] && all[..i] == (before + init)[..i];
        }
      }
    }
  }

  /** A state of progress: scans so far are in order, and have sent what prec says. */
  ghost predicate Progress(n: nat, scans: seq<ScanInfo>, prec: (int, int) -> int) {
    ProgScansOk(n, scans) && forall ci, k :: 0 <= ci < n && 0 <= k < 64 ==> LastAl(scans, ci, k) == prec(ci, k)
  }

  /** Progress after a group that sends a band of the components in the set which. */
  lemma Advance(n: nat, before: seq<ScanInfo>, prec: (int, int) -> int, more: seq<ScanInfo>,
                Ss: int, Se: int, Ah: int, Al: int, which: int -> bool, prec1: (int, int) -> int)
    requires Progress(n, before, prec) && Uniform(n, more, Ss, Se, Ah, Al) && 0 <= Ss <= Se < 64
    requires forall ci :: Mentions(more, ci) <==> 0 <= ci < n && which(ci)
    requires forall ci, k :: 0 <= ci < n && which(ci) && Ss <= k <= Se ==>
      (Ss != 0 ==> prec(ci, 0) >= 0) && Continues(ScanInfo([], Ss, Se, Ah, Al), prec(ci, k))
    requires forall ci, k :: 0 <= ci < n && 0 <= k < 64 ==>
      prec1(ci, k) == if which(ci) && Ss <= k <= Se then Al else prec(ci, k)
    ensures Progress(n, before + more, prec1)
  {
    forall ci | Mentions(more, ci) ensures
      (Ss != 0 ==> LastAl(before, ci, 0) >= 0) &&
      forall k :: Ss <= k <= Se ==> Continues(ScanInfo([], Ss, Se, Ah, Al), LastAl(before, ci, k))
    {
      assert prec(ci, Ss) == LastAl(before, ci, Ss);
    }
    UniformOk(n, before, more, Ss, Se, Ah, Al);
    forall ci, k | 0 <= ci < n && 0 <= k < 64 ensures LastAl(before + more, ci, k) == prec1(ci, k) {
      UniformLastAl(n, before, more, Ss, Se, Ah, Al, ci, k);
    }
  }

  lemma EachGroup(n: nat, Ss: int, Se: int, Ah: int, Al: int)
    requires ProgParamsOk(ScanInfo([0], Ss, Se, Ah, Al))
    ensures Uniform(n, Each(n, Ss, Se, Ah, Al), Ss, Se, Ah, Al)
    ensures forall ci :: Mentions(Each(n, Ss, Se, Ah, Al), ci) <==> 0 <= ci < n
  {
    var more := Each(n, Ss, Se, Ah, Al);
    forall ci | 0 <= ci < n ensures Mentions(more, ci) {
      assert ci in more[ci].comps;
    }
  }

  lemma DcGroup(n: nat, Ah: int, Al: int)
    requires 0 < n && 0 <= Ah <= MAX_AH_AL && 0 <= Al <= MAX_AH_AL
    ensures Uniform(n, DcScans(n, Ah, Al), 0, 0, Ah, Al)
    ensures forall ci :: Mentions(DcScans(n, Ah, Al), ci) <==> 0 <= ci < n
  {
    if n > MAX_COMPS_IN_SCAN {
      EachGroup(n, 0, 0, Ah, Al);
    } else {
      var more := DcScans(n, Ah, Al);
      forall ci | 0 <= ci < n ensures Mentions(more, ci) {
        assert FirstComps(n)[ci] == ci;
        assert ci in more[0].comps;
      }
    }
  }

  lemma OneGroup(n: nat, c: int, Ss: int, Se: int, Ah: int, Al: int)
    requires ProgParamsOk(ScanInfo([0], Ss, Se, Ah, Al)) && 0 <= c < n
    ensures Uniform(n, One(c, Ss, Se, Ah, Al), Ss, Se, Ah, Al)
    ensures forall ci :: Mentions(One(c, Ss, Se, Ah, Al), ci) <==> ci == c
  {
    assert c in One(c, Ss, Se, Ah, Al)[0].comps;
  }

  lemma NothingSent(n: nat)
    ensures Progress(n, [], (ci, k) => -1)
  {
  }

  lemma GeneralFirstHalf(n: nat)
    requires 0 < n
    ensures Progress(n, DcScans(n, 0, 1) + Each(n, 1, 5, 0, 2) + Each(n, 6, 63, 0, 2), (ci, k) => if k == 0 then 1 else 2)
  {
    hide Progress, Uniform, Mentions, Each, DcScans;
    var all := ci => true;
    var p0, p1 := (ci, k) => -1, (ci, k) => if k == 0 then 1 else -1;
    var p2 := (ci, k) => if k == 0 then 1 else if k <= 5 then 2 else -1;
    NothingSent(n);
    DcGroup(n, 0, 1);
    Advance(n, [], p0, DcScans(n, 0, 1), 0, 0, 0, 1, all, p1);
    assert [] + DcScans(n, 0, 1) == DcScans(n, 0, 1);
    EachGroup(n, 1, 5, 0, 2);
    Advance(n, DcScans(n, 0, 1), p1, Each(n, 1, 5, 0, 2), 1, 5, 0, 2, all, p2);
    EachGroup(n, 6, 63, 0, 2);
    Advance(n, DcScans(n, 0, 1) + Each(n, 1, 5, 0, 2), p2, Each(n, 6, 63, 0, 2), 6, 63, 0, 2, all,
            (ci, k) => if k == 0 then 1 else 2);
  }

  lemma GeneralAccepted(n: nat)
    requires 0 < n
    ensures Progress(n, GeneralScript(n), (ci, k) => 0)
  {
    hide Progress, Uniform, Mentions, Each, DcScans;
    var all := ci => true;
    var p3, p4, p5 := (ci, k) => if k == 0 then 1 else 2, (ci, k) => 1, (ci, k) => if k == 0 then 0 else 1;
    var s3 := DcScans(n, 0, 1) + Each(n, 1, 5, 0, 2) + Each(n, 6, 63, 0, 2);
    GeneralFirstHalf(n);
    EachGroup(n, 1, 63, 2, 1);
    Advance(n, s3, p3, Each(n, 1, 63, 2, 1), 1, 63, 2, 1, all, p4);
    DcGroup(n, 1, 0);
    Advance(n, s3 + Each(n, 1, 63, 2, 1), p4, DcScans(n, 1, 0), 0, 0, 1, 0, all, p5);
    EachGroup(n, 1, 63, 1, 0);
    Advance(n, s3 + Each(n, 1, 63, 2, 1) + DcScans(n, 1, 0), p5, Each(n, 1, 63, 1, 0), 1, 63, 1, 0, all, (ci, k) => 0);
  }

  lemma YccFirstHalf()
    ensures Progress(3, DcScans(3, 0, 1) + One(0, 1, 5, 0, 2) + One(2, 1, 63, 0, 1) + One(1, 1, 63, 0, 1) + One(0, 6, 63, 0, 2),
                     (ci, k) => if k == 0 || ci != 0 then 1 else 2)
  {
    hide Progress, Uniform, Mentions, One, DcScans;
    var p0, p1 := (ci, k) => -1, (ci, k) => if k == 0 then 1 else -1;
    var p2 := (ci, k) => if k == 0 then 1 else if ci == 0 && k <= 5 then 2 else -1;
    var p3 := (ci, k) => if k == 0 then 1 else if ci == 0 && k <= 5 then 2 else if ci == 2 then 1 else -1;
    var p4 := (ci, k) => if k == 0 then 1 else if ci == 0 && k <= 5 then 2 else if ci == 0 then -1 else 1;
    var s1 := DcScans(3, 0, 1);
    NothingSent(3);
    DcGroup(3, 0, 1);
    Advance(3, [], p0, s1, 0, 0, 0, 1, ci => true, p1);
    assert [] + s1 == s1;
    OneGroup(3, 0, 1, 5, 0, 2);
    Advance(3, s1, p1, One(0, 1, 5, 0, 2), 1, 5, 0, 2, ci => ci == 0, p2);
    var s2 := s1 + One(0, 1, 5, 0, 2);
    OneGroup(3, 2, 1, 63, 0, 1);
    Advance(3, s2, p2, One(2, 1, 63, 0, 1), 1, 63, 0, 1, ci => ci == 2, p3);
    var s3 := s2 + One(2, 1, 63, 0, 1);
    OneGroup(3, 1, 1, 63, 0, 1);
    Advance(3, s3, p3, One(1, 1, 63, 0, 1), 1, 63, 0, 1, ci => ci == 1, p4);
    var s4 := s3 + One(1, 1, 63, 0, 1);
    OneGroup(3, 0, 6, 63, 0, 2);
    Advance(3, s4, p4, One(0, 6, 63, 0, 2), 6, 63, 0, 2, ci => ci == 0, (ci, k) => if k == 0 || ci != 0 then 1 else 2);
  }

  lemma YccAccepted()
    ensures Progress(3, YccScript(), (ci, k) => 0)
  {
    hide Progress, Uniform, Mentions, One, DcScans;
    var p5, p6 := (ci, k) => if k == 0 || ci != 0 then 1 else 2, (ci, k) => 1;
    var p7, p8 := (ci, k) => if k == 0 then 0 else 1, (ci, k) => if k == 0 || ci == 2 then 0 else 1;
    var p9 := (ci, k) => if k == 0 || ci != 0 then 0 else 1;
    var s5 := DcScans(3, 0, 1) + One(0, 1, 5, 0, 2) + One(2, 1, 63, 0, 1) + One(1, 1, 63, 0, 1) + One(0, 6, 63, 0, 2);
    YccFirstHalf();
    OneGroup(3, 0, 1, 63, 2, 1);
    Advance(3, s5, p5, One(0, 1, 63, 2, 1), 1, 63, 2, 1, ci => ci == 0, p6);
    var s6 := s5 + One(0, 1, 63, 2, 1);
    DcGroup(3, 1, 0);
    Advance(3, s6, p6, DcScans(3, 1, 0), 0, 0, 1, 0, ci => true, p7);
    var s7 := s6 + DcScans(3, 1, 0);
    OneGroup(3, 2, 1, 63, 1, 0);
    Advance(3, s7, p7, One(2, 1, 63, 1, 0), 1, 63, 1, 0, ci => ci == 2, p8);
    var s8 := s7 + One(2, 1, 63, 1, 0);
    OneGroup(3, 1, 1, 63, 1, 0);
    Advance(3, s8, p8, One(1, 1, 63, 1, 0), 1, 63, 1, 0, ci => ci == 1, p9);
    var s9 := s8 + One(1, 1, 63, 1, 0);
    OneGroup(3, 0, 1, 63, 1, 0);
    Advance(3, s9, p9, One(0, 1, 63, 1, 0), 1, 63, 1, 0, ci => ci == 0, (ci, k) => 0);
  }

  /** The recommended script is accepted, and sends every bit of every coefficient. */
  lemma SimpleScriptAccepted(n: nat, ycc: bool)
    requires 0 < n
    ensures AcceptedProgressive(n, SimpleScript(n, ycc))
    ensures forall ci, k :: 0 <= ci < n && 0 <= k < 64 ==> LastAl(SimpleScript(n, ycc), ci, k) == 0
  {
    hide ProgScansOk, One, LastAl;
    if n == 3 && ycc { YccAccepted(); } else { GeneralAccepted(n); }
    assert SimpleScript(n, ycc)[0] == DcScans(n, 0, 1)[0];
    assert Progress(n, SimpleScript(n, ycc), (ci, k) => 0);
  }

  // ----- start_pass_phuff_decoder -----

  /** The decoder's view of a scan header: whether it raises JERR_BAD_PROGRESSION,
      its progression warnings, and the updated coef_bits. */
  datatype StartPass = BadProgression | Started(warnings: nat)

  /** coef_bits for components 0..n says what the scans so far have sent. */
  ghost predicate CoefBitsTrack(n: nat, coefBits: array2<int>, scans: seq<ScanInfo>)
    reads coefBits
  {
    coefBits.Length0 == n && coefBits.Length1 == 64 &&
    forall ci, k :: 0 <= ci < n && 0 <= k < 64 ==> coefBits[ci, k] == LastAl(scans, ci, k)
  }

  /** No progression warning: AC coefficients follow some DC data, and Ah is the precision
      to which each coefficient has been sent, or 0. */
  ghost predicate Silent(before: seq<ScanInfo>, sc: ScanInfo, ci: int) {
    (sc.Ss != 0 ==> LastAl(before, ci, 0) >= 0) &&
    forall k :: sc.Ss <= k <= sc.Se ==> sc.Ah == (if LastAl(before, ci, k) < 0 then 0 else LastAl(before, ci, k))
  }

  /** The scan-parameter checks that are fatal. */
  predicate DecoderAccepts(sc: ScanInfo) {
    (if sc.Ss == 0 then sc.Se == 0 else sc.Ss <= sc.Se < 64 && |sc.comps| == 1) &&
    (sc.Ah != 0 ==> sc.Al == sc.Ah - 1) && sc.Al <= 13
  }

  /** Scan parameters come from unsigned bytes, component indexes from the frame. */
  method StartProgressiveScan(n: nat, coefBits: array2<int>, sc: ScanInfo, ghost before: seq<ScanInfo>) returns (r: StartPass)
    requires CoefBitsTrack(n, coefBits, before) && 0 <= sc.Ss && 0 <= sc.Se && 0 <= sc.Ah && 0 <= sc.Al && CompsOk(n, sc)
    modifies coefBits
    ensures r.Started? <==> DecoderAccepts(sc)
    ensures r.Started? ==> CoefBitsTrack(n, coefBits, before + [sc])
    ensures r.Started? ==> (r.warnings == 0 <==> forall i :: 0 <= i < |sc.comps| ==> Silent(before, sc, sc.comps[i]))
  {
    var isDcBand := sc.Ss == 0;
    var bad := false;
    if isDcBand {
      if sc.Se != 0 { bad := true; }
    } else {
      if sc.Ss > sc.Se || sc.Se >= 64 { bad := true; }
      if |sc.comps| != 1 { bad := true; }
    }
    if sc.Ah != 0 {
      if sc.Al != sc.Ah - 1 { bad := true; }
    }
    if sc.Al > 13 { bad := true; }
    if bad {
      return BadProgression;
    }
    var warnings := 0;
    for i := 0 to |sc.comps|
      invariant forall c, k :: 0 <= c < n && 0 <= k < 64 ==>
              coefBits[c, k] == if c in sc.comps[..i] && sc.Ss <= k <= sc.Se then sc.Al else LastAl(before, c, k)
      invariant warnings >= 0
      invariant warnings == 0 <==> forall j :: 0 <= j < i ==> Silent(before, sc, sc.comps[j])
    {
      var w := UpdateCoefBits(coefBits, sc.comps[i], sc);
      assert w == 0 <==> Silent(before, sc, sc.comps[i]);
      warnings := warnings + w;
      assert sc.comps[..i + 1] == sc.comps[..i] + [sc.comps[i]];
    }
    assert sc.comps[..|sc.comps|] == sc.comps;
    forall c, k | 0 <= c < n && 0 <= k < 64 ensures coefBits[c, k] == LastAl(before + [sc], c, k) {
      LastAlSnoc(before, sc, c, k);
    }
    r := Started(warnings);
  }

  method UpdateCoefBits(coefBits: array2<int>, cindex: nat, sc: ScanInfo) returns (warnings: nat)
    requires cindex < coefBits.Length0 && coefBits.Length1 == 64 && DecoderAccepts(sc) && 0 <= sc.Ss && 0 <= sc.Al && 0 <= sc.Ah
    modifies coefBits
    ensures forall c, k :: 0 <= c < coefBits.Length0 && 0 <= k < 64 ==>
              coefBits[c, k] == if c == cindex && sc.Ss <= k <= sc.Se then sc.Al else old(coefBits[c, k])
    ensures warnings == 0 <==>
      (sc.Ss != 0 ==> old(coefBits[cindex, 0]) >= 0) &&
      forall k :: sc.Ss <= k <= sc.Se ==> sc.Ah == if old(coefBits[cindex, k]) < 0 then 0 else old(coefBits[cindex, k])
  {
    warnings := 0;
    if sc.Ss != 0 && coefBits[cindex, 0] < 0 {
      warnings := warnings + 1;
    }
    var coefi := sc.Ss;
    while coefi <= sc.Se
      invariant sc.Ss <= coefi <= sc.Se + 1
      invariant forall c, k :: 0 <= c < coefBits.Length0 && 0 <= k < 64 ==>
              coefBits[c, k] == if c == cindex && sc.Ss <= k < coefi then sc.Al else old(coefBits[c, k])
      invariant warnings == 0 <==>
        (sc.Ss != 0 ==> old(coefBits[cindex, 0]) >= 0) &&
        forall k :: sc.Ss <= k < coefi ==> sc.Ah == if old(coefBits[cindex, k]) < 0 then 0 else old(coefBits[cindex, k])
    {
      var expected := if coefBits[cindex, coefi] < 0 then 0 else coefBits[cindex, coefi];
      if sc.Ah != expected {
        warnings := warnings + 1;
      }
      coefBits[cindex, coefi] := sc.Al;
      coefi := coefi + 1;
    }
  }

  /** Any scan of an accepted progressive script passes the decoder's checks and
      causes no progression warning. */
  lemma ScriptTransfers(n: nat, scans: seq<ScanInfo>, i: nat)
    requires AcceptedProgressive(n, scans) && i < |scans|
    ensures DecoderAccepts(scans[i])
    ensures CompsOk(n, scans[i]) && forall j :: 0 <= j < |scans[i].comps| ==> Silent(scans[..i], scans[i], scans[i].comps[j])
  {
    var sc := scans[i];
    assert ProgScanOk(n, scans[..i], sc);
    assert ContinuesComp(scans[..i], sc, sc.comps[0]);
    assert Continues(sc, LastAl(scans[..i], sc.comps[0], sc.Ss));
  }

  /** No coefficient of the scan has been sent to its last bit before. */
  ghost predicate Unfinished(before: seq<ScanInfo>, sc: ScanInfo, ci: int) {
    forall k :: sc.Ss <= k <= sc.Se ==> LastAl(before, ci, k) != 0
  }

  lemma OneComponent(before: seq<ScanInfo>, sc: ScanInfo, ci: int)
    requires 0 <= sc.Ss <= sc.Se && 0 <= sc.Ah && 0 <= sc.Al
    ensures ContinuesComp(before, sc, ci) <==> Silent(before, sc, ci) && Unfinished(before, sc, ci) && (sc.Ah != 0 ==> sc.Al == sc.Ah - 1)
  {
    if ContinuesComp(before, sc, ci) {
      assert Continues(sc, LastAl(before, ci, sc.Ss));
    }
  }

  /** The two sides' checks compared: a scan may come next in a script exactly if the
      decoder starts on it without error or warning, its components are listed in order,
      no precision is above 10, and no coefficient has been sent to its last bit before. */
  lemma EncoderAndDecoder(n: nat, before: seq<ScanInfo>, sc: ScanInfo)
    requires 0 <= sc.Ss && 0 <= sc.Se && 0 <= sc.Ah && 0 <= sc.Al
    ensures ProgScanOk(n, before, sc) <==>
      CompsOk(n, sc) && DecoderAccepts(sc) && sc.Ah <= 10 && sc.Al <= 10 &&
      forall i :: 0 <= i < |sc.comps| ==> Silent(before, sc, sc.comps[i]) && Unfinished(before, sc, sc.comps[i])
  {
    hide LastAl, Silent, Unfinished, ContinuesComp;
    if CompsOk(n, sc) && sc.Ss <= sc.Se {
      forall i | 0 <= i < |sc.comps|
        ensures ContinuesComp(before, sc, sc.comps[i]) <==>
                Silent(before, sc, sc.comps[i]) && Unfinished(before, sc, sc.comps[i]) && (sc.Ah != 0 ==> sc.Al == sc.Ah - 1)
      {
        OneComponent(before, sc, sc.comps[i]);
      }
      assert ContinuesComp(before, sc, sc.comps[0]) ==> sc.Ah != 0 ==> sc.Al == sc.Ah - 1;
    }
  }

  /** The ten scans for YCbCr images, one by one. */
  lemma YccScans()
    ensures SimpleScript(3, true) == [
      ScanInfo([0, 1, 2], 0, 0, 0, 1), ScanInfo([0], 1, 5, 0, 2), ScanInfo([2], 1, 63, 0, 1), ScanInfo([1], 1, 63, 0, 1),
      ScanInfo([0], 6, 63, 0, 2), ScanInfo([0], 1, 63, 2, 1), ScanInfo([0, 1, 2], 0, 0, 1, 0), ScanInfo([2], 1, 63, 1, 0),
      ScanInfo([1], 1, 63, 1, 0), ScanInfo([0], 1, 63, 1, 0)]
  {
    assert FirstComps(3) == [0, 1, 2];
  }

  /** The six scans for one component. */
  lemma GrayScans()
    ensures SimpleScript(1, false) == [
      ScanInfo([0], 0, 0, 0, 1), ScanInfo([0], 1, 5, 0, 2), ScanInfo([0], 6, 63, 0, 2), ScanInfo([0], 1, 63, 2, 1),
      ScanInfo([0], 0, 0, 1, 0), ScanInfo([0], 1, 63, 1, 0)]
  {
    assert FirstComps(1) == [0];
  }

  /** The decoder started on the scans of an accepted script in turn rejects none
      of them and warns about none. */
  method StartAllScans(n: nat, scans: seq<ScanInfo>) returns (r: StartPass)
    requires AcceptedProgressive(n, scans)
    ensures r == Started(0)
  {
    var coefBits := new int[n, 64]((i, j) => -1);
    var warnings := 0;
    for i := 0 to |scans|
      invariant fresh(coefBits) && CoefBitsTrack(n, coefBits, scans[..i]) && warnings == 0
    {
      ScriptTransfers(n, scans, i);
      assert ProgScanOk(n, scans[..i], scans[i]);
      r := StartProgressiveScan(n, coefBits, scans[i], scans[..i]);
      if r == BadProgression {
        return;
      }
      warnings := warnings + r.warnings;
      assert scans[..i + 1] == scans[..i] + [scans[i]];
    }
    r := Started(warnings);
  }
}
