/** Multi-scan scripts: which ones jcmaster.c accepts, and the script jcparam.c
    recommends. */
module ScanScript {
  import opened Wrappers

  const MAX_COMPS_IN_SCAN: nat := 4
  const MAX_AH_AL: int := 10

  /** A jpeg_scan_info; comps holds the component indexes. */
  datatype ScanInfo = ScanInfo(comps: seq<int>, Ss: int, Se: int, Ah: int, Al: int)

  datatype ScriptError =
    | BadScanScript(scanno: nat)
    | ComponentCount
    | BadProgScript(scanno: nat)
    | MissingData

  /** The scan sends coefficient k of component ci. */
  predicate Sends(sc: ScanInfo, ci: int, k: int) {
    ci in sc.comps && sc.Ss <= k <= sc.Se
  }

  /** The precision to which coefficient k of component ci has been sent: the Al of
      the last scan that sends it, -1 if there is none. */
  function LastAl(scans: seq<ScanInfo>, ci: int, k: int): int {
    if scans == [] then -1
    else
      var last := scans[|scans| - 1];
      if Sends(last, ci, k) then last.Al else LastAl(scans[..|scans| - 1], ci, k)
  }

  /** One to four components of the frame, in frame order. */
  ghost predicate CompsOk(n: nat, sc: ScanInfo) {
    1 <= |sc.comps| <= MAX_COMPS_IN_SCAN &&
    (forall i :: 0 <= i < |sc.comps| ==> 0 <= sc.comps[i] < n) &&
    (forall i, j :: 0 <= i < j < |sc.comps| ==> sc.comps[i] < sc.comps[j])
  }

  /** A band of one kind, at sensible precisions; AC bands of one component only. */
  predicate ProgParamsOk(sc: ScanInfo) {
    0 <= sc.Ss <= sc.Se < 64 && 0 <= sc.Ah <= MAX_AH_AL && 0 <= sc.Al <= MAX_AH_AL &&
    (sc.Ss == 0 ==> sc.Se == 0) && (sc.Ss != 0 ==> |sc.comps| == 1)
  }

  /** A coefficient last sent to precision prev (-1: never) may be sent now. */
  predicate Continues(sc: ScanInfo, prev: int) {
    if prev < 0 then sc.Ah == 0 else sc.Ah == prev && sc.Al == sc.Ah - 1
  }

  /** The scan continues, for component ci, what the scans before it have sent. */
  ghost predicate ContinuesComp(before: seq<ScanInfo>, sc: ScanInfo, ci: int) {
    (sc.Ss != 0 ==> LastAl(before, ci, 0) >= 0) &&
    forall k :: sc.Ss <= k <= sc.Se ==> Continues(sc, LastAl(before, ci, k))
  }

  ghost predicate ProgScanOk(n: nat, before: seq<ScanInfo>, sc: ScanInfo) {
    CompsOk(n, sc) && ProgParamsOk(sc) &&
    forall i :: 0 <= i < |sc.comps| ==> ContinuesComp(before, sc, sc.comps[i])
  }

  predicate IsProgressive(scans: seq<ScanInfo>)
    requires scans != []
  {
    scans[0].Ss != 0 || scans[0].Se != 63
  }

  ghost predicate ProgScansOk(n: nat, scans: seq<ScanInfo>) {
    forall i :: 0 <= i < |scans| ==> ProgScanOk(n, scans[..i], scans[i])
  }

  /** Every scan of a progressive script continues the scans before it, and every
      component has some DC data. */
  ghost predicate AcceptedProgressive(n: nat, scans: seq<ScanInfo>) {
    scans != [] && IsProgressive(scans) && ProgScansOk(n, scans) &&
    forall ci :: 0 <= ci < n ==> LastAl(scans, ci, 0) >= 0
  }

  ghost predicate SeqScanOk(n: nat, sc: ScanInfo) {
    CompsOk(n, sc) && sc.Ss == 0 && sc.Se == 63 && sc.Ah == 0 && sc.Al == 0
  }

  /** The component is sent by some scan. */
  ghost predicate Sent(scans: seq<ScanInfo>, ci: int) {
    exists i :: 0 <= i < |scans| && ci in scans[i].comps
  }

  ghost predicate SeqScansOk(n: nat, scans: seq<ScanInfo>) {
    (forall i :: 0 <= i < |scans| ==> SeqScanOk(n, scans[i])) &&
    (forall i, j, ci :: 0 <= i < j < |scans| && ci in scans[i].comps ==> ci !in scans[j].comps)
  }

  /** Every component is sent by exactly one scan of a sequential script. */
  ghost predicate AcceptedSequential(n: nat, scans: seq<ScanInfo>) {
    scans != [] && !IsProgressive(scans) && SeqScansOk(n, scans) &&
    forall ci :: 0 <= ci < n ==> Sent(scans, ci)
  }

  ghost predicate Accepted(n: nat, scans: seq<ScanInfo>) {
    AcceptedProgressive(n, scans) || AcceptedSequential(n, scans)
  }

  // ----- what is wrong with a script -----

  /** The first i scans are all right. */
  ghost predicate FineTo(n: nat, scans: seq<ScanInfo>, i: nat)
    requires scans != [] && i <= |scans|
  {
    if IsProgressive(scans) then ProgScansOk(n, scans[..i]) else SeqScansOk(n, scans[..i])
  }

  /** Scan i is the first bad one, though it has one to four components. */
  ghost predicate FirstBad(n: nat, scans: seq<ScanInfo>, i: int) {
    0 <= i < |scans| && FineTo(n, scans, i) && 1 <= |scans[i].comps| <= 4
  }

  /** The scan sends a component again. */
  ghost predicate SentAgain(before: seq<ScanInfo>, sc: ScanInfo) {
    exists ci :: ci in sc.comps && Sent(before, ci)
  }

  ghost predicate Missing(scans: seq<ScanInfo>, ci: int)
    requires scans != []
  {
    if IsProgressive(scans) then LastAl(scans, ci, 0) < 0 else !Sent(scans, ci)
  }

  /** The components of scan i are not components of the frame in order, or they have
      been sent by another scan of a sequential script. */
  ghost predicate BadComps(n: nat, scans: seq<ScanInfo>, i: nat)
    requires i < |scans|
  {
    !CompsOk(n, scans[i]) || (!IsProgressive(scans) && SeqScanOk(n, scans[i]) && SentAgain(scans[..i], scans[i]))
  }

  /** The error raised tells what is wrong first. */
  ghost predicate Blames(n: nat, scans: seq<ScanInfo>, e: ScriptError) {
    match e
    case ComponentCount => exists i :: 0 <= i < |scans| && FineTo(n, scans, i) && !(1 <= |scans[i].comps| <= 4)
    case BadScanScript(k) =>
      if scans == [] then k == 0 else FirstBad(n, scans, k - 1) && BadComps(n, scans, k - 1)
    case BadProgScript(k) =>
      FirstBad(n, scans, k - 1) && CompsOk(n, scans[k - 1]) &&
      if IsProgressive(scans) then !ProgScanOk(n, scans[..k - 1], scans[k - 1]) else !SeqScanOk(n, scans[k - 1])
    case MissingData => scans != [] && FineTo(n, scans, |scans|) && exists ci :: 0 <= ci < n && Missing(scans, ci)
  }

  lemma ProgFineTo(n: nat, scans: seq<ScanInfo>, i: nat)
    requires scans != [] && IsProgressive(scans) && i <= |scans|
    requires forall j :: 0 <= j < i ==> ProgScanOk(n, scans[..j], scans[j])
    ensures FineTo(n, scans, i)
  {
    hide ProgScanOk;
    forall j | 0 <= j < i ensures ProgScanOk(n, scans[..i][..j], scans[..i][j]) {
      assert scans[..i][..j] == scans[..j];
    }
  }

  lemma BlameComps(n: nat, scans: seq<ScanInfo>, i: nat)
    requires i < |scans| && FineTo(n, scans, i) && !CompsOk(n, scans[i])
    ensures Blames(n, scans, if 1 <= |scans[i].comps| <= 4 then BadScanScript(i + 1) else ComponentCount)
  {
    hide FineTo, CompsOk, SentAgain;
  }

  lemma BlameParams(n: nat, scans: seq<ScanInfo>, i: nat)
    requires i < |scans| && FineTo(n, scans, i) && CompsOk(n, scans[i])
    requires if IsProgressive(scans) then !ProgScanOk(n, scans[..i], scans[i]) else !SeqScanOk(n, scans[i])
    ensures Blames(n, scans, BadProgScript(i + 1))
  {
    hide FineTo, ProgScanOk, SeqScanOk;
  }

  lemma BlameAgain(n: nat, scans: seq<ScanInfo>, i: nat, ci: int)
    requires i < |scans| && FineTo(n, scans, i) && !IsProgressive(scans) && SeqScanOk(n, scans[i])
    requires ci in scans[i].comps && Sent(scans[..i], ci)
    ensures Blames(n, scans, BadScanScript(i + 1))
  {
    hide FineTo;
    assert SentAgain(scans[..i], scans[i]);
  }

  lemma BlameMissing(n: nat, scans: seq<ScanInfo>, ci: nat)
    requires scans != [] && ci < n && Missing(scans, ci)
    requires if IsProgressive(scans) then forall j :: 0 <= j < |scans| ==> ProgScanOk(n, scans[..j], scans[j]) else SeqScansOk(n, scans)
    ensures Blames(n, scans, MissingData)
  {
    hide ProgScanOk, SeqScansOk, Missing;
    assert scans[..|scans|] == scans;
    if IsProgressive(scans) { ProgFineTo(n, scans, |scans|); }
  }

  lemma LastAlSnoc(before: seq<ScanInfo>, sc: ScanInfo, ci: int, k: int)
    ensures LastAl(before + [sc], ci, k) == if Sends(sc, ci, k) then sc.Al else LastAl(before, ci, k)
  {
    assert (before + [sc])[..|before|] == before;
  }

  // ----- validate_script -----

  /** Component indexes of one scan. */
  method CheckComps(n: nat, sc: ScanInfo, scanno: nat) returns (err: Option<ScriptError>)
    ensures err.None? <==> CompsOk(n, sc)
    ensures err.Some? ==> err.value == if 1 <= |sc.comps| <= 4 then BadScanScript(scanno) else ComponentCount
  {
    var ncomps := |sc.comps|;
    if ncomps <= 0 || ncomps > MAX_COMPS_IN_SCAN {
      return Some(ComponentCount);
    }
    for ci := 0 to ncomps
      invariant forall i :: 0 <= i < ci ==> 0 <= sc.comps[i] < n
      invariant forall i, j :: 0 <= i < j < ci ==> sc.comps[i] < sc.comps[j]
    {
      var thisi := sc.comps[ci];
      if thisi < 0 || thisi >= n {
        return Some(BadScanScript(scanno));
      }
      if ci > 0 && thisi <= sc.comps[ci - 1] {
        return Some(BadScanScript(scanno));
      }
    }
    err := None;
  }

  /** last_bitpos for components 0..n says what the scans have sent. */
  ghost predicate Tracks(n: nat, lastBitpos: array2<int>, scans: seq<ScanInfo>)
    reads lastBitpos
  {
    lastBitpos.Length0 == n && lastBitpos.Length1 == 64 &&
    forall ci, k :: 0 <= ci < n && 0 <= k < 64 ==> lastBitpos[ci, k] == LastAl(scans, ci, k)
  }

  /** One component of a progressive scan; its row of the table is updated. */
  method CheckBand(lastBitpos: array2<int>, ci: nat, sc: ScanInfo, scanno: nat) returns (err: Option<ScriptError>)
    requires ci < lastBitpos.Length0 && lastBitpos.Length1 == 64 && ProgParamsOk(sc)
    modifies lastBitpos
    ensures err.None? <==> (sc.Ss != 0 ==> old(lastBitpos[ci, 0]) >= 0) &&
                           forall k :: sc.Ss <= k <= sc.Se ==> Continues(sc, old(lastBitpos[ci, k]))
    ensures err.Some? ==> err.value == BadProgScript(scanno)
    ensures err.None? ==> forall c, k :: 0 <= c < lastBitpos.Length0 && 0 <= k < 64 ==>
              lastBitpos[c, k] == if c == ci && sc.Ss <= k <= sc.Se then sc.Al else old(lastBitpos[c, k])
  {
    if sc.Ss != 0 && lastBitpos[ci, 0] < 0 {
      return Some(BadProgScript(scanno));
    }
    var coefi := sc.Ss;
    while coefi <= sc.Se
      invariant sc.Ss <= coefi <= sc.Se + 1
      invariant forall k :: sc.Ss <= k < coefi ==> Continues(sc, old(lastBitpos[ci, k]))
      invariant forall c, k :: 0 <= c < lastBitpos.Length0 && 0 <= k < 64 ==>
              lastBitpos[c, k] == if c == ci && sc.Ss <= k < coefi then sc.Al else old(lastBitpos[c, k])
    {
      if lastBitpos[ci, coefi] < 0 {
        if sc.Ah != 0 {
          assert !Continues(sc, old(lastBitpos[ci, coefi]));
          return Some(BadProgScript(scanno));
        }
      } else {
        if sc.Ah != lastBitpos[ci, coefi] || sc.Al != sc.Ah - 1 {
          assert !Continues(sc, old(lastBitpos[ci, coefi]));
          return Some(BadProgScript(scanno));
        }
      }
      lastBitpos[ci, coefi] := sc.Al;
      coefi := coefi + 1;
    }
    err := None;
  }

  /** A progressive scan after the scans before it. */
  method CheckProgScan(n: nat, lastBitpos: array2<int>, sc: ScanInfo, scanno: nat, ghost before: seq<ScanInfo>)
      returns (err: Option<ScriptError>)
    requires Tracks(n, lastBitpos, before) && CompsOk(n, sc)
    modifies lastBitpos
    ensures err.None? <==> ProgScanOk(n, before, sc)
    ensures err.Some? ==> err.value == BadProgScript(scanno)
    ensures err.None? ==> Tracks(n, lastBitpos, before + [sc])
  {
    if sc.Ss < 0 || sc.Ss >= 64 || sc.Se < sc.Ss || sc.Se >= 64 ||
       sc.Ah < 0 || sc.Ah > MAX_AH_AL || sc.Al < 0 || sc.Al > MAX_AH_AL {
      return Some(BadProgScript(scanno));
    }
    if sc.Ss == 0 {
      if sc.Se != 0 {
        return Some(BadProgScript(scanno));
      }
    } else {
      if |sc.comps| != 1 {
        return Some(BadProgScript(scanno));
      }
    }
    for i := 0 to |sc.comps|
      invariant forall j :: 0 <= j < i ==> ContinuesComp(before, sc, sc.comps[j])
      invariant forall c, k :: 0 <= c < n && 0 <= k < 64 ==>
              lastBitpos[c, k] == if c in sc.comps[..i] && sc.Ss <= k <= sc.Se then sc.Al else LastAl(before, c, k)
    {
      err := CheckBand(lastBitpos, sc.comps[i], sc, scanno);
      if err.Some? {
        assert !ContinuesComp(before, sc, sc.comps[i]);
        return;
      }
      assert ContinuesComp(before, sc, sc.comps[i]);
      assert sc.comps[..i + 1] == sc.comps[..i] + [sc.comps[i]];
    }
    assert sc.comps[..|sc.comps|] == sc.comps;
    forall c, k | 0 <= c < n && 0 <= k < 64 ensures lastBitpos[c, k] == LastAl(before + [sc], c, k) {
      LastAlSnoc(before, sc, c, k);
    }
    err := None;
  }

  /** The progressive half of validate_script. */
  method ValidateProgressive(n: nat, scans: seq<ScanInfo>) returns (err: Option<ScriptError>)
    requires scans != [] && IsProgressive(scans)
    ensures err.None? <==> AcceptedProgressive(n, scans)
    ensures err.Some? ==> Blames(n, scans, err.value)
  {
    hide Blames, FineTo;
    var lastBitpos := new int[n, 64]((i, j) => -1);
    for i := 0 to |scans|
      invariant fresh(lastBitpos)
      invariant forall j :: 0 <= j < i ==> ProgScanOk(n, scans[..j], scans[j])
      invariant Tracks(n, lastBitpos, scans[..i])
    {
      ProgFineTo(n, scans, i);
      err := CheckComps(n, scans[i], i + 1);
      if err.Some? {
        assert !ProgScanOk(n, scans[..i], scans[i]);
        BlameComps(n, scans, i);
        return;
      }
      err := CheckProgScan(n, lastBitpos, scans[i], i + 1, scans[..i]);
      if err.Some? {
        assert !ProgScanOk(n, scans[..i], scans[i]);
        BlameParams(n, scans, i);
        return;
      }
      assert scans[..i + 1] == scans[..i] + [scans[i]];
    }
    assert scans[..|scans|] == scans;
    for ci := 0 to n
      invariant forall c :: 0 <= c < ci ==> LastAl(scans, c, 0) >= 0
    {
      if lastBitpos[ci, 0] < 0 {
        BlameMissing(n, scans, ci);
        return Some(MissingData);
      }
    }
    err := None;
  }

  /** The sequential half of validate_script. */
  method ValidateSequential(n: nat, scans: seq<ScanInfo>) returns (err: Option<ScriptError>)
    requires scans != [] && !IsProgressive(scans)
    ensures err.None? <==> AcceptedSequential(n, scans)
    ensures err.Some? ==> Blames(n, scans, err.value)
  {
    hide Blames;
    var componentSent := new bool[n](_ => false);
    for i := 0 to |scans|
      invariant fresh(componentSent)
      invariant SeqScansOk(n, scans[..i])
      invariant forall c :: 0 <= c < n ==> (componentSent[c] <==> Sent(scans[..i], c))
    {
      ghost var before := scans[..i];
      assert scans[..i + 1] == before + [scans[i]];
      err := CheckComps(n, scans[i], i + 1);
      if err.Some? {
        assert !SeqScanOk(n, scans[i]);
        BlameComps(n, scans, i);
        return;
      }
      var sc := scans[i];
      if sc.Ss != 0 || sc.Se != 63 || sc.Ah != 0 || sc.Al != 0 {
        assert !SeqScanOk(n, scans[i]);
        BlameParams(n, scans, i);
        return Some(BadProgScript(i + 1));
      }
      for ci := 0 to |sc.comps|
        invariant forall j :: 0 <= j < ci ==> !Sent(before, sc.comps[j])
        invariant forall c :: 0 <= c < n ==> (componentSent[c] <==> Sent(before, c) || c in sc.comps[..ci])
      {
        var thisi := sc.comps[ci];
        if componentSent[thisi] {
          assert sc.comps[ci] in sc.comps;
          SentTwice(n, scans, i, thisi);
          BlameAgain(n, scans, i, thisi);
          return Some(BadScanScript(i + 1));
        }
        componentSent[thisi] := true;
        assert sc.comps[..ci + 1] == sc.comps[..ci] + [thisi];
      }
      assert sc.comps[..|sc.comps|] == sc.comps;
      SeqScansSnoc(n, before, sc);
    }
    assert scans[..|scans|] == scans;
    for ci := 0 to n
      invariant forall c :: 0 <= c < ci ==> Sent(scans, c)
    {
      if !componentSent[ci] {
        BlameMissing(n, scans, ci);
        return Some(MissingData);
      }
    }
    err := None;
  }

  lemma SentTwice(n: nat, scans: seq<ScanInfo>, i: nat, ci: int)
    requires i < |scans| && ci in scans[i].comps && Sent(scans[..i], ci)
    ensures !SeqScansOk(n, scans)
  {
    var j :| 0 <= j < i && ci in scans[..i][j].comps;
    assert scans[j] == scans[..i][j];
  }

  lemma SeqScansSnoc(n: nat, before: seq<ScanInfo>, sc: ScanInfo)
    requires SeqScansOk(n, before) && SeqScanOk(n, sc)
    requires forall j :: 0 <= j < |sc.comps| ==> !Sent(before, sc.comps[j])
    ensures SeqScansOk(n, before + [sc])
    ensures forall c :: Sent(before + [sc], c) <==> Sent(before, c) || c in sc.comps
  {
    var all := before + [sc];
    forall c ensures Sent(all, c) <==> Sent(before, c) || c in sc.comps {
      if Sent(before, c) {
        var i :| 0 <= i < |before| && c in before[i].comps;
        assert all[i] == before[i];
      }
      if c in sc.comps {
        assert all[|before|] == sc;
      }
    }
    forall i, j, ci | 0 <= i < j < |all| && ci in all[i].comps ensures ci !in all[j].comps {
      if j == |before| && ci in sc.comps {
        assert Sent(before, ci);
      }
    }
  }

  /** validate_script: accepts exactly the legal scripts, and tells which of them
      are progressive. */
  method ValidateScript(n: nat, scans: seq<ScanInfo>) returns (r: Result<bool, ScriptError>)
    ensures r.Ok? <==> Accepted(n, scans)
    ensures r.Ok? ==> r.value == IsProgressive(scans)
    ensures r.Err? ==> Blames(n, scans, r.error)
  {
    if |scans| <= 0 {
      return Err(BadScanScript(0));
    }
    var err;
    if scans[0].Ss != 0 || scans[0].Se != 63 {
      err := ValidateProgressive(n, scans);
      r := if err.Some? then Err(err.value) else Ok(true);
    } else {
      err := ValidateSequential(n, scans);
      r := if err.Some? then Err(err.value) else Ok(false);
    }
  }
}
