/** Pass sequencing in the compressor: jcmaster.c, driven by jcapistd.c and jcapimin.c. */
module PassControl {
  import opened Wrappers
  import opened ScanScript

  datatype PassType = MainPass | HuffOptPass | OutputPass

  datatype BufMode = PassThru | SaveAndPass | CrankDest

  /** What the marker writer and the entropy encoder do: Gather and Output are finished
      passes over the data of a scan, with the given parameters. */
  datatype Event =
    | FrameHeader
    | ScanHeader(sc: ScanInfo)
    | Gather(sc: ScanInfo, mode: BufMode)
    | Output(sc: ScanInfo, mode: BufMode)

  datatype Error =
    | Script(e: ScriptError)
    | TooManyComponents
    | BadMcuSize
    | BadBufferMode

  /** The image: blocks per MCU of each component, and the script, [] if there is none. */
  datatype Job = Job(blocks: seq<nat>, script: seq<ScanInfo>, optimize: bool)

  // ----- what is to be sent -----

  function AllComps(n: nat): seq<int> {
    seq(n, i => i)
  }

  /** The scans of the file: without a script, one with everything in it. */
  function Scans(j: Job): (r: seq<ScanInfo>)
    ensures r != []
  {
    if j.script == [] then [ScanInfo(AllComps(|j.blocks|), 0, 63, 0, 0)] else j.script
  }

  predicate Progressive(j: Job) {
    j.script != [] && IsProgressive(j.script)
  }

  /** Default tables do not suit progressive files. */
  predicate Optimized(j: Job) {
    j.optimize || Progressive(j)
  }

  predicate DcRefinement(sc: ScanInfo) {
    sc.Ss == 0 && sc.Ah != 0
  }

  /** Statistics are gathered for every scan of an optimized file that uses tables. */
  predicate Gathers(j: Job, k: nat)
    requires k < |Scans(j)|
  {
    Optimized(j) && !DcRefinement(Scans(j)[k])
  }

  /** The first pass over the image may have to fill the buffer; later ones read it. */
  function FirstMode(j: Job, transcode: bool, k: nat): BufMode {
    if k > 0 || transcode then CrankDest
    else if Optimized(j) || |Scans(j)| > 1 then SaveAndPass
    else PassThru
  }

  function Headers(sc: ScanInfo, k: nat): seq<Event> {
    (if k == 0 then [FrameHeader] else []) + [ScanHeader(sc)]
  }

  /** A gathering pass if there is one, and the headers. */
  function BeforeOutput(j: Job, transcode: bool, k: nat): seq<Event>
    requires k < |Scans(j)|
  {
    var sc := Scans(j)[k];
    (if Gathers(j, k) then [Gather(sc, FirstMode(j, transcode, k))] else []) + Headers(sc, k)
  }

  function OutputMode(j: Job, transcode: bool, k: nat): BufMode
    requires k < |Scans(j)|
  {
    if Gathers(j, k) then CrankDest else FirstMode(j, transcode, k)
  }

  /** All that happens for scan k. */
  function ScanEvents(j: Job, transcode: bool, k: nat): seq<Event>
    requires k < |Scans(j)|
  {
    BeforeOutput(j, transcode, k) + [Output(Scans(j)[k], OutputMode(j, transcode, k))]
  }

  /** All that happens for the first k scans. */
  function Expected(j: Job, transcode: bool, k: nat): seq<Event>
    requires k <= |Scans(j)|
  {
    if k == 0 then [] else Expected(j, transcode, k - 1) + ScanEvents(j, transcode, k - 1)
  }

  ghost predicate InFrame(n: nat, comps: seq<int>) {
    forall i :: 0 <= i < |comps| ==> 0 <= comps[i] < n
  }

  /** blocks_in_MCU for the components of a scan. */
  function McuSize(blocks: seq<nat>, comps: seq<int>): nat
    requires InFrame(|blocks|, comps)
  {
    if comps == [] then 0 else McuSize(blocks, comps[..|comps| - 1]) + blocks[comps[|comps| - 1]]
  }

  const C_MAX_BLOCKS_IN_MCU: nat := 10

  ghost predicate ScanFits(j: Job, sc: ScanInfo) {
    1 <= |sc.comps| <= MAX_COMPS_IN_SCAN && InFrame(|j.blocks|, sc.comps) &&
    (|sc.comps| > 1 ==> McuSize(j.blocks, sc.comps) <= C_MAX_BLOCKS_IN_MCU)
  }

  /** The first n scans pass per_scan_setup. */
  ghost predicate AllFit(j: Job, n: nat) {
    n <= |Scans(j)| && forall k :: 0 <= k < n ==> ScanFits(j, Scans(j)[k])
  }

  ghost predicate Legal(j: Job) {
    (j.script == [] || Accepted(|j.blocks|, j.script)) && AllFit(j, |Scans(j)|)
  }

  lemma {:induction false} McuSizeGrows(blocks: seq<nat>, comps: seq<int>, n: nat)
    requires n <= |comps| && InFrame(|blocks|, comps)
    ensures McuSize(blocks, comps[..n]) <= McuSize(blocks, comps)
    decreases |comps|
  {
    if n == |comps| {
      assert comps[..n] == comps;
    } else {
      assert comps[..|comps| - 1][..n] == comps[..n];
      McuSizeGrows(blocks, comps[..|comps| - 1], n);
    }
  }

  /** The first scan of a script is never a refinement. */
  lemma FirstScanGathers(j: Job)
    requires j.script == [] || Accepted(|j.blocks|, j.script)
    ensures !DcRefinement(Scans(j)[0])
  {
    if j.script != [] && AcceptedProgressive(|j.blocks|, j.script) {
      var sc := j.script[0];
      assert ProgScanOk(|j.blocks|, j.script[..0], sc);
      assert ContinuesComp([], sc, sc.comps[0]);
      assert Continues(sc, LastAl([], sc.comps[0], sc.Ss));
    }
  }

  lemma CompsInFrame(j: Job, k: nat)
    requires j.script != [] && Accepted(|j.blocks|, j.script) && k < |j.script|
    ensures CompsOk(|j.blocks|, j.script[k])
  {
    if AcceptedProgressive(|j.blocks|, j.script) {
      assert ProgScanOk(|j.blocks|, j.script[..k], j.script[k]);
    } else {
      assert SeqScanOk(|j.blocks|, j.script[k]);
    }
  }

  // ----- what a log says -----

  /** The scans that are output, in order. */
  function Outputs(log: seq<Event>): seq<ScanInfo> {
    if log == [] then []
    else Outputs(log[..|log| - 1]) + if log[|log| - 1].Output? then [log[|log| - 1].sc] else []
  }

  /** The scans whose headers are written, in order. */
  function ScanHeaders(log: seq<Event>): seq<ScanInfo> {
    if log == [] then []
    else ScanHeaders(log[..|log| - 1]) + if log[|log| - 1].ScanHeader? then [log[|log| - 1].sc] else []
  }

  /** The scans whose statistics are gathered, in order. */
  function Gathered(log: seq<Event>): seq<ScanInfo> {
    if log == [] then []
    else Gathered(log[..|log| - 1]) + if log[|log| - 1].Gather? then [log[|log| - 1].sc] else []
  }

  function FrameHeaders(log: seq<Event>): nat {
    if log == [] then 0
    else FrameHeaders(log[..|log| - 1]) + if log[|log| - 1].FrameHeader? then 1 else 0
  }

  /** Those that are not refinements of DC coefficients. */
  function NotDcRefinements(scans: seq<ScanInfo>): seq<ScanInfo> {
    if scans == [] then []
    else
      var sc := scans[|scans| - 1];
      NotDcRefinements(scans[..|scans| - 1]) + if sc.Ss != 0 || sc.Ah == 0 then [sc] else []
  }

  /** The first pass over the data passes it on and saves it if it is needed again; the
      others read it from the buffer, as all do in transcoding. */
  predicate ModeFits(j: Job, transcode: bool, before: seq<Event>, mode: BufMode) {
    mode == if transcode || Outputs(before) != [] || Gathered(before) != [] then CrankDest
            else if |Scans(j)| == 1 && !Optimized(j) then PassThru
            else SaveAndPass
  }

  /** Event e is due after the events before: the frame header ahead of all scan headers;
      a scan header once the earlier scans are output; statistics of the next scan ahead
      of its header; a scan right after its header. */
  predicate InPlace(j: Job, transcode: bool, before: seq<Event>, e: Event) {
    match e
    case FrameHeader => FrameHeaders(before) == 0 && ScanHeaders(before) == []
    case ScanHeader(sc) => FrameHeaders(before) == 1 && ScanHeaders(before) == Outputs(before)
    case Gather(sc, mode) =>
      ModeFits(j, transcode, before, mode) && (sc.Ss != 0 || sc.Ah == 0) && ScanHeaders(before) == Outputs(before) &&
      |Outputs(before)| < |Scans(j)| && sc == Scans(j)[|Outputs(before)|]
    case Output(sc, mode) =>
      ModeFits(j, transcode, before, mode) && before != [] && before[|before| - 1] == ScanHeader(sc)
  }

  ghost predicate Orderly(j: Job, transcode: bool, log: seq<Event>) {
    forall i :: 0 <= i < |log| ==> InPlace(j, transcode, log[..i], log[i])
  }

  /** The log after k scans. */
  ghost predicate Through(j: Job, transcode: bool, log: seq<Event>, k: nat) {
    k <= |Scans(j)| && Orderly(j, transcode, log) && Outputs(log) == ScanHeaders(log) == Scans(j)[..k] &&
    FrameHeaders(log) == (if k > 0 then 1 else 0) &&
    Gathered(log) == (if Optimized(j) then NotDcRefinements(Scans(j)[..k]) else [])
  }

  lemma Logged(log: seq<Event>, e: Event)
    ensures Outputs(log + [e]) == Outputs(log) + if e.Output? then [e.sc] else []
    ensures ScanHeaders(log + [e]) == ScanHeaders(log) + if e.ScanHeader? then [e.sc] else []
    ensures Gathered(log + [e]) == Gathered(log) + if e.Gather? then [e.sc] else []
    ensures FrameHeaders(log + [e]) == FrameHeaders(log) + if e.FrameHeader? then 1 else 0
  {
    assert (log + [e])[..|log|] == log;
  }

  lemma OneMore(j: Job, transcode: bool, log: seq<Event>, e: Event)
    requires Orderly(j, transcode, log) && InPlace(j, transcode, log, e)
    ensures Orderly(j, transcode, log + [e])
  {
    hide InPlace;
    var log1 := log + [e];
    forall i | 0 <= i < |log1| ensures InPlace(j, transcode, log1[..i], log1[i]) {
      assert log1[..i] == log[..i];
      if i == |log| { assert log[..i] == log; }
    }
  }

  /** A gathering pass, if there is one. */
  lemma GatherLogged(j: Job, transcode: bool, log: seq<Event>, k: nat)
    requires k < |Scans(j)| && Through(j, transcode, log, k) && Gathers(j, k)
    ensures var sc := Scans(j)[k];
            var log1 := log + [Gather(sc, FirstMode(j, transcode, k))];
            Orderly(j, transcode, log1) && Outputs(log1) == ScanHeaders(log1) == Scans(j)[..k] &&
            FrameHeaders(log1) == (if k > 0 then 1 else 0) && Gathered(log1) == Gathered(log) + [sc]
  {
    hide Outputs, ScanHeaders, Gathered, FrameHeaders, Orderly, NotDcRefinements, Optimized, Scans;
    var gather := Gather(Scans(j)[k], FirstMode(j, transcode, k));
    Logged(log, gather);
    assert |Scans(j)[..k]| == k;
    if k == 0 { NoRefinements([]); }
    OneMore(j, transcode, log, gather);
  }

  lemma NoRefinements(scans: seq<ScanInfo>)
    requires scans == []
    ensures NotDcRefinements(scans) == []
  {
  }

  /** The headers of a scan. */
  lemma HeadersLogged(j: Job, transcode: bool, log: seq<Event>, sc: ScanInfo, k: nat)
    requires Orderly(j, transcode, log) && Outputs(log) == ScanHeaders(log) && |Outputs(log)| == k
    requires FrameHeaders(log) == if k > 0 then 1 else 0
    ensures var log1 := log + Headers(sc, k);
            Orderly(j, transcode, log1) && Outputs(log1) == Outputs(log) && ScanHeaders(log1) == ScanHeaders(log) + [sc] &&
            FrameHeaders(log1) == 1 && Gathered(log1) == Gathered(log) && log1 != [] && log1[|log1| - 1] == ScanHeader(sc)
  {
    hide Outputs, ScanHeaders, Gathered, FrameHeaders, Orderly, ModeFits;
    var log2 := if k == 0 then log + [FrameHeader] else log;
    assert log + Headers(sc, k) == log2 + [ScanHeader(sc)];
    Logged(log, FrameHeader);
    if k == 0 { OneMore(j, transcode, log, FrameHeader); }
    Logged(log2, ScanHeader(sc));
    OneMore(j, transcode, log2, ScanHeader(sc));
  }

  lemma ScanLogged(j: Job, transcode: bool, log: seq<Event>, k: nat)
    requires k < |Scans(j)| && Through(j, transcode, log, k)
    ensures Through(j, transcode, log + ScanEvents(j, transcode, k), k + 1)
  {
    hide Outputs, ScanHeaders, Gathered, FrameHeaders, Orderly, NotDcRefinements, Scans, FirstMode, OutputMode, Headers, Optimized, InPlace;
    var sc := Scans(j)[k];
    var log1 := if Gathers(j, k) then log + [Gather(sc, FirstMode(j, transcode, k))] else log;
    if Gathers(j, k) { GatherLogged(j, transcode, log, k); }
    HeadersLogged(j, transcode, log1, sc, k);
    var log2, out := log1 + Headers(sc, k), Output(sc, OutputMode(j, transcode, k));
    EventsAdd(j, transcode, log, k);
    Logged(log2, out);
    NoRefinements(Scans(j)[..0]);
    OutputInPlace(j, transcode, log2, k);
    OneMore(j, transcode, log2, out);
    assert Scans(j)[..k + 1] == Scans(j)[..k] + [sc];
    OneMoreScan(Scans(j), k);
  }

  lemma OneMoreScan(scans: seq<ScanInfo>, k: nat)
    requires k < |scans|
    ensures NotDcRefinements(scans[..k + 1]) ==
            NotDcRefinements(scans[..k]) + if scans[k].Ss != 0 || scans[k].Ah == 0 then [scans[k]] else []
  {
    assert scans[..k + 1][..k] == scans[..k];
  }

  lemma OutputInPlace(j: Job, transcode: bool, log: seq<Event>, k: nat)
    requires k < |Scans(j)| && Outputs(log) == Scans(j)[..k] && log != [] && log[|log| - 1] == ScanHeader(Scans(j)[k])
    requires Gathers(j, k) ==> Gathered(log) != []
    requires !Gathers(j, k) && k == 0 ==> Gathered(log) == []
    ensures InPlace(j, transcode, log, Output(Scans(j)[k], OutputMode(j, transcode, k)))
  {
    hide Outputs, Gathered, Scans, Progressive, DcRefinement;
    assert |Scans(j)[..k]| == k;
  }

  lemma EventsAdd(j: Job, transcode: bool, log: seq<Event>, k: nat)
    requires k < |Scans(j)|
    ensures var sc := Scans(j)[k];
            var log1 := if Gathers(j, k) then log + [Gather(sc, FirstMode(j, transcode, k))] else log;
            log + ScanEvents(j, transcode, k) == log1 + Headers(sc, k) + [Output(sc, OutputMode(j, transcode, k))]
  {
    hide Gathers, FirstMode, OutputMode, Scans, Headers;
    var sc := Scans(j)[k];
    var out := [Output(sc, OutputMode(j, transcode, k))];
    var gather := [Gather(sc, FirstMode(j, transcode, k))];
    if Gathers(j, k) {
      assert log + (gather + Headers(sc, k) + out) == log + gather + Headers(sc, k) + out;
    } else {
      assert [] + Headers(sc, k) == Headers(sc, k);
      assert log + (Headers(sc, k) + out) == log + Headers(sc, k) + out;
    }
  }

  /** Whatever the job: the frame header comes first; every scan has its header and is
      output right after it, once and in order; in an optimized file the statistics of
      every scan but DC refinements are gathered right before. */
  lemma {:induction false} EachScanOnce(j: Job, transcode: bool, k: nat)
    requires k <= |Scans(j)|
    ensures Through(j, transcode, Expected(j, transcode, k), k)
  {
    hide ScanEvents, Scans, Through;
    if k == 0 {
      Nothing(j, transcode);
    } else {
      EachScanOnce(j, transcode, k - 1);
      ScanLogged(j, transcode, Expected(j, transcode, k - 1), k - 1);
    }
  }

  lemma Nothing(j: Job, transcode: bool)
    ensures Through(j, transcode, [], 0)
  {
    assert Scans(j)[..0] == [];
  }

  lemma AllThrough(j: Job, transcode: bool)
    ensures var log := Expected(j, transcode, |Scans(j)|);
            Orderly(j, transcode, log) && Outputs(log) == ScanHeaders(log) == Scans(j) && FrameHeaders(log) == 1 &&
            Gathered(log) == if Optimized(j) then NotDcRefinements(Scans(j)) else []
  {
    hide Expected, Orderly, Outputs, ScanHeaders, Gathered, FrameHeaders, NotDcRefinements, Optimized;
    EachScanOnce(j, transcode, |Scans(j)|);
    assert Scans(j)[..|Scans(j)|] == Scans(j);
  }

  lemma FirstModes(j: Job, transcode: bool, k: nat)
    ensures k > 0 || transcode ==> FirstMode(j, transcode, k) == CrankDest
  {
  }

  lemma NoneChecked(j: Job, transcode: bool)
    ensures AllFit(j, 0) && Expected(j, transcode, 0) == [] && |Scans(j)| == if j.script == [] then 1 else |j.script|
  {
  }

  // ----- the master controller -----

  class Master {
    const j: Job
    const transcode: bool
    var numScans: nat
    var optimizeCoding: bool
    var fullBuffer: bool
    var passType: PassType
    var passNumber: nat
    var totalPasses: nat
    var scanNumber: nat
    var callPassStartup: bool
    var isLastPass: bool
    var cur: ScanInfo          // set by select_scan_parameters
    var gathering: bool        // how the entropy encoder was started
    var bufMode: BufMode       // how the coefficient controller was started
    var log: seq<Event>

    constructor (job: Job, transcoding: bool)
      ensures j == job && transcode == transcoding && log == []
    {
      j, transcode, log := job, transcoding, [];
    }

    /** What jinit_c_master_control and the choice of buffer settle for good. */
    ghost predicate Settled()
      reads this
    {
      (j.script == [] || Accepted(|j.blocks|, j.script)) && numScans == |Scans(j)| && optimizeCoding == Optimized(j) &&
      totalPasses == (if optimizeCoding then 2 * numScans else numScans) &&
      fullBuffer == (transcode || numScans > 1 || optimizeCoding)
    }

    /** Before a pass. A pass over scan k may have come before. */
    ghost predicate Between()
      reads this
    {
      Settled() && scanNumber <= numScans && !callPassStartup && isLastPass == (passNumber == totalPasses) &&
      AllFit(j, scanNumber) &&
      match passType
      case MainPass => !transcode && passNumber == 0 && scanNumber == 0 && log == []
      case HuffOptPass =>
        optimizeCoding && passNumber == 2 * scanNumber && (scanNumber == 0 ==> transcode) &&
        log == Expected(j, transcode, scanNumber)
      case OutputPass =>
        if optimizeCoding then
          passNumber == 2 * scanNumber + 1 && scanNumber < numScans && Gathers(j, scanNumber) && cur == Scans(j)[scanNumber] &&
          AllFit(j, scanNumber + 1) && log == Expected(j, transcode, scanNumber) + [Gather(cur, FirstMode(j, transcode, scanNumber))]
        else
          passNumber == scanNumber && log == Expected(j, transcode, scanNumber) && (scanNumber == 0 ==> transcode)
    }

    /** An error of the script. */
    ghost predicate ScriptAtFault(e: Error) {
      e.Script? && Blames(|j.blocks|, j.script, e.e)
    }

    /** Validates the script, if there is one. Progressive files need optimal tables. */
    method ReadScript() returns (err: Option<Error>)
      modifies `numScans, `optimizeCoding
      ensures err.None? <==> j.script == [] || Accepted(|j.blocks|, j.script)
      ensures err.None? ==> numScans == |Scans(j)| && optimizeCoding == Optimized(j)
      ensures err.Some? ==> ScriptAtFault(err.value)
    {
      hide Accepted, Blames;
      var progressive := false;
      optimizeCoding := j.optimize;
      if j.script != [] {
        var r := ValidateScript(|j.blocks|, j.script);
        if r.Err? {
          return Some(Script(r.error));
        }
        progressive := r.value;
        numScans := |j.script|;
      } else {
        numScans := 1;
      }
      if progressive {
        optimizeCoding := true;
      }
      err := None;
    }

    /** jinit_c_master_control, and the choice of buffer in jinit_compress_master. */
    method Init() returns (err: Option<Error>)
      requires log == []
      modifies this
      ensures err.None? <==> j.script == [] || Accepted(|j.blocks|, j.script)
      ensures err.None? ==> Between() && !isLastPass && passNumber == 0
      ensures err.Some? ==> ScriptAtFault(err.value)
    {
      NoneChecked(j, transcode);
      hide Accepted, AllFit, ScanFits, Headers, Expected, Scans, Gathers, FirstMode, Blames;
      isLastPass, callPassStartup := false, false;
      err := ReadScript();
      if err.Some? {
        return;
      }
      if transcode {
        passType := if optimizeCoding then HuffOptPass else OutputPass;
      } else {
        passType := MainPass;
      }
      scanNumber, passNumber := 0, 0;
      totalPasses := if optimizeCoding then numScans * 2 else numScans;
      fullBuffer := transcode || numScans > 1 || optimizeCoding;
    }

    /** select_scan_parameters */
    method SelectScanParameters() returns (err: Option<Error>)
      requires Settled() && scanNumber < numScans
      modifies `cur
      ensures err.None? ==> cur == Scans(j)[scanNumber] && InFrame(|j.blocks|, cur.comps)
      ensures err.Some? ==> |Scans(j)[scanNumber].comps| > 4 && err.value == TooManyComponents
    {
      if j.script != [] {
        cur := j.script[scanNumber];
        CompsInFrame(j, scanNumber);
      } else {
        if |j.blocks| > MAX_COMPS_IN_SCAN {
          return Some(TooManyComponents);
        }
        cur := ScanInfo(AllComps(|j.blocks|), 0, 63, 0, 0);
      }
      err := None;
    }

    /** per_scan_setup, as far as it can fail */
    method PerScanSetup() returns (err: Option<Error>)
      requires InFrame(|j.blocks|, cur.comps)
      ensures err.None? <==> ScanFits(j, cur)
      ensures err.Some? ==> err.value == if 1 <= |cur.comps| <= 4 then BadMcuSize else TooManyComponents
    {
      if |cur.comps| == 1 {
        return None;
      }
      if |cur.comps| <= 0 || |cur.comps| > MAX_COMPS_IN_SCAN {
        return Some(TooManyComponents);
      }
      var blocksInMcu := 0;
      for ci := 0 to |cur.comps|
        invariant blocksInMcu == McuSize(j.blocks, cur.comps[..ci]) <= C_MAX_BLOCKS_IN_MCU
      {
        assert cur.comps[..ci + 1][..ci] == cur.comps[..ci];
        McuSizeGrows(j.blocks, cur.comps, ci + 1);
        var mcublks := j.blocks[cur.comps[ci]];
        if blocksInMcu + mcublks > C_MAX_BLOCKS_IN_MCU {
          return Some(BadMcuSize);
        }
        blocksInMcu := blocksInMcu + mcublks;
      }
      assert cur.comps[..|cur.comps|] == cur.comps;
      err := None;
    }

    /** Select and set up the current scan. */
    method SetupScan() returns (err: Option<Error>)
      requires Settled() && scanNumber < numScans
      modifies `cur
      ensures err.None? <==> ScanFits(j, Scans(j)[scanNumber])
      ensures err.None? ==> cur == Scans(j)[scanNumber]
      ensures err.Some? ==> err.value == if 1 <= |Scans(j)[scanNumber].comps| <= 4 then BadMcuSize else TooManyComponents
    {
      err := SelectScanParameters();
      if err.None? {
        err := PerScanSetup();
      }
    }

    /** start_pass_coef: the mode must suit the buffer there is. */
    method StartCoef(mode: BufMode) returns (err: Option<Error>)
      modifies `bufMode
      ensures err.None? <==> (mode.PassThru? <==> !fullBuffer)
      ensures err.None? ==> bufMode == mode
    {
      if mode.PassThru? == fullBuffer {
        return Some(BadBufferMode);
      }
      bufMode := mode;
      err := None;
    }

    /** During a pass. */
    ghost predicate Running()
      reads this
    {
      Settled() && scanNumber < numScans && cur == Scans(j)[scanNumber] && AllFit(j, scanNumber + 1) &&
      isLastPass == (passNumber == totalPasses - 1) &&
      var before := Expected(j, transcode, scanNumber);
      match passType
      case MainPass =>
        !transcode && passNumber == 0 && scanNumber == 0 && gathering == optimizeCoding && bufMode == FirstMode(j, transcode, 0) &&
        log == (if optimizeCoding || callPassStartup then [] else Headers(cur, 0)) && (callPassStartup ==> !optimizeCoding)
      case HuffOptPass =>
        optimizeCoding && passNumber == 2 * scanNumber && (scanNumber == 0 ==> transcode) && gathering && bufMode == CrankDest &&
        !callPassStartup && Gathers(j, scanNumber) && log == before
      case OutputPass =>
        passNumber == (if optimizeCoding then 2 * scanNumber + 1 else scanNumber) && !gathering && bufMode == CrankDest &&
        !callPassStartup && log == before + BeforeOutput(j, transcode, scanNumber) && OutputMode(j, transcode, scanNumber) == CrankDest
    }

    method PrepareMain() returns (err: Option<Error>)
      requires Between() && passType.MainPass?
      modifies this
      ensures err.None? || !AllFit(j, |Scans(j)|)
      ensures err.Some? ==> err.value == TooManyComponents || err.value == BadMcuSize
      ensures err.None? ==> Running() && passType.MainPass? && callPassStartup == !optimizeCoding
      ensures err.None? ==> passNumber == old(passNumber) && numScans == old(numScans) && totalPasses == old(totalPasses)
    {
      hide ScanFits, Accepted, InFrame, Expected, BeforeOutput, Progressive, DcRefinement, Headers;
      err := SetupScan();
      if err.Some? { return; }
      gathering := optimizeCoding;
      err := StartCoef(if totalPasses > 1 then SaveAndPass else PassThru);
      if err.Some? { return; }
      callPassStartup := !optimizeCoding;
      isLastPass := passNumber == totalPasses - 1;
    }

    method PrepareGather() returns (err: Option<Error>)
      requires Between() && passType.HuffOptPass? && !isLastPass
      modifies this
      ensures err.None? || !AllFit(j, |Scans(j)|)
      ensures err.Some? ==> err.value == TooManyComponents || err.value == BadMcuSize
      ensures err.None? ==> Running() && !passType.MainPass?
      ensures err.None? ==> old(passNumber) <= passNumber && numScans == old(numScans) && totalPasses == old(totalPasses)
    {
      hide ScanFits, Accepted, InFrame, Expected, Optimized, Headers, Scans, FirstMode;
      FirstScanGathers(j);
      FirstModes(j, transcode, scanNumber);
      err := SetupScan();
      if err.Some? { return; }
      if cur.Ss != 0 || cur.Ah == 0 {
        gathering := true;
        err := StartCoef(CrankDest);
        if err.Some? { return; }
        callPassStartup := false;
      } else {
        passType := OutputPass;
        passNumber := passNumber + 1;
        err := StartOutput();
        if err.Some? { return; }
      }
      isLastPass := passNumber == totalPasses - 1;
    }

    method PrepareOutput() returns (err: Option<Error>)
      requires Between() && passType.OutputPass? && !isLastPass
      modifies this
      ensures err.None? || !AllFit(j, |Scans(j)|)
      ensures err.Some? ==> err.value == TooManyComponents || err.value == BadMcuSize
      ensures err.None? ==> Running() && !passType.MainPass?
      ensures err.None? ==> passNumber == old(passNumber) && numScans == old(numScans) && totalPasses == old(totalPasses)
    {
      hide ScanFits, Accepted, InFrame, Expected, Progressive, Headers;
      if !optimizeCoding {
        err := SetupScan();
        if err.Some? { return; }
      }
      err := StartOutput();
      if err.Some? { return; }
      isLastPass := passNumber == totalPasses - 1;
      assert log == Expected(j, transcode, scanNumber) + BeforeOutput(j, transcode, scanNumber);
    }

    /** prepare_for_pass */
    method PrepareForPass() returns (err: Option<Error>)
      requires Between() && !isLastPass
      modifies this
      ensures err.None? || !AllFit(j, |Scans(j)|)
      ensures err.Some? ==> err.value == TooManyComponents || err.value == BadMcuSize
      ensures err.None? ==> Running() && passType.MainPass? == old(passType.MainPass?)
      ensures err.None? && passType.MainPass? ==> callPassStartup == !optimizeCoding
      ensures err.None? ==> old(passNumber) <= passNumber && numScans == old(numScans) && totalPasses == old(totalPasses)
    {
      hide Between, Running, AllFit;
      match passType {
        case MainPass => err := PrepareMain();
        case HuffOptPass => err := PrepareGather();
        case OutputPass => err := PrepareOutput();
      }
    }

    /** The common part of output passes. */
    method StartOutput() returns (err: Option<Error>)
      requires Settled()
      modifies `gathering, `bufMode, `log, `callPassStartup
      ensures err.None? <==> fullBuffer
      ensures err.None? ==> !gathering && bufMode == CrankDest && !callPassStartup && log == old(log) + Headers(cur, scanNumber)
    {
      gathering := false;
      err := StartCoef(CrankDest);
      if err.Some? { return; }
      if scanNumber == 0 {
        log := log + [FrameHeader];
      }
      log := log + [ScanHeader(cur)];
      callPassStartup := false;
    }

    /** A call of jpeg_write_scanlines: the first one writes the headers if they have
        been postponed (pass_startup). */
    method WriteScanlines()
      requires Running() && passType.MainPass?
      modifies `callPassStartup, `log
      ensures Running() && !callPassStartup
    {
      hide Accepted, AllFit, Expected;
      if callPassStartup {
        callPassStartup := false;
        log := log + [FrameHeader];
        log := log + [ScanHeader(cur)];
      }
    }

    /** finish_pass_master, after the first pass */
    method FinishMain()
      requires Running() && passType.MainPass? && !callPassStartup
      modifies this
      ensures Between() && passNumber == 1 && numScans == old(numScans) && totalPasses == old(totalPasses)
    {
      hide ScanFits, Accepted, InFrame, Headers, Progressive, DcRefinement;
      FirstScanGathers(j);
      assert Expected(j, transcode, 0) == [];
      log := log + [if gathering then Gather(cur, bufMode) else Output(cur, bufMode)];
      passType := OutputPass;
      if !optimizeCoding {
        scanNumber := scanNumber + 1;
        assert log == Expected(j, transcode, 0) + ScanEvents(j, transcode, 0);
      }
      passNumber := passNumber + 1;
    }

    /** finish_pass_master, after statistics have been gathered */
    method FinishGather()
      requires Running() && passType.HuffOptPass? && !callPassStartup
      modifies this
      ensures Between() && passNumber == old(passNumber) + 1 && numScans == old(numScans) && totalPasses == old(totalPasses)
    {
      hide ScanFits, Accepted, InFrame, Headers, Progressive, DcRefinement, Expected;
      log := log + [if gathering then Gather(cur, bufMode) else Output(cur, bufMode)];
      passType := OutputPass;
      passNumber := passNumber + 1;
    }

    /** finish_pass_master, after output from the buffer */
    method FinishOutput()
      requires Running() && passType.OutputPass? && !callPassStartup
      modifies this
      ensures Between() && passNumber == old(passNumber) + 1 && numScans == old(numScans) && totalPasses == old(totalPasses)
    {
      hide ScanFits, Accepted, InFrame, Headers, Progressive, DcRefinement, BeforeOutput;
      log := log + [if gathering then Gather(cur, bufMode) else Output(cur, bufMode)];
      assert log == Expected(j, transcode, scanNumber) + ScanEvents(j, transcode, scanNumber);
      hide ScanEvents;
      if optimizeCoding {
        passType := HuffOptPass;
      }
      scanNumber := scanNumber + 1;
      passNumber := passNumber + 1;
    }

    /** finish_pass_master */
    method FinishPass()
      requires Running() && !callPassStartup
      modifies this
      ensures Between() && passNumber == old(passNumber) + 1 && numScans == old(numScans) && totalPasses == old(totalPasses)
    {
      hide Settled, AllFit;
      match passType {
        case MainPass => FinishMain();
        case HuffOptPass => FinishGather();
        case OutputPass => FinishOutput();
      }
    }

    /** A whole compression: jpeg_start_compress, calls of jpeg_write_scanlines, and
        jpeg_finish_compress. */
    method Compress(calls: nat) returns (err: Option<Error>)
      requires log == [] && calls > 0
      modifies this
      ensures err.None? <==> Legal(j)
      ensures err.Some? ==> if j.script == [] || Accepted(|j.blocks|, j.script) then err.value == TooManyComponents || err.value == BadMcuSize
                            else ScriptAtFault(err.value)
      ensures err.None? ==> log == Expected(j, transcode, |Scans(j)|) && isLastPass && passNumber == totalPasses
      ensures err.None? ==> Orderly(j, transcode, log) && Outputs(log) == Scans(j) && ScanHeaders(log) == Scans(j) && FrameHeaders(log) == 1
      ensures err.None? ==> Gathered(log) == if Optimized(j) then NotDcRefinements(Scans(j)) else []
    {
      hide Blames, Orderly, Outputs, ScanHeaders, Gathered, FrameHeaders, NotDcRefinements, Optimized, Expected;
      err := Init();
      if err.Some? { return; }
      hide Running, Settled, Accepted, AllFit;
      if !transcode {
        err := PrepareForPass();
        if err.Some? { return; }
        for i := 0 to calls
          invariant Running() && passType.MainPass? && (i > 0 ==> !callPassStartup)
          invariant passNumber == 0
        {
          WriteScanlines();
        }
        FinishPass();
      }
      while !isLastPass
        invariant Between()
        decreases totalPasses - passNumber
      {
        err := PrepareForPass();
        if err.Some? { return; }
        FinishPass();
      }
      AllThrough(j, transcode);
      err := None;
    }
  }
}
