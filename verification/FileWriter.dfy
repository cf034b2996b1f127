/** Writing a progressive file: headers, and for every scan tables made for it, what has
    changed in the headers, and the data. */
module FileWriter {
  import opened Wrappers
  import opened Tokens
  import opened HuffmanCode
  import opened HuffmanMerge
  import opened ScanCoding
  import opened ScanScript
  import opened ProgressiveEncoder
  import opened ScanSymbols
  import opened OptimizedScan
  import opened Markers
  import opened HeaderSync
  import opened MarkerWriter
  import opened FrameLayout
  import opened WholeFile
  import opened EndToEnd
  import CoefController
  import BlockLayouts
  import DerivedTables
  import R = Reconstruction
  import Stream = ScanStream

  /** A scan to be written: its parameters, restart interval, and MCUs. */
  datatype Plan = Plan(s: Scanning, ri: nat, mcus: seq<Mcu>)

  datatype FileError = BadHeader(header: WriteError) | BadScan(scan: EncodeError)

  /** The scan as the entropy encoder sees it. */
  ghost function PassOf(f: Frame, p: Plan): R.Pass
    requires ScanFits(f, p.s)
  {
    PassFor(f, p.s, p.ri, map[], EOI, [])
  }

  /** A scan of the image: its MCUs are those of the coefficient controller. */
  ghost predicate PlanOk(f: Frame, img: R.Image, p: Plan) {
    f.progressive && ScanningOk(f, p.s) && ScanFits(f, p.s) && R.Sized(|f.comps|, Rooms(f), img) &&
    R.PassShaped(|f.comps|, PassOf(f, p)) &&
    (ArrangedOk(f, PassOf(f, p), Cur(p.s)); p.mcus == R.Gather(|f.comps|, PassOf(f, p), Rooms(f), Lives(f), img))
  }

  ghost function ScanOfPlan(f: Frame, p: Plan): (s: Scan)
    requires ScanFits(f, p.s) && R.PassShaped(|f.comps|, PassOf(f, p))
    ensures ScanCoding.ScanOk(s)
  {
    R.ScanOf(|f.comps|, PassOf(f, p))
  }

  /** No table has too many symbols to count. */
  ghost predicate Countable(f: Frame, img: R.Image, p: Plan)
    requires PlanOk(f, img, p)
  {
    forall id :: id in ScanTables(ScanOfPlan(f, p)) ==>
      Total(Tally(Stream.ScanSegments(ScanOfPlan(f, p), p.ri, p.mcus), id), 256) < MAX_COUNT
  }

  /** The coefficients are in range, and no code gets too long. */
  ghost predicate Encodable(f: Frame, img: R.Image, p: Plan)
    requires PlanOk(f, img, p)
  {
    var s := ScanOfPlan(f, p);
    Stream.EncodesOk(s, p.ri, Stream.StartEncoder(s, p.ri), p.mcus) &&
    !AnyTooLong(ScanTables(s), Stream.ScanSegments(s, p.ri, p.mcus))
  }

  /** Every component has blocks in the MCUs of a scan, and there are MCUs. */
  lemma CompsCoded(f: Frame, img: R.Image, p: Plan)
    requires PlanOk(f, img, p)
    ensures EveryCompCoded(ScanOfPlan(f, p)) && McusShaped(ScanOfPlan(f, p), p.mcus) && p.mcus != []
  {
    hide R.LayoutOk, CompOf, BlockLayouts.MembershipOf, NumberOf, CoefController.BlocksInMcu, R.Gather;
    var cur, ps := Cur(p.s), PassOf(f, p);
    ArrangedOk(f, ps, cur);
    ShapeFits(f, cur);
    if |cur| == 1 {
      OneBlockAtLeast(f, cur);
    } else {
      var s := ShapeOf(f, cur);
      LayoutAt(f, cur, 0, 0);
      forall k | 0 <= k < |cur| ensures k in ps.membership {
        SomeMember(f, cur, k);
      }
      SomeMcus(f, cur);
    }
  }

  /** The scan's parameters for the entropy encoder; table numbers that are not used do not
      matter to it, and are zero here. */
  method MakeScan(f: Frame, s: Scanning, ghost img: R.Image, ghost p: Plan) returns (scan: Scan)
    requires PlanOk(f, img, p) && p.s == s
    ensures scan == ScanOfPlan(f, p)
  {
    hide CompOf, BlockLayouts.MembershipOf, R.Gather;
    var cur := Cur(s);
    var members := [0];
    if |cur| > 1 {
      LayoutAt(f, cur, 0, 0);
      members := BlockLayouts.MembershipOf(ShapeOf(f, cur), |cur|);
    }
    var comps := seq(|s.comps|, i requires 0 <= i < |s.comps| => UsedNumbers(true, s, s.comps[i]));
    scan := Scan(s.Ss, s.Se, s.Ah, s.Al, comps, members);
    ghost var want := ScanOfPlan(f, p);
    forall i | 0 <= i < |comps| ensures want.comps[i] == comps[i] {
      assert comps[i].index == cur[i];
    }
    assert want.comps == comps;
  }

  /** The tables of a scan, as a list and as a set. */
  lemma ListIsSet(f: Frame, img: R.Image, p: Plan, id: TableId)
    requires PlanOk(f, img, p)
    ensures id in TableList(f, p.s) <==> id in ScanTables(ScanOfPlan(f, p))
  {
    hide R.Gather, Arrange, McuFits;
    var s, scan := p.s, ScanOfPlan(f, p);
    assert forall i :: 0 <= i < |s.comps| ==>
      scan.comps[i] == CompInfo(s.comps[i].index, UsedNumbers(true, s, s.comps[i]).dcTbl, UsedNumbers(true, s, s.comps[i]).acTbl);
    if id in TableList(f, s) {
      var i := ListedBy(f, s, id, |s.comps|);
      assert scan.comps[i].index == s.comps[i].index;
    }
    if id in ScanTables(scan) {
      hide TableList, ScanTableList;
      var i :| 0 <= i < |s.comps| && id == if s.Ss > 0 then Ac(s.comps[i].acTbl) else Dc(s.comps[i].dcTbl);
      TableListNext(f, s, i);
      assert TablesOf(true, s, s.comps[i])[0] == id;
    }
  }

  lemma {:induction false} ListedBy(f: Frame, s: Scanning, id: TableId, n: nat) returns (i: nat)
    requires n <= |s.comps| && id in ScanTableList(f.progressive, s, n)
    ensures i < n && id in TablesOf(f.progressive, s, s.comps[i])
  {
    if id in TablesOf(f.progressive, s, s.comps[n - 1]) {
      i := n - 1;
    } else {
      i := ListedBy(f, s, id, n - 1);
    }
  }

  /** Generated tables can be sent. */
  lemma MadeFits(t: HuffTbl)
    requires Valid(t) && NumSymbols(t) <= 254
    ensures CountsFit(t)
  {
    hide FirstIdx, FitsLength;
    forall l | 1 <= l <= 16 ensures t.bits[l] < 256 {
      DerivedTables.IdxStep(t, l);
    }
  }

  /** With the tables made for it, a scan can be sent. */
  lemma TablesServe(w: Sender, f: Frame, s: Scanning, ri: nat, tables: map<TableId, HuffTbl>, segs: seq<seq<Token>>)
    requires SenderOk(w) && ScanningOk(f, s) && AllValid(tables) && AllMadeFor(tables, segs)
    requires forall id :: id in TableList(f, s) <==> id in tables
    ensures JobReady(w, f, Job(tables, ri, s))
    ensures ScanCodings(Install(w, tables), TableList(f, s)) == CodingsOf(tables)
    ensures var w1 := Install(w, tables);
            forall i :: 0 <= i < |TableList(f, s)| ==>
              TableList(f, s)[i] in w1.huff && Usable(TableList(f, s)[i], w1.huff[TableList(f, s)[i]].tbl)
  {
    hide TableList, Valid, CodingOf, NumSymbols, CountsFit, HasCode, DerivedTables.SymbolsFit, ScanningOk;
    forall id | id in tables ensures IdOk(id) && CountsFit(tables[id]) && Usable(id, tables[id]) {
      assert MadeFor(tables[id], id, segs);
      MadeFits(tables[id]);
      NumbersSmall(f, s, id);
    }
    InstalledOk(w, tables);
    TablesInstalled(w, tables, TableList(f, s));
  }

  ghost predicate AllUsable(tables: map<TableId, HuffTbl>) {
    forall id :: id in tables ==> Usable(id, tables[id])
  }

  lemma TablesInstalled(w: Sender, tables: map<TableId, HuffTbl>, ids: seq<TableId>)
    requires AllUsable(tables) && forall id :: id in ids <==> id in tables
    ensures AllValid(tables)
    ensures var w1 := Install(w, tables);
            ScanCodings(w1, ids) == CodingsOf(tables) && AllIn(w1, ids, |ids|) &&
            forall i :: 0 <= i < |ids| ==> ids[i] in w1.huff && Usable(ids[i], w1.huff[ids[i]].tbl)
  {
    hide Valid, CodingOf, DerivedTables.SymbolsFit;
    var w1 := Install(w, tables);
    forall id | id in tables ensures id in w1.huff && w1.huff[id].tbl == tables[id] && Usable(id, tables[id]) {
    }
    forall i | 0 <= i < |ids| ensures ids[i] in tables {
      assert ids[i] in ids;
    }
    assert ScanCodings(w1, ids).Keys == CodingsOf(tables).Keys;
  }

  lemma InstalledOk(w: Sender, tables: map<TableId, HuffTbl>)
    requires SenderOk(w) && forall id :: id in tables ==> IdOk(id) && CountsFit(tables[id])
    ensures SenderOk(Install(w, tables))
  {
    hide CountsFit;
  }

  lemma NumbersSmall(f: Frame, s: Scanning, id: TableId)
    requires ScanningOk(f, s) && id in TableList(f, s)
    ensures IdOk(id)
  {
    var i := ListedBy(f, s, id, |s.comps|);
  }

  /** The bytes of a scan without what follows it. */
  lemma DataOnly(w: Sender, f: Frame, img: R.Image, j: Job, more: seq<Byte>)
    requires Sendable(w, f, img, j)
    ensures ScanData(w, f, img, j, more) == ScanData(w, f, img, j, []) + more
    ensures ScanBytes(w, f, img, j, more) == ScanBytes(w, f, img, j, []) + more
  {
    hide Stream.Render, Sendable, JobCodings, JobSegments, ScanHeader, Stream.CoversAll;
    SendableReady(w, f, img, j);
    RenderRest(JobCodings(w, f, j), JobSegments(w, f, img, j), 0, more);
    SeqAssoc(ScanHeader(Install(w, j.install), f, j.s, j.ri).1, ScanData(w, f, img, j, []), more);
  }

  /** The scan that has been encoded is one that can be sent, and its data is as sent. */
  lemma PlanSent(w: Sender, f: Frame, img: R.Image, p: Plan, tables: map<TableId, HuffTbl>, bytes: seq<Byte>)
    requires SenderOk(w) && PlanOk(f, img, p) && AllValid(tables) && tables.Keys == ScanTables(ScanOfPlan(f, p))
    requires AllMadeFor(tables, Stream.ScanSegments(ScanOfPlan(f, p), p.ri, p.mcus))
    requires Stream.EncodesOk(ScanOfPlan(f, p), p.ri, Stream.StartEncoder(ScanOfPlan(f, p), p.ri), p.mcus)
    requires Stream.CoversAll(CodingsOf(tables), Stream.ScanSegments(ScanOfPlan(f, p), p.ri, p.mcus))
    requires bytes == Stream.Render(CodingsOf(tables), Stream.ScanSegments(ScanOfPlan(f, p), p.ri, p.mcus), 0, [])
    ensures Sendable(w, f, img, Job(tables, p.ri, p.s)) && ScanData(w, f, img, Job(tables, p.ri, p.s), []) == bytes
  {
    hide R.Gather, R.PassShaped, R.LayoutOk, Stream.Render, Stream.ScanSegments, Stream.CoversAll, Stream.EncodesOk, ScanCodings, CodingsOf;
    hide TableList, Install, JobReady, PassFor, ScanOfPlan, AllMadeFor, AllValid, SenderOk, ScanTables, EveryCompCoded;
    CompsCoded(f, img, p);
    forall id ensures id in TableList(f, p.s) <==> id in tables {
      ListIsSet(f, img, p, id);
    }
    TablesServe(w, f, p.s, p.ri, tables, Stream.ScanSegments(ScanOfPlan(f, p), p.ri, p.mcus));
    SameMcus(f, img, p, JobCodings(w, f, Job(tables, p.ri, p.s)));
  }

  lemma SameMcus(f: Frame, img: R.Image, p: Plan, T: Tables)
    requires PlanOk(f, img, p)
    ensures var ps := PassFor(f, p.s, p.ri, T, EOI, []);
            R.PassShaped(|f.comps|, ps) && R.ScanOf(|f.comps|, ps) == ScanOfPlan(f, p) && ps.T == T && ps.ri == p.ri &&
            R.LayoutOk(|f.comps|, ps, Rooms(f), Lives(f)) && R.Gather(|f.comps|, ps, Rooms(f), Lives(f), img) == p.mcus
  {
    hide R.LayoutOk, R.Gather;
    var ps0, ps := PassOf(f, p), PassFor(f, p.s, p.ri, T, EOI, []);
    ArrangedOk(f, ps0, Cur(p.s));
    ShapedAlike(|f.comps|, ps0, ps);
    ArrangedOk(f, ps, Cur(p.s));
    SameGather(|f.comps|, ps0, ps, Rooms(f), Lives(f), img);
  }

  /** Gathers statistics on a scan, makes its tables, and writes header and data. */
  method WriteScan(w: Writer, f: Frame, p: Plan, ghost img: R.Image) returns (r: Option<FileError>, ghost j: Job)
    requires SenderOk(w.Now()) && PlanOk(f, img, p) && Countable(f, img, p)
    modifies w
    ensures r.None? <==> Encodable(f, img, p)
    ensures r.None? ==> j.s == p.s && j.ri == p.ri && Sendable(old(w.Now()), f, img, j)
    ensures r.None? ==> SenderOk(w.Now()) && w.Now() == AfterJob(old(w.Now()), f, j)
    ensures r.None? ==> w.out == old(w.out) + ScanBytes(old(w.Now()), f, img, j, [])
  {
    hide SenderOk, Sendable, ScanHeader, ScanData, R.Gather, AnyTooLong, Stream.EncodesOk, Stream.ScanSegments, Stream.Render, Stream.CoversAll;
    hide AllMadeFor, AllValid, ScanTables, PassOf, Install, SameTables;
    j := Job(map[], p.ri, p.s);
    var s := MakeScan(f, p.s, img, p);
    CompsCoded(f, img, p);
    var e := EncodeOptimized(s, p.ri, p.mcus);
    if e.Err? {
      assert e.error == BadCoef || e.error == CodeTooLong;
      return Some(BadScan(e.error)), j;
    }
    j := Job(e.value.tables, p.ri, p.s);
    PlanSent(w.Now(), f, img, p, e.value.tables, e.value.bytes);
    SendableReady(w.Now(), f, img, j);
    ScanHeaderOk(Install(w.Now(), j.install), f, p.s, p.ri);
    w.InstallTables(e.value.tables);
    var err := w.WriteScanHeader(f, p.s, p.ri);
    ghost var header := ScanHeader(Install(old(w.Now()), j.install), f, p.s, p.ri).1;
    w.Append(e.value.bytes);
    SeqAssoc(old(w.out), header, e.value.bytes);
    r := None;
  }

  lemma ScanHeaderOk(w: Sender, f: Frame, s: Scanning, ri: nat)
    requires ScanReady(w, f, s)
    ensures SenderOk(w) && ScanningOk(f, s) && SenderOk(ScanHeader(w, f, s, ri).0)
  {
    var ids := TableList(f, s);
    assert SenderOk(SendHuffs(w, ids, |ids|).0);
  }

  // ----- all scans -----

  /** The encoder after the scans. */
  ghost function AfterJobs(w: Sender, f: Frame, img: R.Image, jobs: seq<Job>): Sender
    requires AllSendable(w, f, img, jobs)
    decreases jobs
  {
    if jobs == [] then w else AfterJobs(AfterJob(w, f, jobs[0]), f, img, jobs[1..])
  }

  /** The bytes of the scans. */
  ghost function JobsBytes(w: Sender, f: Frame, img: R.Image, jobs: seq<Job>): seq<Byte>
    requires AllSendable(w, f, img, jobs)
    decreases jobs
  {
    if jobs == [] then []
    else ScanBytes(w, f, img, jobs[0], []) + JobsBytes(AfterJob(w, f, jobs[0]), f, img, jobs[1..])
  }

  lemma {:induction false} JobsEnd(w: Sender, f: Frame, img: R.Image, jobs: seq<Job>)
    requires AllSendable(w, f, img, jobs)
    ensures ScansBytes(w, f, img, jobs) == JobsBytes(w, f, img, jobs) + [0xFF, EOI]
    decreases jobs
  {
    hide Sendable, ScanBytes, AfterJob, AllSendable, JobsBytes, AfterJobs, ScansBytes;
    NoJobs(w, f, img);
    if jobs != [] {
      FirstJob(w, f, img, jobs);
      NextBytes(w, f, img, jobs);
      var w1 := AfterJob(w, f, jobs[0]);
      JobsEnd(w1, f, img, jobs[1..]);
      DataOnly(w, f, img, jobs[0], ScansBytes(w1, f, img, jobs[1..]));
      SeqAssoc(ScanBytes(w, f, img, jobs[0], []), JobsBytes(w1, f, img, jobs[1..]), [0xFF, EOI]);
    }
  }

  lemma FirstJob(w: Sender, f: Frame, img: R.Image, jobs: seq<Job>)
    requires jobs != []
    ensures AllSendable(w, f, img, jobs) ==> Sendable(w, f, img, jobs[0])
    ensures Sendable(w, f, img, jobs[0]) ==>
      JobReady(w, f, jobs[0]) &&
      var w1 := AfterJob(w, f, jobs[0]);
      (AllSendable(w, f, img, jobs) <==> AllSendable(w1, f, img, jobs[1..])) &&
      (AllSendable(w1, f, img, jobs[1..]) ==>
        AfterJobs(w, f, img, jobs) == AfterJobs(w1, f, img, jobs[1..]) &&
        JobsBytes(w, f, img, jobs) == ScanBytes(w, f, img, jobs[0], []) + JobsBytes(w1, f, img, jobs[1..]))
  {
    if Sendable(w, f, img, jobs[0]) {
      SendableReady(w, f, img, jobs[0]);
    }
    hide Sendable, ScanBytes, AfterJob;
  }

  lemma {:induction false} OneMoreJob(w: Sender, f: Frame, img: R.Image, jobs: seq<Job>, j: Job)
    requires AllSendable(w, f, img, jobs) && Sendable(AfterJobs(w, f, img, jobs), f, img, j)
    ensures AllSendable(w, f, img, jobs + [j]) && JobReady(AfterJobs(w, f, img, jobs), f, j)
    ensures AfterJobs(w, f, img, jobs + [j]) == AfterJob(AfterJobs(w, f, img, jobs), f, j)
    ensures JobsBytes(w, f, img, jobs + [j]) == JobsBytes(w, f, img, jobs) + ScanBytes(AfterJobs(w, f, img, jobs), f, img, j, [])
    decreases jobs
  {
    hide Sendable, ScanBytes, AfterJob, JobReady, AllSendable, AfterJobs, JobsBytes;
    FirstJob(w, f, img, jobs + [j]);
    if jobs == [] {
      NoJobs(w, f, img);
      assert jobs + [j] == [j] && [j][1..] == [];
      NoJobs(AfterJob(w, f, j), f, img);
      assert ScanBytes(w, f, img, j, []) + [] == [] + ScanBytes(w, f, img, j, []);
    } else {
      FirstJob(w, f, img, jobs);
      var w1 := AfterJob(w, f, jobs[0]);
      assert (jobs + [j])[0] == jobs[0] && (jobs + [j])[1..] == jobs[1..] + [j];
      OneMoreJob(w1, f, img, jobs[1..], j);
      SeqAssoc(ScanBytes(w, f, img, jobs[0], []), JobsBytes(w1, f, img, jobs[1..]), ScanBytes(AfterJobs(w, f, img, jobs), f, img, j, []));
    }
  }

  lemma NoJobs(w: Sender, f: Frame, img: R.Image)
    ensures AllSendable(w, f, img, []) && AfterJobs(w, f, img, []) == w && JobsBytes(w, f, img, []) == []
    ensures ScansBytes(w, f, img, []) == [0xFF, EOI]
  {
  }

  /** Job k sends scan k. */
  ghost predicate Matching(plans: seq<Plan>, jobs: seq<Job>) {
    |jobs| <= |plans| && forall k :: 0 <= k < |jobs| ==> jobs[k].s == plans[k].s && jobs[k].ri == plans[k].ri
  }

  /** All scans and the end of the file. */
  method WriteScans(w: Writer, f: Frame, plans: seq<Plan>, ghost img: R.Image) returns (r: Option<FileError>, ghost jobs: seq<Job>)
    requires SenderOk(w.Now()) && forall k :: 0 <= k < |plans| ==> PlanOk(f, img, plans[k]) && Countable(f, img, plans[k])
    modifies w
    ensures r.None? <==> forall k :: 0 <= k < |plans| ==> Encodable(f, img, plans[k])
    ensures r.None? ==> |jobs| == |plans| && Matching(plans, jobs) && AllSendable(old(w.Now()), f, img, jobs)
    ensures r.None? ==> w.out == old(w.out) + ScansBytes(old(w.Now()), f, img, jobs)
  {
    hide SenderOk, PlanOk, Countable, Encodable, Sendable, AfterJob, ScanBytes, AllSendable, AfterJobs, JobsBytes, ScansBytes;
    jobs := [];
    ghost var w0, before := w.Now(), w.out;
    NoJobs(w0, f, img);
    for k := 0 to |plans|
      invariant SenderOk(w.Now()) && |jobs| == k && Matching(plans, jobs) && AllSendable(w0, f, img, jobs)
      invariant forall i :: 0 <= i < k ==> Encodable(f, img, plans[i])
      invariant w.Now() == AfterJobs(w0, f, img, jobs) && w.out == before + JobsBytes(w0, f, img, jobs)
    {
      ghost var j: Job;
      r, j := WriteScan(w, f, plans[k], img);
      if r.Some? {
        return;
      }
      OneMoreJob(w0, f, img, jobs, j);
      SeqAssoc(before, JobsBytes(w0, f, img, jobs), ScanBytes(AfterJobs(w0, f, img, jobs), f, img, j, []));
      jobs := jobs + [j];
    }
    w.WriteFileTrailer();
    JobsEnd(w0, f, img, jobs);
    SeqAssoc(before, JobsBytes(w0, f, img, jobs), [0xFF, EOI]);
    r := None;
  }

  /** Application markers and comments. */
  method WriteExtras(w: Writer, extras: seq<Extra>) returns (r: Option<FileError>)
    modifies w`out
    ensures r.None? <==> forall i :: 0 <= i < |extras| ==> |extras[i].data| <= 65533
    ensures r.None? ==> w.out == old(w.out) + ExtraBytes(extras)
  {
    hide Two;
    assert extras[0..] == extras;
    for i := 0 to |extras|
      invariant forall k :: 0 <= k < i ==> |extras[k].data| <= 65533
      invariant w.out + ExtraBytes(extras[i..]) == old(w.out) + ExtraBytes(extras)
    {
      NextExtra(extras, i);
      ghost var out := w.out;
      var e := w.WriteExtra(extras[i].m, extras[i].data);
      if e.Some? {
        return Some(BadHeader(e.value));
      }
      SeqAssoc(out, [0xFF, extras[i].m] + Two(|extras[i].data| + 2) + extras[i].data, ExtraBytes(extras[i + 1..]));
    }
    r := None;
  }

  lemma NextExtra(extras: seq<Extra>, i: nat)
    requires i < |extras|
    ensures ExtraBytes(extras[i..])
         == [0xFF, extras[i].m] + Two(|extras[i].data| + 2) + extras[i].data + ExtraBytes(extras[i + 1..])
    ensures ExtraBytes(extras[|extras|..]) == []
  {
    assert extras[i..][0] == extras[i] && extras[i..][1..] == extras[i + 1..];
  }

  // ----- a whole file -----

  /** The encoder after SOI. */
  ghost function FromSoi(w: Sender): Sender {
    w.(ri := 0)
  }

  /** Every component has its quantization table. */
  ghost predicate QuantsThere(w: Sender, f: Frame) {
    forall i :: 0 <= i < |f.comps| ==> f.comps[i].quant in w.quant
  }

  /** Writes a progressive file with optimal Huffman tables. It fails only if a
      quantization table is missing, the image or an application marker is too big, a
      coefficient is out of range, or a code gets too long. */
  method WriteFile(w: Writer, f: Frame, numbers: seq<CompInfo>, extras: seq<Extra>, plans: seq<Plan>, ghost img: R.Image)
      returns (r: Option<FileError>, ghost jobs: seq<Job>)
    requires w.out == [] && SenderOk(w.Now()) && FrameShaped(f) && f.progressive && |numbers| == |f.comps|
    requires forall k :: 0 <= k < |plans| ==> PlanOk(f, img, plans[k]) && Countable(f, img, plans[k])
    modifies w
    ensures r.None? <==>
      QuantsThere(old(w.Now()), f) && f.height <= 65535 && f.width <= 65535 &&
      (forall i :: 0 <= i < |extras| ==> |extras[i].data| <= 65533) &&
      forall k :: 0 <= k < |plans| ==> Encodable(f, img, plans[k])
    ensures r.None? ==> |jobs| == |plans| && Matching(plans, jobs) && FrameReady(FromSoi(old(w.Now())), f)
    ensures r.None? ==> AllSendable(FrameHeader(FromSoi(old(w.Now())), f, SOF2).0, f, img, jobs)
    ensures r.None? ==> w.out == FileBytes(FromSoi(old(w.Now())), f, extras, img, jobs)
  {
    hide PlanOk, Countable, Encodable, AllSendable, ScansBytes, ExtraBytes, FrameHeader, SenderOk, FrameOk;
    jobs := [];
    ghost var w0 := FromSoi(w.Now());
    StartOk(w.Now());
    w.WriteSoi();
    r := WriteExtras(w, extras);
    if r.Some? {
      return;
    }
    var err, code := w.WriteFrameHeader(f, numbers);
    if err.Some? {
      return Some(BadHeader(err.value)), jobs;
    }
    HeaderKeeps(w0, f);
    ghost var header := FrameHeader(w0, f, SOF2).1;
    r, jobs := WriteScans(w, f, plans, img);
    if r.None? {
      ghost var scans := ScansBytes(FrameHeader(w0, f, SOF2).0, f, img, jobs);
      assert [] + [0xFF, SOI] + ExtraBytes(extras) + header + scans == [0xFF, SOI] + (ExtraBytes(extras) + (header + scans));
    }
  }

  lemma StartOk(w: Sender)
    requires SenderOk(w)
    ensures SenderOk(FromSoi(w))
  {
    hide CountsFit;
  }

  lemma HeaderKeeps(w: Sender, f: Frame)
    requires FrameReady(w, f)
    ensures SenderOk(FrameHeader(w, f, SOF2).0)
  {
    assert SenderOk(SendQuants(w, f.comps, |f.comps|).0);
  }

  /** What a progressive file is good for: with the script of jpeg_simple_progression, a
      decoder that reads the file gets every coefficient, and with any other accepted
      script all that it sends. */
  lemma WrittenFileReads(w: Sender, f: Frame, extras: seq<Extra>, plans: seq<Plan>, img: R.Image, jobs: seq<Job>)
    requires FrameReady(FromSoi(w), f) && f.progressive && Sizable(f) && IdsFit(f) && AllUnsent(FromSoi(w))
    requires (forall i :: 0 <= i < |extras| ==> ExtraOk(extras[i])) && R.ImageShort(img) && R.Sized(|f.comps|, Rooms(f), img)
    requires |jobs| == |plans| && plans != [] && Matching(plans, jobs)
    requires AllSendable(FrameHeader(FromSoi(w), f, SOF2).0, f, img, jobs)
    requires ProgScansOk(|f.comps|, ScansOf(plans))
    ensures var r := ReadFile(FileBytes(FromSoi(w), f, extras, img, jobs));
            r.Some? && R.Holds(|f.comps|, Lives(f), img, r.value, ScansOf(plans))
  {
    hide FileBytes, ReadFile, FrameHeader, AllSendable, R.Holds, R.ImageShort, IdsFit, ProgScansOk, InfoOf, FrameReady, AllUnsent, FromSoi;
    hide Sizable, Lives, Rooms, R.Sized, ScansOf, Infos;
    SameInfos(plans, jobs);
    FileReads(FromSoi(w), f, extras, img, jobs);
  }

  /** The script of the file. */
  function ScansOf(plans: seq<Plan>): seq<ScanInfo> {
    seq(|plans|, k requires 0 <= k < |plans| => InfoOf(plans[k].s))
  }

  lemma SameInfos(plans: seq<Plan>, jobs: seq<Job>)
    requires |jobs| == |plans| && Matching(plans, jobs)
    ensures Infos(jobs) == ScansOf(plans)
  {
    hide InfoOf;
  }
}
