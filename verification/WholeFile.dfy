/** Progressive files from the first byte to the last: headers, tables and scans. Reading
    back a file gives every coefficient to the precision that the script has sent. */
module WholeFile {
  import opened Wrappers
  import opened Tokens
  import opened ByteStream
  import opened HuffmanCode
  import opened DerivedTables
  import opened ScanCoding
  import opened ScanRoundTrip
  import opened ScanScript
  import opened SimpleProgression
  import opened Markers
  import opened MarkerParsing
  import opened HeaderSync
  import opened ReceivedTables
  import opened FrameLayout
  import R = Reconstruction
  import Stream = ScanStream

  /** A legal table; the symbols of a DC table are numbers of bits. */
  ghost predicate Usable(id: TableId, t: HuffTbl) {
    Valid(t) && (id.Dc? ==> SymbolsFit(t, 15))
  }

  /** The codings of those tables that are usable. */
  ghost function Codings(huff: map<TableId, HuffTbl>): Tables {
    map id | id in huff && Usable(id, huff[id]) :: CodingOf(huff[id])
  }

  // ----- reading -----

  /** The scan at hand is one of components that the decoder can make out. */
  ghost predicate Located(st: State) {
    StateOk(st) && st.sawSof && Sizable(st.frame) && CurOk(st.frame, st.cur) && McuFits(st.frame, st.cur) &&
    forall i :: 0 <= i < |st.cur| ==> st.cur[i] < |st.dcTbl|
  }

  /** The scan that is about to be read; marker m and more bytes follow it. */
  ghost function PassAt(st: State, m: Byte, rest: seq<Byte>): R.Pass
    requires Located(st)
  {
    var a := Arrange(st.frame, st.cur);
    R.Pass(ScanInfo(st.cur, st.Ss, st.Se, st.Ah, st.Al),
           seq(|st.cur|, i requires 0 <= i < |st.cur| => st.dcTbl[st.cur[i]]),
           seq(|st.cur|, i requires 0 <= i < |st.cur| => st.acTbl[st.cur[i]]),
           a.membership, a.layout, st.ri, Codings(st.huff), m, rest)
  }

  /** Its parameters are those of a progressive scan, and its tables are there. */
  ghost predicate Readable(st: State) {
    Located(st) && R.PassShaped(|st.frame.comps|, PassAt(st, EOI, [])) &&
    TablesFor(R.ScanOf(|st.frame.comps|, PassAt(st, EOI, [])), PassAt(st, EOI, []).T)
  }

  /** What follows a scan does not matter to how it is read. */
  lemma SamePass(n: nat, ps: R.Pass, ps1: R.Pass)
    requires R.PassShaped(n, ps) && ps1 == ps.(marker := ps1.marker, rest := ps1.rest) && 0 < ps1.marker < 0xFF
    ensures R.PassShaped(n, ps1) && R.ScanOf(n, ps1) == R.ScanOf(n, ps)
  {
  }

  /** Reads the data of the scan into the blocks held so far; no data must be left over,
      and a marker must follow. */
  ghost function ReadScan(st: State, data: seq<Byte>, dec: R.Image): (r: Option<(R.Image, Ahead)>)
    requires Readable(st) && R.Sized(|st.frame.comps|, Rooms(st.frame), dec)
    ensures r.Some? ==> R.Sized(|st.frame.comps|, Rooms(st.frame), r.value.0) && |r.value.1.rest| <= |data|
  {
    var (n, ps) := (|st.frame.comps|, PassAt(st, EOI, []));
    var s := R.ScanOf(n, ps);
    ArrangedOk(st.frame, ps, st.cur);
    match Stream.DecodeMcus(s, ps.T, ps.ri, Stream.StartDecoder(s, ps.ri, data), R.Gather(n, ps, Rooms(st.frame), Lives(st.frame), dec))
    case None => None
    case Some((d, mcus)) =>
      R.DecodedShape(n, ps, Rooms(st.frame), Lives(st.frame), dec, data);
      LookShrinks(data);
      DecodeShrinks(s, ps.T, ps.ri, Stream.StartDecoder(s, ps.ri, data), R.Gather(n, ps, Rooms(st.frame), Lives(st.frame), dec));
      if 0 < d.ahead.marker < 0xFF && d.discarded == 0 then
        SamePass(n, ps, PassAt(st, d.ahead.marker, d.ahead.rest));
        Some((R.Scatter(n, PassAt(st, d.ahead.marker, d.ahead.rest), dec, mcus), d.ahead))
      else None
  }

  lemma {:induction false} DecodeShrinks(s: Scan, T: Tables, ri: nat, d: Stream.Decoder, mcus: seq<Mcu>)
    requires ScanOk(s) && TablesFor(s, T) && |d.lastDc| == |s.comps| && McusShaped(s, mcus)
    ensures var r := Stream.DecodeMcus(s, T, ri, d, mcus); r.Some? ==> |r.value.0.ahead.rest| <= |d.ahead.rest|
    decreases mcus
  {
    hide Stream.DecodeMcu;
    if mcus != [] {
      OneShrinks(s, T, ri, d, mcus[0]);
      match Stream.DecodeMcu(s, T, ri, d, mcus[0])
      case None =>
      case Some((d1, _)) => DecodeShrinks(s, T, ri, d1, mcus[1..]);
    }
  }

  lemma OneShrinks(s: Scan, T: Tables, ri: nat, d: Stream.Decoder, mcu: Mcu)
    requires ScanOk(s) && TablesFor(s, T) && |d.lastDc| == |s.comps| && |mcu| == |s.membership|
    ensures var r := Stream.DecodeMcu(s, T, ri, d, mcu); r.Some? ==> |r.value.0.ahead.rest| <= |d.ahead.rest|
  {
    hide DecMcu, Look;
    LookShrinks(d.ahead.rest);
  }

  lemma {:induction false} MarkersShrink(st: State, m: Byte, bytes: seq<Byte>)
    requires StateOk(st)
    ensures var r := ReadMarkers(st, m, bytes); r.ReachedSos? ==> StateOk(r.st) && |r.rest| < |bytes|
    decreases |bytes|, if m == 0 then 0 else 1
  {
    hide Look;
    if m != 0 && m != EOI {
      ProcessKeeps(st, m, bytes);
      if m == SOS {
        SosShrinks(st, bytes);
      } else {
        hide Process;
        match Process(st, m, bytes)
        case Got(st1, rest) =>
          LookShrinks(rest);
          MarkersShrink(st1, Look(rest).marker, Look(rest).rest);
        case _ =>
      }
    }
  }

  lemma SosShrinks(st: State, bytes: seq<Byte>)
    requires StateOk(st)
    ensures var r := GetSos(st, bytes); r.Got? ==> |r.rest| < |bytes|
  {
    hide SosComps;
  }

  /** The scan at hand, and all scans after it. */
  ghost function ReadScans(st: State, data: seq<Byte>, dec: R.Image): (r: Option<R.Image>)
    decreases |data|
  {
    if !Readable(st) || !R.Sized(|st.frame.comps|, Rooms(st.frame), dec) then None
    else
      match ReadScan(st, data, dec)
      case None => None
      case Some((dec1, a)) =>
        MarkersShrink(st, a.marker, a.rest);
        match ReadMarkers(st, a.marker, a.rest)
        case ReachedSos(st1, data1) => ReadScans(st1, data1, dec1)
        case ReachedEoi(_, _) => Some(dec1)
        case _ => None
  }

  /** The rest of a file, from a marker on. */
  ghost function ReadRest(st: State, bytes: seq<Byte>, dec: R.Image): Option<R.Image>
    requires StateOk(st)
  {
    match Reads(st, bytes)
    case ReachedSos(st1, data1) => ReadScans(st1, data1, dec)
    case ReachedEoi(_, _) => Some(dec)
    case _ => None
  }

  /** A whole file, into blank blocks. */
  ghost function ReadFile(bytes: seq<Byte>): Option<R.Image> {
    match ReadsFirst(NoState(), bytes)
    case ReachedSos(st, data) =>
      if Sizable(st.frame) then ReadScans(st, data, R.Blank(|st.frame.comps|, Rooms(st.frame))) else None
    case _ => None
  }

  // ----- writing -----

  /** The components of a scan. */
  function Cur(s: Scanning): (r: seq<nat>)
    ensures |r| == |s.comps|
  {
    seq(|s.comps|, i requires 0 <= i < |s.comps| => s.comps[i].index)
  }

  function InfoOf(s: Scanning): ScanInfo {
    ScanInfo(Cur(s), s.Ss, s.Se, s.Ah, s.Al)
  }

  function Infos(jobs: seq<Job>): (r: seq<ScanInfo>)
    ensures |r| == |jobs|
  {
    seq(|jobs|, i requires 0 <= i < |jobs| => InfoOf(jobs[i].s))
  }

  ghost predicate ScanFits(f: Frame, s: Scanning) {
    Sizable(f) && CurOk(f, Cur(s)) && McuFits(f, Cur(s))
  }

  /** The scan as it is written with tables T, when marker m and more bytes follow. */
  ghost function PassFor(f: Frame, s: Scanning, ri: nat, T: Tables, m: Byte, rest: seq<Byte>): R.Pass
    requires ScanFits(f, s)
  {
    var a := Arrange(f, Cur(s));
    R.Pass(InfoOf(s),
           seq(|s.comps|, i requires 0 <= i < |s.comps| => UsedNumbers(f.progressive, s, s.comps[i]).dcTbl),
           seq(|s.comps|, i requires 0 <= i < |s.comps| => UsedNumbers(f.progressive, s, s.comps[i]).acTbl),
           a.membership, a.layout, ri, T, m, rest)
  }

  /** The codings of some of the encoder's tables. */
  ghost function ScanCodings(w: Sender, ids: seq<TableId>): Tables {
    Codings(map id | id in w.huff && id in ids :: w.huff[id].tbl)
  }

  /** Scan j can be written: its tables are legal, its coefficients are in range, and no
      code is missing. */
  ghost predicate Sendable(w: Sender, f: Frame, img: R.Image, j: Job) {
    JobReady(w, f, j) && ScanFits(f, j.s) && f.progressive && R.Sized(|f.comps|, Rooms(f), img) &&
    var (n, w1) := (|f.comps|, Install(w, j.install));
    var ps := PassFor(f, j.s, j.ri, ScanCodings(w1, TableList(f, j.s)), EOI, []);
    R.PassShaped(n, ps) && (forall i :: 0 <= i < |TableList(f, j.s)| ==> Usable(TableList(f, j.s)[i], w1.huff[TableList(f, j.s)[i]].tbl)) &&
    (ArrangedOk(f, ps, Cur(j.s)); R.Writable(n, ps, Rooms(f), Lives(f), img))
  }

  /** The tables of scan j. */
  ghost function JobCodings(w: Sender, f: Frame, j: Job): Tables {
    ScanCodings(Install(w, j.install), TableList(f, j.s))
  }

  /** What is to be coded with them. */
  ghost function JobSegments(w: Sender, f: Frame, img: R.Image, j: Job): (r: seq<seq<Token>>)
    requires Sendable(w, f, img, j)
    ensures r != [] && Stream.CoversAll(JobCodings(w, f, j), r)
  {
    var (n, ps) := (|f.comps|, PassFor(f, j.s, j.ri, JobCodings(w, f, j), EOI, []));
    ArrangedOk(f, ps, Cur(j.s));
    Stream.ScanSegments(R.ScanOf(n, ps), j.ri, R.Gather(n, ps, Rooms(f), Lives(f), img))
  }

  /** The entropy-coded data of scan j, when more follows. */
  ghost function ScanData(w: Sender, f: Frame, img: R.Image, j: Job, more: seq<Byte>): seq<Byte>
    requires Sendable(w, f, img, j)
  {
    Stream.Render(JobCodings(w, f, j), JobSegments(w, f, img, j), 0, more)
  }

  /** The bytes of scan j, when more follows. */
  ghost function ScanBytes(w: Sender, f: Frame, img: R.Image, j: Job, more: seq<Byte>): seq<Byte>
    requires Sendable(w, f, img, j)
  {
    ScanHeader(Install(w, j.install), f, j.s, j.ri).1 + ScanData(w, f, img, j, more)
  }

  /** The encoder after scan j. */
  ghost function AfterJob(w: Sender, f: Frame, j: Job): Sender
    requires JobReady(w, f, j)
  {
    ScanHeader(Install(w, j.install), f, j.s, j.ri).0
  }

  ghost predicate AllSendable(w: Sender, f: Frame, img: R.Image, jobs: seq<Job>)
    decreases jobs
  {
    jobs == [] || (Sendable(w, f, img, jobs[0]) && AllSendable(AfterJob(w, f, jobs[0]), f, img, jobs[1..]))
  }

  /** All scans and the end of the file. */
  ghost function ScansBytes(w: Sender, f: Frame, img: R.Image, jobs: seq<Job>): seq<Byte>
    requires AllSendable(w, f, img, jobs)
    decreases jobs
  {
    if jobs == [] then [0xFF, EOI]
    else ScanBytes(w, f, img, jobs[0], ScansBytes(AfterJob(w, f, jobs[0]), f, img, jobs[1..]))
  }

  // ----- one scan -----

  lemma {:induction false} HuffsStart(w: Sender, ids: seq<TableId>, k: nat)
    requires SenderOk(w) && AllIn(w, ids, k)
    ensures var bytes := SendHuffs(w, ids, k).1; bytes == [] || (|bytes| >= 2 && bytes[..2] == [0xFF, DHT])
    decreases k
  {
    hide SenderOk;
    if k > 0 {
      HuffsStart(w, ids, k - 1);
      var (w1, before) := SendHuffs(w, ids, k - 1);
      var own := SendHuff(w1, ids[k - 1]).1;
      if before == [] {
        assert before + own == own;
        DhtStarts(w1, ids[k - 1]);
      } else {
        assert (before + own)[..2] == before[..2];
      }
    }
  }

  lemma DhtStarts(w: Sender, id: TableId)
    requires SenderOk(w) && id in w.huff
    ensures var bytes := SendHuff(w, id).1; bytes == [] || (|bytes| >= 2 && bytes[..2] == [0xFF, DHT])
  {
  }

  /** What comes after a scan begins with a marker. */
  lemma HeaderStarts(w: Sender, f: Frame, s: Scanning, ri: nat, more: seq<Byte>) returns (m: Byte, rest: seq<Byte>)
    requires ScanReady(w, f, s)
    ensures ScanHeader(w, f, s, ri).1 + more == [0xFF, m] + rest && 0 < m < 0xFF
  {
    hide SosBytes, DriBytes, SendHuffs, TableList, SenderOk, AllIn;
    var ids := TableList(f, s);
    HuffsStart(w, ids, |ids|);
    SosStarts(f, s);
    DriStarts(ri);
    var huffs, dri, sos := SendHuffs(w, ids, |ids|).1, if ri != w.ri then DriBytes(ri) else [], SosBytes(f, s);
    if huffs != [] {
      m := DHT;
      rest := FirstTwo(huffs, dri + sos + more, m);
      assert huffs + dri + sos + more == huffs + (dri + sos + more);
    } else if ri != w.ri {
      m := DRI;
      rest := FirstTwo(dri, sos + more, m);
      assert [] + dri + sos + more == dri + (sos + more);
    } else {
      m := SOS;
      rest := FirstTwo(sos, more, m);
      assert [] + [] + sos + more == sos + more;
    }
  }

  lemma FirstTwo(a: seq<Byte>, b: seq<Byte>, m: Byte) returns (rest: seq<Byte>)
    requires |a| >= 2 && a[..2] == [0xFF, m]
    ensures a + b == [0xFF, m] + rest
  {
    rest := (a + b)[2..];
    assert (a + b)[..2] == a[..2];
    assert a + b == (a + b)[..2] + (a + b)[2..];
  }

  lemma DriStarts(ri: nat)
    ensures |DriBytes(ri)| >= 2 && DriBytes(ri)[..2] == [0xFF, DRI]
  {
    hide Two;
  }

  lemma SosStarts(f: Frame, s: Scanning)
    requires ScanningOk(f, s)
    ensures |SosBytes(f, s)| >= 2 && SosBytes(f, s)[..2] == [0xFF, SOS]
  {
    hide ScanCompBytes, Two;
  }

  lemma BytesStart(w: Sender, f: Frame, img: R.Image, jobs: seq<Job>) returns (m: Byte, rest: seq<Byte>)
    requires AllSendable(w, f, img, jobs)
    ensures ScansBytes(w, f, img, jobs) == [0xFF, m] + rest && 0 < m < 0xFF
  {
    hide Sendable, ScanHeader, ScansBytes;
    NextBytes(w, f, img, jobs);
    if jobs == [] {
      m, rest := EOI, [];
    } else {
      var w1 := Install(w, jobs[0].install);
      var tail := ScanData(w, f, img, jobs[0], ScansBytes(AfterJob(w, f, jobs[0]), f, img, jobs[1..]));
      m, rest := HeaderStarts(w1, f, jobs[0].s, jobs[0].ri, tail);
    }
  }

  lemma NextBytes(w: Sender, f: Frame, img: R.Image, jobs: seq<Job>)
    requires AllSendable(w, f, img, jobs)
    ensures jobs == [] ==> ScansBytes(w, f, img, jobs) == [0xFF, EOI]
    ensures jobs != [] ==>
      JobReady(w, f, jobs[0]) && ScanReady(Install(w, jobs[0].install), f, jobs[0].s) && Sendable(w, f, img, jobs[0]) &&
      AllSendable(AfterJob(w, f, jobs[0]), f, img, jobs[1..]) &&
      var more := ScansBytes(AfterJob(w, f, jobs[0]), f, img, jobs[1..]);
      ScansBytes(w, f, img, jobs) == ScanBytes(w, f, img, jobs[0], more) &&
      ScansBytes(w, f, img, jobs) == ScanHeader(Install(w, jobs[0].install), f, jobs[0].s, jobs[0].ri).1 +
                                     ScanData(w, f, img, jobs[0], more)
  {
    hide R.Writable, Stream.Render, ScanHeader;
  }

  /** Ids that fit their bytes, all different. */
  ghost predicate IdsFit(f: Frame) {
    (forall i :: 0 <= i < |f.comps| ==> f.comps[i].id < 256) && IdsDistinct(f)
  }

  lemma FrameKept(f: Frame)
    requires IdsFit(f)
    ensures Transmitted(f) == f
  {
    assert Transmitted(f).comps == f.comps;
  }

  lemma CompsInOrder(n: nat, s: Scanning)
    requires CompsOk(n, InfoOf(s))
    ensures forall i, j :: 0 <= i < j < |s.comps| ==> s.comps[i].index != s.comps[j].index
    ensures forall i :: 0 <= i < |s.comps| ==> s.comps[i].index < n
  {
    var cur := Cur(s);
    assert forall i :: 0 <= i < |s.comps| ==> InfoOf(s).comps[i] == s.comps[i].index;
  }

  /** After the header, the decoder is about to read the scan that the encoder is about
      to write. */
  lemma SameScan(w: Sender, st: State, f: Frame, s: Scanning, ri: nat, m: Byte, rest: seq<Byte>)
    requires ScanReady(w, f, s) && ScanFits(f, s) && IdsFit(f) && CompsOk(|f.comps|, InfoOf(s)) && ri < 0x1_0000
    requires StateOk(st) && st.sawSof && st.frame == f && InStep(w, st)
    ensures |st.dcTbl| == |st.acTbl| == |f.comps|
    ensures var st1 := AfterScanHeader(w, st, f, s, ri);
            Located(st1) && st1.frame == f && PassAt(st1, m, rest) == PassFor(f, s, ri, Codings(st1.huff), m, rest)
  {
    hide Reads, ScanHeader, AfterScanHeader, InStep, SenderOk, SameTables, Transmitted, Meant, HasTables, Codings, Arrange, McuFits;
    hide UsedNumbers, PassAt, PassFor, NumbersAre, Located, AllIn, TableList, IdsDistinct, CompsOk, Cur, CurOk;
    FrameKept(f);
    RightComponents(f);
    CompsInOrder(|f.comps|, s);
    ScanHeaderRead(w, st, f, s, ri, []);
    NumbersRead(w, st, f, s, ri);
    SamePasses(AfterScanHeader(w, st, f, s, ri), f, s, ri, m, rest);
  }

  lemma SamePasses(st: State, f: Frame, s: Scanning, ri: nat, m: Byte, rest: seq<Byte>)
    requires ScanningOk(f, s) && ScanFits(f, s) && StateOk(st) && st.sawSof && st.frame == f && st.ri == ri
    requires st.Ss == s.Ss && st.Se == s.Se && st.Ah == s.Ah && st.Al == s.Al
    requires |st.cur| == |s.comps| && forall i :: 0 <= i < |s.comps| ==> st.cur[i] == s.comps[i].index
    requires forall i :: 0 <= i < |s.comps| ==> NumbersAre(st, s.comps[i].index, UsedNumbers(f.progressive, s, s.comps[i]))
    ensures Located(st) && PassAt(st, m, rest) == PassFor(f, s, ri, Codings(st.huff), m, rest)
  {
    hide UsedNumbers, Codings, Arrange, McuFits;
    SameCur(st, f, s);
    SameNumbers(st, f, s);
  }

  lemma SameCur(st: State, f: Frame, s: Scanning)
    requires ScanningOk(f, s) && |st.cur| == |s.comps| && forall i :: 0 <= i < |s.comps| ==> st.cur[i] == s.comps[i].index
    ensures st.cur == Cur(s)
  {
  }

  lemma SameNumbers(st: State, f: Frame, s: Scanning)
    requires st.cur == Cur(s) && |st.dcTbl| == |st.acTbl| && forall i :: 0 <= i < |s.comps| ==> s.comps[i].index < |st.dcTbl|
    requires forall i :: 0 <= i < |s.comps| ==> NumbersAre(st, s.comps[i].index, UsedNumbers(f.progressive, s, s.comps[i]))
    ensures forall i :: 0 <= i < |st.cur| ==> st.cur[i] < |st.dcTbl|
    ensures seq(|st.cur|, i requires 0 <= i < |st.cur| => st.dcTbl[st.cur[i]])
         == seq(|s.comps|, i requires 0 <= i < |s.comps| => UsedNumbers(f.progressive, s, s.comps[i]).dcTbl)
    ensures seq(|st.cur|, i requires 0 <= i < |st.cur| => st.acTbl[st.cur[i]])
         == seq(|s.comps|, i requires 0 <= i < |s.comps| => UsedNumbers(f.progressive, s, s.comps[i]).acTbl)
  {
    hide UsedNumbers;
  }

  /** The decoder's tables are those the scan is written with. */
  lemma SameCodings(w: Sender, ids: seq<TableId>, st: State)
    requires SenderOk(w) && HasTables(w, ids, st) && forall i :: 0 <= i < |ids| ==> Usable(ids[i], w.huff[ids[i]].tbl)
    ensures SameBooks(ScanCodings(w, ids), Codings(st.huff))
    ensures forall i :: 0 <= i < |ids| ==> ids[i] in Codings(st.huff)
    ensures forall id :: id in Codings(st.huff) ==> Sound(Codings(st.huff)[id])
  {
    hide SenderOk, Valid, Received, NumSymbols, CodingOf, Sound, SymbolsFit;
    forall i | 0 <= i < |ids| ensures ids[i] in Codings(st.huff) && Codings(st.huff)[ids[i]].book == CodingOf(w.huff[ids[i]].tbl).book {
      ReceivedBook(w.huff[ids[i]].tbl);
      if ids[i].Dc? {
        ReceivedFits(w.huff[ids[i]].tbl, 15);
      }
    }
    forall id | id in Codings(st.huff) ensures Sound(Codings(st.huff)[id]) {
      CodingSound(st.huff[id]);
    }
  }

  /** And they are all it takes. */
  lemma TablesThere(f: Frame, s: Scanning, ps: R.Pass)
    requires ScanFits(f, s) && f.progressive && ps == PassFor(f, s, ps.ri, ps.T, ps.marker, ps.rest) && R.PassShaped(|f.comps|, ps)
    requires forall i :: 0 <= i < |TableList(f, s)| ==> TableList(f, s)[i] in ps.T
    ensures TablesFor(R.ScanOf(|f.comps|, ps), ps.T)
  {
    hide Arrange, McuFits, TableList, ScanTableList;
    forall i | 0 <= i < |s.comps| && !(s.Ss == 0 && s.Ah != 0)
      ensures (if s.Ss == 0 then Dc(UsedNumbers(true, s, s.comps[i]).dcTbl) else Ac(UsedNumbers(true, s, s.comps[i]).acTbl)) in ps.T
    {
      TableListNext(f, s, i);
      assert TablesOf(true, s, s.comps[i])[0] in ps.T;
    }
  }

  /** Reading a scan, with what comes after it. */
  lemma PassRead(n: nat, ps: R.Pass, dims: seq<nat>, live: seq<nat>, img: R.Image, dec: R.Image, before: seq<ScanInfo>)
    requires R.Follows(n, before, ps) && R.LayoutOk(n, ps, dims, live) && R.Sized(n, dims, img) && R.Sized(n, dims, dec)
    requires R.Holds(n, live, img, dec, before) && R.ImageShort(img)
    requires SoundTables(R.ScanOf(n, ps), ps.T) && R.Writable(n, ps, dims, live, img)
    ensures var s, data := R.ScanOf(n, ps), R.Written(n, ps, dims, live, img);
            var r := Stream.DecodeMcus(s, ps.T, ps.ri, Stream.StartDecoder(s, ps.ri, data), R.Gather(n, ps, dims, live, dec));
            r.Some? && McusShaped(s, r.value.1) && |r.value.1| == |ps.layout| && r.value.0.discarded == 0 &&
            r.value.0.ahead.marker == ps.marker && r.value.0.ahead.rest == ps.rest &&
            R.Holds(n, live, img, R.Scatter(n, ps, dec, r.value.1), before + [ps.info])
  {
    hide Stream.DecodeMcus, Stream.EncodesOk, Stream.ScanSegments, Stream.Render, McusAfter, McusReady, R.Gather, R.Scatter, R.Holds, R.LayoutOk;
    var s, data := R.ScanOf(n, ps), R.Written(n, ps, dims, live, img);
    R.PassReady(n, ps, dims, live, img, dec, before);
    Stream.ScanRoundTrips(s, ps.T, ps.ri, R.Gather(n, ps, dims, live, dec), R.Gather(n, ps, dims, live, img), ps.marker, ps.rest);
    R.DecodedShape(n, ps, dims, live, dec, data);
    R.PassKeeps(n, ps, dims, live, img, dec, before);
  }

  /** Neither tables nor what follows the scan matter to its MCUs. */
  lemma SameGather(n: nat, ps: R.Pass, ps1: R.Pass, dims: seq<nat>, live: seq<nat>, img: R.Image)
    requires R.PassShaped(n, ps) && ps1 == ps.(T := ps1.T, marker := ps1.marker, rest := ps1.rest) && 0 < ps1.marker < 0xFF
    requires R.LayoutOk(n, ps, dims, live) && R.LayoutOk(n, ps1, dims, live) && R.Sized(n, dims, img)
    ensures R.PassShaped(n, ps1) && R.ScanOf(n, ps1) == R.ScanOf(n, ps)
    ensures R.Gather(n, ps1, dims, live, img) == R.Gather(n, ps, dims, live, img)
  {
    hide R.LayoutOk;
    forall m, b | 0 <= m < |ps.layout| && 0 <= b < |ps.membership|
      ensures R.BlockOf(n, ps1, dims, live, img, m, b) == R.BlockOf(n, ps, dims, live, img, m, b)
    {
    }
    var g, g1 := R.Gather(n, ps, dims, live, img), R.Gather(n, ps1, dims, live, img);
    forall m | 0 <= m < |ps.layout| ensures g1[m] == g[m] {
      assert forall b :: 0 <= b < |ps.membership| ==> g1[m][b] == g[m][b];
    }
  }

  /** What is written with the encoder's tables might as well be written with the decoder's. */
  lemma SameWritten(n: nat, ps: R.Pass, ps1: R.Pass, dims: seq<nat>, live: seq<nat>, img: R.Image)
    requires R.PassShaped(n, ps) && ps1 == ps.(T := ps1.T, marker := ps1.marker, rest := ps1.rest) && 0 < ps1.marker < 0xFF
    requires R.LayoutOk(n, ps, dims, live) && R.LayoutOk(n, ps1, dims, live) && R.Sized(n, dims, img)
    requires SameBooks(ps.T, ps1.T) && R.Writable(n, ps, dims, live, img)
    ensures R.PassShaped(n, ps1) && R.Writable(n, ps1, dims, live, img)
    ensures R.Written(n, ps1, dims, live, img)
         == Stream.Render(ps.T, Stream.ScanSegments(R.ScanOf(n, ps), ps.ri, R.Gather(n, ps, dims, live, img)), 0, [0xFF, ps1.marker] + ps1.rest)
  {
    hide R.LayoutOk, R.Gather, R.PassShaped, SameBooks, Stream.Render, Stream.CoversAll, Stream.EncodesOk, Stream.ScanSegments;
    SameGather(n, ps, ps1, dims, live, img);
    RenderSame(ps.T, ps1.T, Stream.ScanSegments(R.ScanOf(n, ps), ps.ri, R.Gather(n, ps, dims, live, img)), 0, [0xFF, ps1.marker] + ps1.rest);
  }

  /** How the decoder reads a scan whose data it can make sense of. */
  lemma ReadScanIs(st: State, data: seq<Byte>, dec: R.Image, ps: R.Pass, d: Stream.Decoder, mcus: seq<Mcu>)
    requires Readable(st) && R.Sized(|st.frame.comps|, Rooms(st.frame), dec)
    requires ps == PassAt(st, d.ahead.marker, d.ahead.rest) && 0 < d.ahead.marker < 0xFF && d.discarded == 0
    requires R.PassShaped(|st.frame.comps|, ps) && R.LayoutOk(|st.frame.comps|, ps, Rooms(st.frame), Lives(st.frame))
    requires TablesFor(R.ScanOf(|st.frame.comps|, ps), ps.T)
    requires Stream.DecodeMcus(R.ScanOf(|st.frame.comps|, ps), ps.T, ps.ri,
                               Stream.StartDecoder(R.ScanOf(|st.frame.comps|, ps), ps.ri, data),
                               R.Gather(|st.frame.comps|, ps, Rooms(st.frame), Lives(st.frame), dec)) == Some((d, mcus))
    requires |mcus| == |ps.layout| && McusShaped(R.ScanOf(|st.frame.comps|, ps), mcus)
    ensures ReadScan(st, data, dec) == Some((R.Scatter(|st.frame.comps|, ps, dec, mcus), d.ahead))
  {
    var (n, ps0) := (|st.frame.comps|, PassAt(st, EOI, []));
    assert ps == ps0.(marker := ps.marker, rest := ps.rest);
    ArrangedOk(st.frame, ps0, st.cur);
    hide R.LayoutOk, R.Gather, R.Scatter, R.PassShaped, Stream.DecodeMcus, Stream.StartDecoder, TablesFor, McusShaped, R.ScanOf, Located, PassAt;
    SameGather(n, ps0, ps, Rooms(st.frame), Lives(st.frame), dec);
  }

  /** The decoder before a scan: it is in step, and holds what the scans so far have sent. */
  ghost predicate Before(w: Sender, st: State, f: Frame, img: R.Image, dec: R.Image, before: seq<ScanInfo>) {
    SenderOk(w) && StateOk(st) && InStep(w, st) && st.sawSof && st.frame == f && Sizable(f) && IdsFit(f) &&
    R.ImageShort(img) && R.Sized(|f.comps|, Rooms(f), img) && R.Sized(|f.comps|, Rooms(f), dec) &&
    R.Holds(|f.comps|, Lives(f), img, dec, before)
  }

  /** The decoder at the data of scan j. */
  ghost function AtData(w: Sender, st: State, f: Frame, j: Job): State
    requires JobReady(w, f, j) && |st.dcTbl| == |st.acTbl| == |f.comps|
  {
    AfterScanHeader(Install(w, j.install), st, f, j.s, j.ri)
  }

  /** The pass that the decoder makes over the data of scan j. */
  lemma PassReadable(w: Sender, st: State, f: Frame, img: R.Image, j: Job, m: Byte, rest: seq<Byte>)
    requires SenderOk(w) && StateOk(st) && InStep(w, st) && st.sawSof && st.frame == f && IdsFit(f)
    requires Sendable(w, f, img, j) && 0 < m < 0xFF
    ensures |st.dcTbl| == |st.acTbl| == |f.comps|
    ensures var st1 := AtData(w, st, f, j);
            Reads(st, ScanBytes(w, f, img, j, [0xFF, m] + rest)) == ReachedSos(st1, ScanData(w, f, img, j, [0xFF, m] + rest)) &&
            SenderOk(AfterJob(w, f, j)) && StateOk(st1) && InStep(AfterJob(w, f, j), st1) && st1.sawSof && st1.frame == f && Readable(st1)
    ensures var st1, n := AtData(w, st, f, j), |f.comps|;
            var ps := PassAt(st1, m, rest);
            ps.info == InfoOf(j.s) && ps.marker == m && ps.rest == rest &&
            R.PassShaped(n, ps) && R.LayoutOk(n, ps, Rooms(f), Lives(f)) && SoundTables(R.ScanOf(n, ps), ps.T) &&
            R.Writable(n, ps, Rooms(f), Lives(f), img) &&
            R.Written(n, ps, Rooms(f), Lives(f), img) == ScanData(w, f, img, j, [0xFF, m] + rest)
  {
    FrameKept(f);
    hide Reads, ScanHeader, InStep, SenderOk, SameTables, AfterScanHeader, HasTables, Codings, Arrange, TableList, Transmitted, Install;
    hide R.LayoutOk, R.Gather, R.Written, Stream.Render, R.Writable, Stream.ScanSegments, SameBooks, McuFits;
    var (n, w1) := (|f.comps|, Install(w, j.install));
    var ids, data := TableList(f, j.s), ScanData(w, f, img, j, [0xFF, m] + rest);
    InstallKeeps(w, j.install, st);
    ScanHeaderRead(w1, st, f, j.s, j.ri, data);
    var st1 := AtData(w, st, f, j);
    SameScan(w1, st, f, j.s, j.ri, m, rest);
    SameScan(w1, st, f, j.s, j.ri, EOI, []);
    SameCodings(w1, ids, st1);
    var ps0, ps := PassFor(f, j.s, j.ri, ScanCodings(w1, ids), EOI, []), PassAt(st1, m, rest);
    assert ps == ps0.(T := ps.T, marker := m, rest := rest);
    ArrangedOk(f, ps0, Cur(j.s));
    ShapedAlike(n, ps0, ps);
    ShapedAlike(n, ps0, PassAt(st1, EOI, []));
    ArrangedOk(f, ps, Cur(j.s));
    TablesThere(f, j.s, ps);
    TablesThere(f, j.s, PassAt(st1, EOI, []));
    SameWritten(n, ps0, ps, Rooms(f), Lives(f), img);
  }

  lemma ShapedAlike(n: nat, ps: R.Pass, ps1: R.Pass)
    requires R.PassShaped(n, ps) && ps1 == ps.(T := ps1.T, marker := ps1.marker, rest := ps1.rest) && 0 < ps1.marker < 0xFF
    ensures R.PassShaped(n, ps1)
  {
  }

  /** Reading one scan of a file keeps the decoder exact and in step, and ends at the
      marker after it. */
  lemma ScanStep(w: Sender, st: State, f: Frame, img: R.Image, dec: R.Image, before: seq<ScanInfo>, j: Job, m: Byte, rest: seq<Byte>)
    requires Before(w, st, f, img, dec, before) && Sendable(w, f, img, j) && ProgScanOk(|f.comps|, before, InfoOf(j.s)) && 0 < m < 0xFF
    ensures |st.dcTbl| == |st.acTbl| == |f.comps|
    ensures var st1, data := AtData(w, st, f, j), ScanData(w, f, img, j, [0xFF, m] + rest);
            Reads(st, ScanBytes(w, f, img, j, [0xFF, m] + rest)) == ReachedSos(st1, data) &&
            Readable(st1) && st1.frame == f && R.Sized(|f.comps|, Rooms(f), dec) &&
            var r := ReadScan(st1, data, dec);
            r.Some? && r.value.1.marker == m && r.value.1.rest == rest &&
            Before(AfterJob(w, f, j), st1, f, img, r.value.0, before + [InfoOf(j.s)])
  {
    hide Reads, InStep, SenderOk, Sendable, AtData, PassAt, R.LayoutOk, R.Gather, R.Scatter, R.Written, R.Writable, R.PassShaped, R.Holds;
    hide ScanData, ScanBytes, AfterJob, SoundTables, ReadScan, Stream.DecodeMcus, Readable, Located, Sizable, IdsFit, R.ImageShort, JobReady;
    SendableReady(w, f, img, j);
    ReadableLocated(AtData(w, st, f, j));
    PassReadable(w, st, f, img, j, m, rest);
    var (n, st1) := (|f.comps|, AtData(w, st, f, j));
    var ps := PassAt(st1, m, rest);
    PassRead(n, ps, Rooms(f), Lives(f), img, dec, before);
    TablesForSound(R.ScanOf(n, ps), ps.T);
    var s := R.ScanOf(n, ps);
    var (d, mcus) := Stream.DecodeMcus(s, ps.T, ps.ri, Stream.StartDecoder(s, ps.ri, R.Written(n, ps, Rooms(f), Lives(f), img)),
                                       R.Gather(n, ps, Rooms(f), Lives(f), dec)).value;
    ReadScanIs(st1, R.Written(n, ps, Rooms(f), Lives(f), img), dec, ps, d, mcus);
  }

  lemma SendableReady(w: Sender, f: Frame, img: R.Image, j: Job)
    requires Sendable(w, f, img, j)
    ensures JobReady(w, f, j)
  {
  }

  lemma ReadableLocated(st: State)
    ensures Readable(st) ==> Located(st)
  {
  }

  lemma TablesForSound(s: Scan, T: Tables)
    requires ScanOk(s) && SoundTables(s, T)
    ensures TablesFor(s, T)
  {
  }

  // ----- whole files -----

  /** The last pass of all leads to the end of the file. */
  lemma EndRead(st: State, dec: R.Image)
    requires StateOk(st)
    ensures ReadRest(st, [0xFF, EOI], dec) == Some(dec)
    ensures ReadMarkers(st, EOI, []) == ReachedEoi(st, [])
  {
    LookMarker(EOI, []);
    assert [0xFF, EOI] + [] == [0xFF, EOI];
  }

  /** From any scan on, reading the rest of a file completes the image. */
  lemma {:induction false} ScansRead(w: Sender, st: State, f: Frame, img: R.Image, dec: R.Image, before: seq<ScanInfo>, jobs: seq<Job>)
    requires Before(w, st, f, img, dec, before) && AllSendable(w, f, img, jobs)
    requires forall i :: 0 <= i < |jobs| ==> ProgScanOk(|f.comps|, before + Infos(jobs)[..i], InfoOf(jobs[i].s))
    ensures StateOk(st)
    ensures var r := ReadRest(st, ScansBytes(w, f, img, jobs), dec);
            r.Some? && R.Holds(|f.comps|, Lives(f), img, r.value, before + Infos(jobs))
    decreases jobs
  {
    hide Sendable, Reads, ReadMarkers, ReadScan, ScanBytes, ScanData, AfterJob, AtData, ScansBytes, InStep, SenderOk, Readable, R.Holds, R.ImageShort;
    hide IdsFit, Sizable, ProgScanOk, JobReady;
    NextBytes(w, f, img, jobs);
    if jobs == [] {
      EndRead(st, dec);
      assert before + Infos(jobs) == before;
    } else {
      var j, w1 := jobs[0], AfterJob(w, f, jobs[0]);
      var m, rest := BytesStart(w1, f, img, jobs[1..]);
      assert ProgScanOk(|f.comps|, before + Infos(jobs)[..0], InfoOf(jobs[0].s));
      assert before + Infos(jobs)[..0] == before;
      ScanStep(w, st, f, img, dec, before, j, m, rest);
      var st1, data := AtData(w, st, f, j), ScanData(w, f, img, j, [0xFF, m] + rest);
      var dec1 := ReadScan(st1, data, dec).value.0;
      RestInOrder(f, before, jobs);
      ScansRead(w1, st1, f, img, dec1, before + [InfoOf(j.s)], jobs[1..]);
      FoundNext(st1, m, rest);
      assert before + [InfoOf(j.s)] + Infos(jobs[1..]) == before + Infos(jobs);
    }
  }

  lemma RestInOrder(f: Frame, before: seq<ScanInfo>, jobs: seq<Job>)
    requires jobs != []
    requires forall i :: 0 <= i < |jobs| ==> ProgScanOk(|f.comps|, before + Infos(jobs)[..i], InfoOf(jobs[i].s))
    ensures forall i :: 0 <= i < |jobs[1..]| ==>
      ProgScanOk(|f.comps|, before + [InfoOf(jobs[0].s)] + Infos(jobs[1..])[..i], InfoOf(jobs[1..][i].s))
    ensures Infos(jobs) == [InfoOf(jobs[0].s)] + Infos(jobs[1..])
  {
    hide ProgScanOk, InfoOf;
    assert Infos(jobs) == [InfoOf(jobs[0].s)] + Infos(jobs[1..]);
    forall i | 0 <= i < |jobs[1..]|
      ensures ProgScanOk(|f.comps|, before + [InfoOf(jobs[0].s)] + Infos(jobs[1..])[..i], InfoOf(jobs[1..][i].s))
    {
      assert before + Infos(jobs)[..i + 1] == before + [InfoOf(jobs[0].s)] + Infos(jobs[1..])[..i];
    }
  }

  lemma FoundNext(st: State, m: Byte, rest: seq<Byte>)
    requires StateOk(st) && 0 < m < 0xFF
    ensures Reads(st, [0xFF, m] + rest) == ReadMarkers(st, m, rest)
  {
    LookMarker(m, rest);
  }

  /** An application marker or a comment. */
  datatype Extra = Extra(m: Byte, data: seq<Byte>)

  predicate ExtraOk(e: Extra) {
    (APP0 <= e.m <= APP15 || e.m == COM) && |e.data| <= 65533
  }

  function ExtraBytes(extras: seq<Extra>): seq<Byte> {
    if extras == [] then []
    else [0xFF, extras[0].m] + Two(|extras[0].data| + 2) + extras[0].data + ExtraBytes(extras[1..])
  }

  /** They are skipped. */
  lemma {:induction false} ExtrasRead(st: State, extras: seq<Extra>, more: seq<Byte>)
    requires StateOk(st) && forall i :: 0 <= i < |extras| ==> ExtraOk(extras[i])
    ensures Reads(st, ExtraBytes(extras) + more) == Reads(st, more)
    decreases extras
  {
    hide Reads, Two;
    if extras == [] {
      assert ExtraBytes(extras) + more == more;
    } else {
      var e, rest := extras[0], ExtraBytes(extras[1..]) + more;
      assert ExtraBytes(extras) + more == [0xFF, e.m] + (Two(|e.data| + 2) + (e.data + rest));
      ExtraRead(st, e, rest);
      ExtrasRead(st, extras[1..], more);
    }
  }

  lemma ExtraRead(st: State, e: Extra, rest: seq<Byte>)
    requires StateOk(st) && ExtraOk(e)
    ensures Reads(st, [0xFF, e.m] + (Two(|e.data| + 2) + (e.data + rest))) == Reads(st, rest)
  {
    hide Reads, Two, Word;
    var bytes := Two(|e.data| + 2) + (e.data + rest);
    TwoWord(|e.data| + 2, e.data + rest);
    assert bytes[|e.data| + 2..] == rest;
    PassMarker(st, e.m, bytes, st, rest);
  }

  /** A whole file. */
  ghost function FileBytes(w: Sender, f: Frame, extras: seq<Extra>, img: R.Image, jobs: seq<Job>): seq<Byte>
    requires FrameReady(w, f) && AllSendable(FrameHeader(w, f, SOF2).0, f, img, jobs)
  {
    var (w1, header) := FrameHeader(w, f, SOF2);
    [0xFF, SOI] + (ExtraBytes(extras) + (header + ScansBytes(w1, f, img, jobs)))
  }

  /** An encoder at the start of a file: no table counts as sent. */
  ghost predicate AllUnsent(w: Sender) {
    w.ri == 0 && (forall n :: n in w.quant ==> !w.quant[n].sent) && (forall id :: id in w.huff ==> !w.huff[id].sent)
  }

  lemma BlankHolds(f: Frame, img: R.Image)
    requires Sizable(f) && R.Sized(|f.comps|, Rooms(f), img)
    ensures var blank := R.Blank(|f.comps|, Rooms(f));
            R.Sized(|f.comps|, Rooms(f), blank) && R.Holds(|f.comps|, Lives(f), img, blank, [])
  {
    hide Live, Room;
    forall ci | 0 <= ci < |f.comps| ensures Lives(f)[ci] <= Rooms(f)[ci] {
      RoomEnough(f, ci);
    }
  }

  /** The state after SOI. */
  function AtSoi(): State {
    NoState().(sawSoi := true)
  }

  /** The decoder after the headers of a file. */
  lemma HeadersRead(w: Sender, f: Frame, extras: seq<Extra>, img: R.Image, jobs: seq<Job>)
    requires FrameReady(w, f) && f.progressive && Sizable(f) && IdsFit(f) && AllUnsent(w)
    requires forall i :: 0 <= i < |extras| ==> ExtraOk(extras[i])
    requires R.ImageShort(img) && R.Sized(|f.comps|, Rooms(f), img) && AllSendable(FrameHeader(w, f, SOF2).0, f, img, jobs)
    ensures var (w1, st1) := (FrameHeader(w, f, SOF2).0, AfterFrame(w, AtSoi(), f));
            Before(w1, st1, f, img, R.Blank(|f.comps|, Rooms(f)), []) &&
            ReadsFirst(NoState(), FileBytes(w, f, extras, img, jobs)) == Reads(st1, ScansBytes(w1, f, img, jobs))
  {
    FrameKept(f);
    BlankHolds(f, img);
    assert InStep(w, AtSoi());
    hide Reads, ScansBytes, AllSendable, FrameHeader, AfterFrame, ExtraBytes, InStep, SenderOk, SameTables, R.Holds, R.ImageShort, IdsFit, Sizable;
    var (w1, header) := FrameHeader(w, f, SOF2);
    var scans := ScansBytes(w1, f, img, jobs);
    var rest := ExtraBytes(extras) + (header + scans);
    FrameHeaderRead(w, AtSoi(), f, SOF2, scans);
    ExtrasRead(AtSoi(), extras, header + scans);
    SoiRead(rest);
    assert ([0xFF, SOI] + rest)[2..] == rest;
  }

  lemma SoiRead(rest: seq<Byte>)
    ensures ReadMarkers(NoState(), SOI, rest) == Reads(AtSoi(), rest)
  {
    hide Look, ReadMarkers;
    PassMarker(NoState(), SOI, rest, AtSoi(), rest);
    LookMarker(SOI, rest);
    SoiFound(rest);
  }

  lemma SoiFound(rest: seq<Byte>)
    requires Look([0xFF, SOI] + rest) == Ahead([], SOI, rest)
    ensures Reads(NoState(), [0xFF, SOI] + rest) == ReadMarkers(NoState(), SOI, rest)
  {
    hide Look, ReadMarkers;
  }

  /** Reading a file whose scans go with each other, whichever way its tables and headers
      are spread, gives every coefficient to the precision that its script has sent. */
  lemma FileReads(w: Sender, f: Frame, extras: seq<Extra>, img: R.Image, jobs: seq<Job>)
    requires FrameReady(w, f) && f.progressive && Sizable(f) && IdsFit(f) && AllUnsent(w)
    requires forall i :: 0 <= i < |extras| ==> ExtraOk(extras[i])
    requires R.ImageShort(img) && R.Sized(|f.comps|, Rooms(f), img)
    requires jobs != [] && ProgScansOk(|f.comps|, Infos(jobs)) && AllSendable(FrameHeader(w, f, SOF2).0, f, img, jobs)
    ensures var r := ReadFile(FileBytes(w, f, extras, img, jobs));
            r.Some? && R.Holds(|f.comps|, Lives(f), img, r.value, Infos(jobs))
  {
    hide Reads, ReadsFirst, ReadScans, ScansBytes, FrameHeader, AfterFrame, FileBytes, Before, R.Holds, R.ImageShort;
    hide IdsFit, Sizable, ProgScanOk, Sendable, AfterJob;
    HeadersRead(w, f, extras, img, jobs);
    var (w1, st1) := (FrameHeader(w, f, SOF2).0, AfterFrame(w, AtSoi(), f));
    forall i | 0 <= i < |jobs| ensures ProgScanOk(|f.comps|, [] + Infos(jobs)[..i], InfoOf(jobs[i].s)) {
      assert [] + Infos(jobs)[..i] == Infos(jobs)[..i];
    }
    ScansRead(w1, st1, f, img, R.Blank(|f.comps|, Rooms(f)), [], jobs);
    assert [] + Infos(jobs) == Infos(jobs);
    FirstScan(w1, st1, f, img, jobs);
  }

  lemma FirstScan(w: Sender, st: State, f: Frame, img: R.Image, jobs: seq<Job>)
    requires Sizable(f) && Before(w, st, f, img, R.Blank(|f.comps|, Rooms(f)), []) && jobs != [] && AllSendable(w, f, img, jobs)
    requires ProgScanOk(|f.comps|, [] + Infos(jobs)[..0], InfoOf(jobs[0].s))
    ensures StateOk(st)
    ensures var r := Reads(st, ScansBytes(w, f, img, jobs)); r.ReachedSos? && r.st.frame == f
  {
    hide Reads, ScanBytes, ScanData, ScansBytes, ProgScanOk, AtData, ReadScan, Readable, InStep, SenderOk, R.Holds, R.ImageShort, Sendable;
    NextBytes(w, f, img, jobs);
    var m, rest := BytesStart(AfterJob(w, f, jobs[0]), f, img, jobs[1..]);
    assert [] + Infos(jobs)[..0] == [];
    ScanStep(w, st, f, img, R.Blank(|f.comps|, Rooms(f)), [], jobs[0], m, rest);
  }

  /** In particular, a file with the script of jpeg_simple_progression gives back every
      coefficient. */
  lemma SimpleFileIsLossless(w: Sender, f: Frame, extras: seq<Extra>, img: R.Image, jobs: seq<Job>, ycc: bool)
    requires FrameReady(w, f) && f.progressive && Sizable(f) && IdsFit(f) && AllUnsent(w)
    requires forall i :: 0 <= i < |extras| ==> ExtraOk(extras[i])
    requires R.ImageShort(img) && R.Sized(|f.comps|, Rooms(f), img)
    requires AllSendable(FrameHeader(w, f, SOF2).0, f, img, jobs) && Infos(jobs) == SimpleScript(|f.comps|, ycc)
    ensures var r := ReadFile(FileBytes(w, f, extras, img, jobs));
            r.Some? && SameBlocks(|f.comps|, Lives(f), img, r.value)
  {
    hide ReadFile, FrameHeader, FileBytes, AllSendable, R.ImageShort, IdsFit, FrameReady, LastAl, ProgScansOk, SimpleScript, Lives, Rooms;
    hide R.Holds, SameBlocks;
    SimpleScriptAccepted(|f.comps|, ycc);
    FileReads(w, f, extras, img, jobs);
    AllExact(|f.comps|, Lives(f), img, ReadFile(FileBytes(w, f, extras, img, jobs)).value, Infos(jobs));
  }

  /** The blocks that belong to the image are the same. */
  ghost predicate SameBlocks(n: nat, live: seq<nat>, img: R.Image, img1: R.Image) {
    |live| == |img| == |img1| == n &&
    forall ci, idx :: 0 <= ci < n && 0 <= idx < live[ci] ==> idx < |img[ci]| && idx < |img1[ci]| && img1[ci][idx] == img[ci][idx]
  }

  lemma AllExact(n: nat, live: seq<nat>, img: R.Image, dec: R.Image, scans: seq<ScanInfo>)
    requires R.Holds(n, live, img, dec, scans) && forall ci, k :: 0 <= ci < n && 0 <= k < 64 ==> LastAl(scans, ci, k) == 0
    ensures SameBlocks(n, live, img, dec)
  {
    hide LastAl, R.Recon;
    forall ci, idx | 0 <= ci < n && 0 <= idx < live[ci] ensures dec[ci][idx] == img[ci][idx] {
      assert R.HoldsBlock(img[ci][idx], dec[ci][idx], ci, scans);
      forall k | 0 <= k < 64 ensures dec[ci][idx][k] == img[ci][idx][k] {
        Exact(img[ci][idx][k], k);
      }
    }
  }

  lemma Exact(x: int, k: nat)
    ensures R.Recon(x, k, 0) == x
  {
    R.LosslessAtZero(x);
  }
}
