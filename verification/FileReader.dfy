/** Reading a progressive file from a source that delivers it in arbitrary pieces. The
    marker reader and the entropy decoder take turns on the same source, and a marker
    that one of them finds may be meant for the other. */
module FileReader {
  import opened Wrappers
  import opened Tokens
  import opened ByteStream
  import opened HuffmanCode
  import opened Bits
  import opened AcCoding
  import opened Coefficients
  import opened DcCoding
  import opened ScanCoding
  import opened DerivedTables
  import opened BitReading
  import opened ProgressiveEncoder
  import opened ProgressiveDecoder
  import opened OptimizedScan
  import opened EndToEnd
  import opened ScanSymbols
  import opened SuspendedScan
  import opened Markers
  import opened MarkerParsing
  import opened MarkerReader
  import opened FrameLayout
  import opened WholeFile
  import BlockLayouts
  import R = Reconstruction
  import Stream = ScanStream

  // ----- only the tables of the scan matter -----

  /** The codings agree on the tables of the scan. */
  ghost predicate AgreeOn(s: Scan, T: Tables, T1: Tables)
    requires ScanOk(s)
  {
    forall id :: id in ScanTables(s) ==> id in T && id in T1 && T1[id] == T[id]
  }

  lemma {:induction false} DcFirstSame(s: Scan, T: Tables, T1: Tables, bits: seq<bool>, lastDc: seq<int>, mcu: Mcu, b: nat)
    requires ScanOk(s) && s.Ss == 0 && s.Ah == 0 && TablesFor(s, T) && TablesFor(s, T1) && AgreeOn(s, T, T1)
    requires |lastDc| == |s.comps| && |mcu| == |s.membership|
    ensures DecDcFirst(s, T1, bits, lastDc, mcu, b) == DecDcFirst(s, T, bits, lastDc, mcu, b)
    decreases |mcu| - b
  {
    if b < |mcu| {
      var id := DcTable(s, b);
      assert id in ScanTables(s);
      hide AgreeOn;
      match ReadDiff(T[id].read, bits)
      case None =>
      case Some((d, bits1)) =>
        var ci := s.membership[b];
        var v := lastDc[ci] + d;
        DcFirstSame(s, T, T1, bits1, lastDc[ci := v], mcu[b := mcu[b][0 := ToShort(v * Pow2(s.Al))]], b + 1);
    }
  }

  lemma McuSame(s: Scan, T: Tables, T1: Tables, ri: nat, d: Stream.Decoder, mcu: Mcu)
    requires ScanOk(s) && TablesFor(s, T) && TablesFor(s, T1) && AgreeOn(s, T, T1)
    requires |d.lastDc| == |s.comps| && |mcu| == |s.membership|
    ensures Stream.DecodeMcu(s, T1, ri, d, mcu) == Stream.DecodeMcu(s, T, ri, d, mcu)
  {
    hide DecDcFirst, DecDcRefine, Look;
    match if ri > 0 && d.togo == 0 then Stream.ProcessRestart(s, ri, d) else Some(d)
    case None =>
    case Some(d1) =>
      if s.Ss == 0 && s.Ah == 0 {
        DcFirstSame(s, T, T1, d1.ahead.bits, d1.lastDc, mcu, 0);
      }
  }

  lemma {:induction false} McusSame(s: Scan, T: Tables, T1: Tables, ri: nat, d: Stream.Decoder, mcus: seq<Mcu>)
    requires ScanOk(s) && TablesFor(s, T) && TablesFor(s, T1) && AgreeOn(s, T, T1)
    requires |d.lastDc| == |s.comps| && McusShaped(s, mcus)
    ensures Stream.DecodeMcus(s, T1, ri, d, mcus) == Stream.DecodeMcus(s, T, ri, d, mcus)
    decreases mcus
  {
    hide Stream.DecodeMcu, AgreeOn, TablesFor;
    if mcus != [] {
      McuSame(s, T, T1, ri, d, mcus[0]);
      match Stream.DecodeMcu(s, T, ri, d, mcus[0])
      case None =>
      case Some((d1, _)) => McusSame(s, T, T1, ri, d1, mcus[1..]);
    }
  }

  // ----- the blocks of the image -----

  type Arrays2 = seq<seq<array<Coef>>>

  /** All blocks are in arrays of their own. */
  ghost predicate AllSeparate(blocks: Arrays2) {
    (forall ci, i :: 0 <= ci < |blocks| && 0 <= i < |blocks[ci]| ==> blocks[ci][i].Length == 64) &&
    forall ci, i, cj, j ::
      0 <= ci < |blocks| && 0 <= i < |blocks[ci]| && 0 <= cj < |blocks| && 0 <= j < |blocks[cj]| ==>
      blocks[ci][i] == blocks[cj][j] ==> ci == cj && i == j
  }

  /** The arrays hold the image. */
  ghost predicate BlocksHold(blocks: Arrays2, img: R.Image)
    reads Arrays(blocks)
  {
    |blocks| == |img| && (forall ci :: 0 <= ci < |blocks| ==> |blocks[ci]| == |img[ci]|) &&
    forall ci, i :: 0 <= ci < |blocks| && 0 <= i < |blocks[ci]| ==> HoldsOne(blocks, ci, i, img[ci][i])
  }

  ghost predicate HoldsOne(blocks: Arrays2, ci: nat, i: nat, b: Block)
    requires ci < |blocks| && i < |blocks[ci]|
    reads blocks[ci]
  {
    blocks[ci][i][..] == b
  }

  /** The arrays that make up the MCUs of a scan. */
  ghost predicate Gathers(ps: R.Pass, blocks: Arrays2, mcus: seq<seq<array<Coef>>>) {
    |mcus| == |ps.layout| && (forall m :: 0 <= m < |mcus| ==> |mcus[m]| == |ps.membership|) &&
    forall m: nat, b: nat :: m < |mcus| && b < |ps.membership| ==> IsBlock(ps, blocks, mcus, m, b)
  }

  ghost predicate IsBlock(ps: R.Pass, blocks: Arrays2, mcus: seq<seq<array<Coef>>>, m: nat, b: nat)
    requires m < |mcus| == |ps.layout| && b < |ps.membership| == |mcus[m]|
  {
    ps.membership[b] < |ps.info.comps| && b < |ps.layout[m]| &&
    0 <= ps.info.comps[ps.membership[b]] < |blocks| && ps.layout[m][b] < |blocks[ps.info.comps[ps.membership[b]]]| &&
    mcus[m][b] == blocks[ps.info.comps[ps.membership[b]]][ps.layout[m][b]]
  }

  lemma SamePlace(n: nat, ps: R.Pass, dims: seq<nat>, live: seq<nat>, blocks: Arrays2, mcus: seq<seq<array<Coef>>>, m: nat, b: nat, m1: nat, b1: nat)
    requires R.PassShaped(n, ps) && R.LayoutOk(n, ps, dims, live) && AllSeparate(blocks) && Gathers(ps, blocks, mcus)
    requires m < |mcus| && m1 < |mcus| && b < |ps.membership| && b1 < |ps.membership| && mcus[m][b] == mcus[m1][b1]
    ensures m == m1 && b == b1
  {
    assert IsBlock(ps, blocks, mcus, m, b) && IsBlock(ps, blocks, mcus, m1, b1);
    hide Gathers, R.PassShaped;
    var ci, idx := ps.info.comps[ps.membership[b]], ps.layout[m][b];
    assert R.Places(n, ps, m, b, ci, idx) && R.Places(n, ps, m1, b1, ci, idx);
  }

  lemma McusSeparate(n: nat, ps: R.Pass, dims: seq<nat>, live: seq<nat>, blocks: Arrays2, mcus: seq<seq<array<Coef>>>)
    requires R.PassShaped(n, ps) && R.LayoutOk(n, ps, dims, live) && AllSeparate(blocks) && Gathers(ps, blocks, mcus)
    ensures Separate(mcus)
  {
    hide R.LayoutOk;
    forall m | 0 <= m < |mcus| ensures Blocks64(mcus[m]) && Distinct(mcus[m]) {
      forall b | 0 <= b < |mcus[m]| ensures mcus[m][b].Length == 64 {
        assert IsBlock(ps, blocks, mcus, m, b);
      }
      forall b, b1 | 0 <= b < b1 < |mcus[m]| ensures mcus[m][b] != mcus[m][b1] {
        if mcus[m][b] == mcus[m][b1] { SamePlace(n, ps, dims, live, blocks, mcus, m, b, m, b1); }
      }
    }
    forall m, m1, b, b1 | 0 <= m < |mcus| && 0 <= m1 < |mcus| && m != m1 && 0 <= b < |mcus[m]| && 0 <= b1 < |mcus[m1]|
      ensures mcus[m][b] != mcus[m1][b1]
    {
      if mcus[m][b] == mcus[m1][b1] { SamePlace(n, ps, dims, live, blocks, mcus, m, b, m1, b1); }
    }
  }

  /** The MCUs hold what is gathered from the image. */
  lemma McusHold(n: nat, ps: R.Pass, dims: seq<nat>, live: seq<nat>, blocks: Arrays2, mcus: seq<seq<array<Coef>>>, img: R.Image)
    requires R.PassShaped(n, ps) && R.LayoutOk(n, ps, dims, live) && R.Sized(n, dims, img)
    requires AllSeparate(blocks) && Gathers(ps, blocks, mcus) && BlocksHold(blocks, img)
    ensures HoldAll(mcus, R.Gather(n, ps, dims, live, img))
  {
    McusSeparate(n, ps, dims, live, blocks, mcus);
    hide R.LayoutOk;
    var ms := R.Gather(n, ps, dims, live, img);
    forall m | 0 <= m < |mcus| ensures Holds(mcus, m, ms[m]) {
      HoldsEach(mcus, m, ms[m]);
      forall b | 0 <= b < |ms[m]| ensures mcus[m][b][..] == ms[m][b] {
        assert IsBlock(ps, blocks, mcus, m, b);
        var ci, idx := ps.info.comps[ps.membership[b]], ps.layout[m][b];
        assert HoldsOne(blocks, ci, idx, img[ci][idx]);
      }
    }
  }

  /** Only blocks that the scan places are among its arrays. */
  lemma OnlyPlaced(n: nat, ps: R.Pass, blocks: Arrays2, mcus: seq<seq<array<Coef>>>, ci: nat, idx: nat)
    requires R.PassShaped(n, ps) && AllSeparate(blocks) && Gathers(ps, blocks, mcus) && ci < |blocks| && idx < |blocks[ci]|
    ensures blocks[ci][idx] in Arrays(mcus) ==> R.Placed(n, ps, ci, idx)
  {
    if blocks[ci][idx] in Arrays(mcus) {
      var m, b :| 0 <= m < |mcus| && 0 <= b < |mcus[m]| && mcus[m][b] == blocks[ci][idx];
      assert IsBlock(ps, blocks, mcus, m, b);
      hide R.PassShaped;
      assert R.Places(n, ps, m, b, ci, idx);
    }
  }

  /** A placed block holds what has been decoded for it. */
  lemma PlacedHolds(n: nat, ps: R.Pass, blocks: Arrays2, mcus: seq<seq<array<Coef>>>, fin: seq<Mcu>, blk: Block, ci: nat, idx: nat)
    requires R.PassShaped(n, ps) && AllSeparate(blocks) && Gathers(ps, blocks, mcus) && ci < |blocks| && idx < |blocks[ci]|
    requires |fin| == |ps.layout| && McusShaped(R.ScanOf(n, ps), fin) && HoldAll(mcus, fin) && R.Placed(n, ps, ci, idx)
    ensures HoldsOne(blocks, ci, idx, R.Choose(n, ps, blk, fin, ci, idx))
  {
    hide R.PassShaped;
    var m: nat, b: nat :| R.Places(n, ps, m, b, ci, idx) && R.Choose(n, ps, blk, fin, ci, idx) == fin[m][b];
    assert IsBlock(ps, blocks, mcus, m, b);
    assert Holds(mcus, m, fin[m]);
    HoldsEach(mcus, m, fin[m]);
  }

  // ----- one scan -----

  /** per_scan_setup: the components of the MCUs' blocks, and the blocks themselves. */
  method MakeMcus(f: Frame, cur: seq<nat>, blocks: Arrays2, ghost ps: R.Pass) returns (members: seq<nat>, mcus: seq<seq<array<Coef>>>)
    requires Arranged(f, ps, cur) && R.PassShaped(|f.comps|, ps)
    requires |blocks| == |f.comps| && forall ci :: 0 <= ci < |blocks| ==> |blocks[ci]| == Rooms(f)[ci]
    ensures members == ps.membership && Gathers(ps, blocks, mcus)
  {
    hide CompOf, Room, Live, Across, Down, BlockLayouts.MembershipOf, NumberOf, R.LayoutOk;
    ArrangedOk(f, ps, cur);
    ghost var n := |f.comps|;
    if |cur| == 1 {
      members := [0];
      var ci := cur[0];
      RoomEnough(f, ci);
      mcus := seq(FrameLayout.Live(f, ci), m requires 0 <= m < FrameLayout.Live(f, ci) <= |blocks[ci]| => [blocks[ci][m]]);
      forall m: nat, b: nat | m < |mcus| && b < |ps.membership| ensures IsBlock(ps, blocks, mcus, m, b) {
      }
    } else {
      var s := ShapeOf(f, cur);
      LayoutAt(f, cur, 0, 0);
      members := BlockLayouts.MembershipOf(s, |cur|);
      var count := s.down * s.across;
      forall m: nat, b: nat | m < count && b < |members|
        ensures members[b] < |cur| && NumberOf(s, members, m, b) < |blocks[cur[members[b]]]|
        ensures b < |ps.layout[m]| && ps.layout[m][b] == NumberOf(s, members, m, b)
      {
        LayoutAt(f, cur, m, b);
        InRoom(n, ps, Rooms(f), Lives(f), m, b);
      }
      mcus := seq(count, m requires 0 <= m < count =>
        seq(|members|, b requires 0 <= b < |members| && 0 <= m < count => blocks[cur[members[b]]][NumberOf(s, members, m, b)]));
      forall m: nat, b: nat | m < |mcus| && b < |ps.membership| ensures IsBlock(ps, blocks, mcus, m, b) {
      }
    }
  }

  lemma InRoom(n: nat, ps: R.Pass, dims: seq<nat>, live: seq<nat>, m: nat, b: nat)
    requires R.PassShaped(n, ps) && R.LayoutOk(n, ps, dims, live) && m < |ps.layout| && b < |ps.membership|
    ensures ps.layout[m][b] < dims[ps.info.comps[ps.membership[b]]]
  {
    assert R.Places(n, ps, m, b, ps.info.comps[ps.membership[b]], ps.layout[m][b]);
  }

  /** The tables of a scan. */
  method TablesForScan(huff: map<TableId, HuffTbl>, s: Scan) returns (ht: map<TableId, HuffTbl>)
    requires ScanOk(s) && TablesFor(s, Codings(huff)) && EveryCompCoded(s)
    ensures AllValid(ht) && (forall id :: id in ht && id.Dc? ==> SymbolsFit(ht[id], 15))
    ensures TablesFor(s, CodingsOf(ht)) && AgreeOn(s, Codings(huff), CodingsOf(ht))
  {
    hide Valid, CodingOf, SymbolsFit;
    ht := map[];
    if s.Ss > 0 || s.Ah == 0 {
      for i := 0 to |s.comps|
        invariant forall id :: id in ht ==> id in huff && ht[id] == huff[id] && Usable(id, ht[id])
        invariant forall k :: 0 <= k < i ==> TableOf(s, k) in ht
      {
        TableUsed(s, huff, i);
        var id := TableOf(s, i);
        ht := ht[id := huff[id]];
      }
    }
    AllThere(s, huff, ht);
  }

  lemma TableUsed(s: Scan, huff: map<TableId, HuffTbl>, i: nat)
    requires ScanOk(s) && TablesFor(s, Codings(huff)) && EveryCompCoded(s) && i < |s.comps| && (s.Ss > 0 || s.Ah == 0)
    ensures TableOf(s, i) in huff && Usable(TableOf(s, i), huff[TableOf(s, i)])
  {
    hide Usable;
    assert i in s.membership;
    var b :| 0 <= b < |s.membership| && s.membership[b] == i;
    if s.Ss == 0 {
      assert DcTable(s, b) in Codings(huff);
    }
  }

  lemma AllThere(s: Scan, huff: map<TableId, HuffTbl>, ht: map<TableId, HuffTbl>)
    requires ScanOk(s) && TablesFor(s, Codings(huff)) && AllValid(ht)
    requires forall id :: id in ht ==> id in huff && ht[id] == huff[id] && Usable(id, ht[id])
    requires s.Ss > 0 || s.Ah == 0 ==> forall k :: 0 <= k < |s.comps| ==> TableOf(s, k) in ht
    ensures TablesFor(s, CodingsOf(ht)) && AgreeOn(s, Codings(huff), CodingsOf(ht))
  {
    hide Valid, CodingOf, SymbolsFit;
    if s.Ss > 0 {
      assert TableOf(s, 0) == BandOf(s).id;
    } else if s.Ah == 0 {
      forall b | 0 <= b < |s.membership| ensures DcTable(s, b) in ht {
        assert TableOf(s, s.membership[b]) == DcTable(s, b);
      }
    }
    forall id | id in ScanTables(s) ensures id in ht {
      SeenAll(s);
      var k :| 0 <= k < |s.comps| && id == TableOf(s, k);
    }
  }

  /** The parameters of the scan at hand. */
  method ScanAtHand(rd: MarkerReader.Reader, members: seq<nat>, ghost ps: R.Pass) returns (s: Scan)
    requires Located(rd.Now()) && ps == PassAt(rd.Now(), ps.marker, ps.rest) && members == ps.membership
    requires R.PassShaped(|rd.frame.comps|, ps)
    ensures s == R.ScanOf(|rd.frame.comps|, ps)
  {
    hide Arrange, Codings;
    var cur, dc, ac := rd.cur, rd.dcTbl, rd.acTbl;
    var comps := seq(|cur|, i requires 0 <= i < |cur| && cur[i] < |dc| && cur[i] < |ac| => CompInfo(cur[i], dc[cur[i]], ac[cur[i]]));
    s := Scan(rd.Ss, rd.Se, rd.Ah, rd.Al, comps, members);
    assert s.comps == R.ScanOf(|rd.frame.comps|, ps).comps;
  }

  lemma UsedByLayout(f: Frame, ps: R.Pass, cur: seq<nat>)
    requires Arranged(f, ps, cur) && R.PassShaped(|f.comps|, ps)
    ensures EveryCompCoded(R.ScanOf(|f.comps|, ps))
  {
    hide CompOf, BlockLayouts.MembershipOf, NumberOf, R.PassShaped;
    if |cur| > 1 {
      LayoutAt(f, cur, 0, 0);
      forall k | 0 <= k < |cur| ensures k in ps.membership {
        SomeMember(f, cur, k);
      }
    }
  }

  /** Reads the data of the scan at hand. It ends where reading all of the data at once
      ends, and the blocks are as that leaves them. */
  method DecodePass(rd: MarkerReader.Reader, blocks: Arrays2, ghost img: R.Image, pending0: seq<Byte>, schedule: seq<nat>, calls0: nat)
      returns (pending: seq<Byte>, calls: nat)
    requires rd.src.unreadMarker == 0 && rd.src.coming == pending0 && Readable(rd.Now())
    requires R.Sized(|rd.frame.comps|, Rooms(rd.frame), img) && AllSeparate(blocks) && BlocksHold(blocks, img)
    requires ReadScan(rd.Now(), rd.src.Rest(), img).Some?
    modifies rd.src, Arrays(blocks)
    ensures rd.src.coming == pending
    ensures var (img1, a) := old(ReadScan(rd.Now(), rd.src.Rest(), img)).value;
            BlocksHold(blocks, img1) && rd.src.View(rd.src.Load()) == a
  {
    hide R.LayoutOk, R.Gather, R.Scatter, R.PassShaped, Separate, HoldAll, Gathers, Arranged, Codings, TablesRead, TablesFor;
    hide Stream.DecodeMcus, BlocksHold, AllSeparate;
    hide Arrange, AgreeOn, McusShaped, Look, EveryCompCoded, AllValid, CodingsOf, SymbolsFit, Located;
    ghost var st, f, n, data := rd.Now(), rd.frame, |rd.frame.comps|, rd.src.Rest();
    ghost var ps := PassAt(st, EOI, []);
    ReadableFacts(st);
    ArrangedOk(f, ps, st.cur);
    BlocksSized(blocks, img);
    var members, mcus := MakeMcus(rd.frame, rd.cur, blocks, ps);
    McusSeparate(n, ps, Rooms(f), Lives(f), blocks, mcus);
    McusHold(n, ps, Rooms(f), Lives(f), blocks, mcus, img);
    var s := ScanAtHand(rd, members, ps);
    UsedByLayout(f, ps, st.cur);
    var ht := TablesForScan(rd.huff, s);
    var tables := DeriveAll(ht);
    ghost var T, start := CodingsOf(ht), R.Gather(n, ps, Rooms(f), Lives(f), img);
    ghost var (d, fin) := Stream.DecodeMcus(s, ps.T, rd.ri, Stream.StartDecoder(s, rd.ri, data), start).value;
    McusSame(s, ps.T, T, rd.ri, Stream.StartDecoder(s, rd.ri, data), start);
    R.DecodedShape(n, ps, Rooms(f), Lives(f), img, data);
    KeysSame(ht);
    PartOf(ps, blocks, mcus);
    pending, calls := DecodeScan(rd.src, s, rd.ri, tables, T, pending0, schedule, calls0, mcus, start, d, fin);
    ghost var ps1 := PassAt(st, d.ahead.marker, d.ahead.rest);
    ReadScanFound(st, data, img, d, fin);
    SamePass(n, ps, ps1);
    GathersSame(ps, ps1, blocks, mcus);
    forall ci, i | 0 <= ci < |blocks| && 0 <= i < |blocks[ci]| ensures HoldsOne(blocks, ci, i, R.Scatter(n, ps1, img, fin)[ci][i]) {
      ScatterAt(n, ps1, img, fin, ci, i);
      if R.Placed(n, ps1, ci, i) {
        PlacedHolds(n, ps1, blocks, mcus, fin, img[ci][i], ci, i);
      } else {
        OnlyPlaced(n, ps1, blocks, mcus, ci, i);
        assert old(HeldOne(blocks, img, ci, i));
      }
    }
    AllHeld(blocks, R.Scatter(n, ps1, img, fin));
  }

  /** What reading the scan comes to. */
  lemma ReadScanFound(st: State, data: seq<Byte>, img: R.Image, d: Stream.Decoder, fin: seq<Mcu>)
    requires Readable(st) && R.Sized(|st.frame.comps|, Rooms(st.frame), img) && ReadScan(st, data, img).Some?
    requires var (n, ps) := (|st.frame.comps|, PassAt(st, EOI, []));
             R.LayoutOk(n, ps, Rooms(st.frame), Lives(st.frame)) &&
             Stream.DecodeMcus(R.ScanOf(n, ps), ps.T, ps.ri, Stream.StartDecoder(R.ScanOf(n, ps), ps.ri, data),
                               R.Gather(n, ps, Rooms(st.frame), Lives(st.frame), img)) == Some((d, fin))
    ensures 0 < d.ahead.marker < 0xFF && d.discarded == 0
    ensures var (n, ps1) := (|st.frame.comps|, PassAt(st, d.ahead.marker, d.ahead.rest));
            R.PassShaped(n, ps1) && |fin| == |ps1.layout| && McusShaped(R.ScanOf(n, ps1), fin) &&
            ReadScan(st, data, img) == Some((R.Scatter(n, ps1, img, fin), d.ahead))
  {
    var (n, ps) := (|st.frame.comps|, PassAt(st, EOI, []));
    hide R.LayoutOk, R.Gather, R.Scatter, Stream.DecodeMcus, R.PassShaped, Located, TablesFor, McusShaped;
    R.DecodedShape(n, ps, Rooms(st.frame), Lives(st.frame), img, data);
    SamePass(n, ps, PassAt(st, d.ahead.marker, d.ahead.rest));
  }

  lemma GathersSame(ps: R.Pass, ps1: R.Pass, blocks: Arrays2, mcus: seq<seq<array<Coef>>>)
    requires Gathers(ps, blocks, mcus) && ps1 == ps.(marker := ps1.marker, rest := ps1.rest)
    ensures Gathers(ps1, blocks, mcus)
  {
    forall m: nat, b: nat | m < |mcus| && b < |ps1.membership| ensures IsBlock(ps1, blocks, mcus, m, b) {
      assert IsBlock(ps, blocks, mcus, m, b);
    }
  }

  lemma ScatterAt(n: nat, ps: R.Pass, img: R.Image, fin: seq<Mcu>, ci: nat, i: nat)
    requires R.PassShaped(n, ps) && |fin| == |ps.layout| && McusShaped(R.ScanOf(n, ps), fin) && ci < |img| && i < |img[ci]|
    ensures R.Scatter(n, ps, img, fin)[ci][i] == R.Choose(n, ps, img[ci][i], fin, ci, i)
    ensures !R.Placed(n, ps, ci, i) ==> R.Choose(n, ps, img[ci][i], fin, ci, i) == img[ci][i]
  {
    hide R.PassShaped;
  }

  ghost predicate HeldOne(blocks: Arrays2, img: R.Image, ci: nat, i: nat)
    reads Arrays(blocks)
  {
    BlocksHold(blocks, img) && ci < |blocks| == |img| && i < |blocks[ci]| == |img[ci]| && HoldsOne(blocks, ci, i, img[ci][i])
  }

  lemma AllHeld(blocks: Arrays2, img: R.Image)
    requires |blocks| == |img| && forall ci :: 0 <= ci < |blocks| ==> |blocks[ci]| == |img[ci]|
    requires forall ci, i :: 0 <= ci < |blocks| && 0 <= i < |blocks[ci]| ==> HoldsOne(blocks, ci, i, img[ci][i])
    ensures BlocksHold(blocks, img)
  {
  }

  lemma ReadableFacts(st: State)
    requires Readable(st)
    ensures Located(st) && Sizable(st.frame)
    ensures var ps := PassAt(st, EOI, []);
            Arranged(st.frame, ps, st.cur) && R.PassShaped(|st.frame.comps|, ps) && ps.T == Codings(st.huff) && ps.ri == st.ri &&
            TablesFor(R.ScanOf(|st.frame.comps|, ps), ps.T)
  {
    hide Arrange, McuFits;
  }

  lemma BlocksSized(blocks: Arrays2, img: R.Image)
    requires BlocksHold(blocks, img)
    ensures |blocks| == |img| && forall ci :: 0 <= ci < |blocks| ==> |blocks[ci]| == |img[ci]|
    ensures forall ci, i :: 0 <= ci < |blocks| && 0 <= i < |blocks[ci]| ==> HeldOne(blocks, img, ci, i)
  {
  }

  lemma KeysSame(ht: map<TableId, HuffTbl>)
    requires AllValid(ht)
    ensures CodingsOf(ht).Keys == ht.Keys
  {
  }

  lemma PartOf(ps: R.Pass, blocks: Arrays2, mcus: seq<seq<array<Coef>>>)
    requires Gathers(ps, blocks, mcus)
    ensures Arrays(mcus) <= Arrays(blocks)
  {
    forall m, b | 0 <= m < |mcus| && 0 <= b < |mcus[m]| ensures mcus[m][b] in Arrays(blocks) {
      assert IsBlock(ps, blocks, mcus, m, b);
    }
  }

  // ----- the whole file -----

  /** Reads markers up to the next scan, however often the source runs dry. */
  method NextScan(rd: MarkerReader.Reader, pending0: seq<Byte>, schedule: seq<nat>, calls0: nat)
      returns (found: Found, pending: seq<Byte>, calls: nat)
    requires StateOk(rd.Now()) && rd.MarkerInTurn() && rd.src.coming == pending0 && rd.Total() != Outcome.Suspended
    modifies rd, rd.src`input, rd.src`coming, rd.src`unreadMarker
    ensures !found.Nothing? && rd.src.coming == pending
    ensures found.AtScan? ==>
      StateOk(rd.Now()) && rd.sawSoi && rd.src.unreadMarker == 0 && old(rd.Total()) == ReachedSos(rd.Now(), rd.src.Rest())
    ensures found.AtEnd? ==> old(rd.Total()).ReachedEoi?
    ensures found.Failure? ==> old(rd.Total()) == Failed(found.error)
  {
    hide ReadMarkers, MarkerParsing.Reads, ReadsFirst, StateOk;
    var skip: nat;
    found, skip := rd.ReadUntilScan();
    pending, calls := Drop(pending0, skip), calls0;
    while found.Nothing?
      invariant rd.src.coming == pending
      invariant found.Nothing? ==> StateOk(rd.Now()) && rd.MarkerInTurn() && rd.Total() == old(rd.Total()) && pending != []
      invariant found.AtScan? ==>
        StateOk(rd.Now()) && rd.sawSoi && rd.src.unreadMarker == 0 && old(rd.Total()) == ReachedSos(rd.Now(), rd.src.Rest())
      invariant found.AtEnd? ==> old(rd.Total()).ReachedEoi?
      invariant found.Failure? ==> old(rd.Total()) == Failed(found.error)
      decreases |pending|, if found.Nothing? then 1 else 0
    {
      var n := Piece(pending, if calls < |schedule| then schedule[calls] else 0);
      rd.src.Deliver(pending[..n]);
      pending, calls := pending[n..], calls + 1;
      found, skip := rd.ReadUntilScan();
      pending := Drop(pending, skip);
    }
  }

  /** Where the entropy decoder stops, the marker reader goes on. */
  lemma GoesOn(rd: MarkerReader.Reader)
    requires StateOk(rd.Now()) && rd.sawSoi
    ensures var a := rd.src.View(rd.src.Load());
            rd.MarkerInTurn() && rd.Total() == ReadMarkers(rd.Now(), a.marker, a.rest)
  {
    hide Look, ReadMarkers;
  }

  /** Blank blocks. */
  method Allocate(rooms: seq<nat>) returns (blocks: Arrays2)
    ensures fresh(Arrays(blocks)) && AllSeparate(blocks) && BlocksHold(blocks, R.Blank(|rooms|, rooms))
  {
    blocks := [];
    for ci := 0 to |rooms|
      invariant |blocks| == ci && (forall k :: 0 <= k < ci ==> |blocks[k]| == rooms[k])
      invariant fresh(Arrays(blocks)) && AllSeparate(blocks)
      invariant forall k, i :: 0 <= k < ci && 0 <= i < |blocks[k]| ==> IsZero(blocks[k][i])
    {
      var own := AllocateRow(rooms[ci]);
      OneMoreRow(blocks, own);
      blocks := blocks + [own];
    }
    BlankHeld(blocks, rooms);
  }

  ghost predicate IsZero(a: array<Coef>)
    reads a
  {
    a.Length == 64 && a[..] == ZeroBlock()
  }

  method AllocateRow(n: nat) returns (row: seq<array<Coef>>)
    ensures |row| == n && (forall i :: 0 <= i < n ==> fresh(row[i]) && IsZero(row[i]))
    ensures forall i, j :: 0 <= i < j < n ==> row[i] != row[j]
  {
    row := [];
    for k := 0 to n
      invariant |row| == k && (forall i :: 0 <= i < k ==> fresh(row[i]) && IsZero(row[i]))
      invariant forall i, j :: 0 <= i < j < k ==> row[i] != row[j]
    {
      var a := new Coef[64](_ => 0);
      row := row + [a];
    }
  }

  lemma OneMoreRow(blocks: Arrays2, row: seq<array<Coef>>)
    requires AllSeparate(blocks) && (forall i :: 0 <= i < |row| ==> row[i].Length == 64 && row[i] !in Arrays(blocks))
    requires forall i, j :: 0 <= i < j < |row| ==> row[i] != row[j]
    ensures AllSeparate(blocks + [row]) && Arrays(blocks + [row]) == Arrays(blocks) + set i | 0 <= i < |row| :: row[i]
  {
    var all := blocks + [row];
    forall ci, i, cj, j | 0 <= ci < |all| && 0 <= i < |all[ci]| && 0 <= cj < |all| && 0 <= j < |all[cj]| && all[ci][i] == all[cj][j]
      ensures ci == cj && i == j
    {
      if ci < |blocks| { assert all[ci][i] in Arrays(blocks); }
      if cj < |blocks| { assert all[cj][j] in Arrays(blocks); }
    }
    forall a | a in Arrays(blocks) ensures a in Arrays(all) {
      var m, b :| 0 <= m < |blocks| && 0 <= b < |blocks[m]| && blocks[m][b] == a;
      assert all[m][b] == a;
    }
    forall i | 0 <= i < |row| ensures row[i] in Arrays(all) {
      assert all[|blocks|][i] == row[i];
    }
  }

  lemma BlankHeld(blocks: Arrays2, rooms: seq<nat>)
    requires |blocks| == |rooms| && forall k :: 0 <= k < |rooms| ==> |blocks[k]| == rooms[k]
    requires forall k, i :: 0 <= k < |blocks| && 0 <= i < |blocks[k]| ==> IsZero(blocks[k][i])
    ensures BlocksHold(blocks, R.Blank(|rooms|, rooms))
  {
    var img := R.Blank(|rooms|, rooms);
    forall ci, i | 0 <= ci < |blocks| && 0 <= i < |blocks[ci]| ensures HoldsOne(blocks, ci, i, img[ci][i]) {
      assert IsZero(blocks[ci][i]);
    }
  }

  /** What is left to do when a scan is at hand, and when the file has ended. */
  ghost predicate Onwards(rd: MarkerReader.Reader, found: Found, img: R.Image, goal: R.Image)
    reads rd, rd.src
  {
    match found
    case AtScan =>
      StateOk(rd.Now()) && rd.sawSoi && rd.src.unreadMarker == 0 && ReadScans(rd.Now(), rd.src.Rest(), img) == Some(goal)
    case AtEnd => img == goal
    case _ => false
  }

  /** The scan at hand can be read, and the rest of the file after it. */
  lemma ScanAhead(st: State, data: seq<Byte>, img: R.Image, goal: R.Image)
    requires StateOk(st) && ReadScans(st, data, img) == Some(goal)
    ensures Readable(st) && R.Sized(|st.frame.comps|, Rooms(st.frame), img) && ReadScan(st, data, img).Some?
    ensures var (img1, a) := ReadScan(st, data, img).value;
            var r := ReadMarkers(st, a.marker, a.rest);
            (r.ReachedSos? && |r.rest| < |data| && ReadScans(r.st, r.rest, img1) == Some(goal)) || (r.ReachedEoi? && img1 == goal)
  {
    hide Readable, ReadScan, ReadMarkers;
    var (img1, a) := ReadScan(st, data, img).value;
    MarkersShrink(st, a.marker, a.rest);
  }

  lemma FirstAhead(data: seq<Byte>, goal: R.Image)
    requires ReadFile(data) == Some(goal)
    ensures var r := ReadsFirst(NoState(), data);
            r.ReachedSos? && Sizable(r.st.frame) &&
            ReadScans(r.st, r.rest, R.Blank(|r.st.frame.comps|, Rooms(r.st.frame))) == Some(goal)
  {
    hide ReadsFirst, ReadScans;
  }

  /** Reads a file from a source that delivers it as scheduled. However often marker
      reader and entropy decoder have to give up, the blocks end up as in reading the
      whole file at once. */
  method ReadImage(data: seq<Byte>, schedule: seq<nat>) returns (blocks: Arrays2)
    requires ReadFile(data).Some?
    ensures AllSeparate(blocks) && BlocksHold(blocks, ReadFile(data).value)
  {
    hide ReadMarkers, MarkerParsing.Reads, ReadsFirst, StateOk, ReadFile, ReadScans, ReadScan, Readable, R.Sized;
    hide AllSeparate, BlocksHold, Rooms, R.Blank;
    ghost var goal := ReadFile(data).value;
    FirstAhead(data, goal);
    var src := new BitReader(data);
    var rd := new MarkerReader.Reader(src);
    assert [] + data == data;
    NoneYet();
    var found, pending, calls := NextScan(rd, data, schedule, 0);
    blocks := Allocate(Rooms(rd.frame));
    RoomsSized(rd.frame);
    ghost var img := R.Blank(|rd.frame.comps|, Rooms(rd.frame));
    while found.AtScan?
      invariant rd.src == src && src.coming == pending && Onwards(rd, found, img, goal)
      invariant fresh(src) && fresh(rd) && fresh(Arrays(blocks)) && AllSeparate(blocks) && BlocksHold(blocks, img)
      decreases if found.AtScan? then |src.Rest()| + 1 else 0
    {
      ScanAhead(rd.Now(), src.Rest(), img, goal);
      GoesOnAfter(rd.Now());
      ghost var img1 := ReadScan(rd.Now(), src.Rest(), img).value.0;
      pending, calls := DecodePass(rd, blocks, img, pending, schedule, calls);
      GoesOn(rd);
      img := img1;
      found, pending, calls := NextScan(rd, pending, schedule, calls);
    }
  }

  lemma NoneYet()
    ensures StateOk(NoState())
  {
  }

  lemma RoomsSized(f: Frame)
    requires Sizable(f)
    ensures |Rooms(f)| == |f.comps|
  {
  }

  lemma GoesOnAfter(st: State)
    requires Readable(st)
    ensures StateOk(st)
  {
  }
}
