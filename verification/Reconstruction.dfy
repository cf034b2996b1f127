/** Whole progressive files: after every scan of an accepted script, the decoder
    holds each coefficient exactly to the precision sent so far. */
module Reconstruction {
  import opened Bits
  import opened Wrappers
  import opened Tokens
  import opened AcCoding
  import opened Coefficients
  import opened DcCoding
  import opened ScanCoding
  import opened ScanRoundTrip
  import opened ScanStream
  import opened ScanScript
  import opened SimpleProgression

  /** Coefficient blocks by component and block number. */
  type Image = seq<seq<Block>>

  /** One scan as it is written and read: its script entry, table numbers, the
      arrangement of blocks in MCUs (layout gives block numbers, parallel to
      membership), restart interval, tables, and what follows it in the file. */
  datatype Pass = Pass(info: ScanInfo, dcTbl: seq<nat>, acTbl: seq<nat>, membership: seq<nat>,
                       layout: seq<seq<nat>>, ri: nat, T: Tables, marker: Byte, rest: seq<Byte>)

  ghost predicate PassShaped(n: nat, ps: Pass) {
    CompsOk(n, ps.info) && ProgParamsOk(ps.info) && (ps.info.Ah != 0 ==> ps.info.Al == ps.info.Ah - 1) &&
    |ps.dcTbl| == |ps.acTbl| == |ps.info.comps| &&
    (forall b :: 0 <= b < |ps.membership| ==> ps.membership[b] < |ps.info.comps|) &&
    (|ps.info.comps| == 1 ==> ps.membership == [0]) &&
    (forall m :: 0 <= m < |ps.layout| ==> |ps.layout[m]| == |ps.membership|) &&
    ps.ri < 0x1_0000 && 0 < ps.marker < 0xFF
  }

  ghost function ScanOf(n: nat, ps: Pass): (s: Scan)
    requires PassShaped(n, ps)
    ensures ScanOk(s)
  {
    Scan(ps.info.Ss, ps.info.Se, ps.info.Ah, ps.info.Al,
         seq(|ps.info.comps|, i requires 0 <= i < |ps.info.comps| => CompInfo(ps.info.comps[i], ps.dcTbl[i], ps.acTbl[i])),
         ps.membership)
  }

  /** Block b of MCU m of the scan is block idx of component ci. */
  ghost predicate Places(n: nat, ps: Pass, m: nat, b: nat, ci: int, idx: nat)
    requires PassShaped(n, ps)
  {
    m < |ps.layout| && b < |ps.membership| && ps.info.comps[ps.membership[b]] == ci && ps.layout[m][b] == idx
  }

  ghost predicate Placed(n: nat, ps: Pass, ci: int, idx: nat)
    requires PassShaped(n, ps)
  {
    exists m: nat, b: nat :: Places(n, ps, m, b, ci, idx)
  }

  /** dims: blocks stored per component, live: those that are not padding (the first ones). Each
      block occurs at most once in a scan; all live blocks of its components do,
      and in a scan of one component no others. */
  ghost predicate LayoutOk(n: nat, ps: Pass, dims: seq<nat>, live: seq<nat>)
    requires PassShaped(n, ps)
  {
    |dims| == |live| == n && (forall ci :: 0 <= ci < n ==> live[ci] <= dims[ci]) &&
    (forall m: nat, b: nat, ci, idx: nat :: Places(n, ps, m, b, ci, idx) ==>
       idx < dims[ci] && (|ps.info.comps| == 1 ==> idx < live[ci])) &&
    (forall m: nat, b: nat, m': nat, b': nat, ci, idx: nat ::
       Places(n, ps, m, b, ci, idx) && Places(n, ps, m', b', ci, idx) ==> m == m' && b == b') &&
    (forall i, idx: nat :: 0 <= i < |ps.info.comps| && idx < live[ps.info.comps[i]] ==> Placed(n, ps, ps.info.comps[i], idx))
  }

  ghost predicate Sized(n: nat, dims: seq<nat>, img: Image) {
    |dims| == |img| == n && forall ci :: 0 <= ci < n ==> |img[ci]| == dims[ci]
  }

  ghost function BlockOf(n: nat, ps: Pass, dims: seq<nat>, live: seq<nat>, img: Image, m: nat, b: nat): Block
    requires PassShaped(n, ps) && LayoutOk(n, ps, dims, live) && Sized(n, dims, img)
    requires m < |ps.layout| && b < |ps.membership|
  {
    assert Places(n, ps, m, b, ps.info.comps[ps.membership[b]], ps.layout[m][b]);
    img[ps.info.comps[ps.membership[b]]][ps.layout[m][b]]
  }

  /** The MCUs of the scan, taken from an image. */
  ghost function Gather(n: nat, ps: Pass, dims: seq<nat>, live: seq<nat>, img: Image): (mcus: seq<Mcu>)
    requires PassShaped(n, ps) && LayoutOk(n, ps, dims, live) && Sized(n, dims, img)
    ensures McusShaped(ScanOf(n, ps), mcus) && |mcus| == |ps.layout|
  {
    seq(|ps.layout|, m requires 0 <= m < |ps.layout| =>
      seq(|ps.membership|, b requires 0 <= b < |ps.membership| => BlockOf(n, ps, dims, live, img, m, b)))
  }

  /** The image with the MCUs of the scan put back. */
  ghost function Scatter(n: nat, ps: Pass, img: Image, mcus: seq<Mcu>): (r: Image)
    requires PassShaped(n, ps) && |mcus| == |ps.layout| && McusShaped(ScanOf(n, ps), mcus)
    ensures |r| == |img| && forall ci :: 0 <= ci < |img| ==> |r[ci]| == |img[ci]|
  {
    seq(|img|, ci requires 0 <= ci < |img| =>
      seq(|img[ci]|, idx requires 0 <= idx < |img[ci]| => Choose(n, ps, img[ci][idx], mcus, ci, idx)))
  }

  ghost function Choose(n: nat, ps: Pass, blk: Block, mcus: seq<Mcu>, ci: nat, idx: nat): Block
    requires PassShaped(n, ps) && |mcus| == |ps.layout| && McusShaped(ScanOf(n, ps), mcus)
  {
    if Placed(n, ps, ci, idx) then
      var m: nat, b: nat :| Places(n, ps, m, b, ci, idx);
      mcus[m][b]
    else blk
  }

  /** Writing the scan raises no error: all coefficients are in range and all
      symbols have codes. */
  ghost predicate Writable(n: nat, ps: Pass, dims: seq<nat>, live: seq<nat>, img: Image)
    requires PassShaped(n, ps) && LayoutOk(n, ps, dims, live) && Sized(n, dims, img)
  {
    var s, mcus := ScanOf(n, ps), Gather(n, ps, dims, live, img);
    EncodesOk(s, ps.ri, StartEncoder(s, ps.ri), mcus) && CoversAll(ps.T, ScanSegments(s, ps.ri, mcus))
  }

  /** The bytes of the scan and of everything after it. */
  ghost function Written(n: nat, ps: Pass, dims: seq<nat>, live: seq<nat>, img: Image): seq<Byte>
    requires PassShaped(n, ps) && LayoutOk(n, ps, dims, live) && Sized(n, dims, img) && Writable(n, ps, dims, live, img)
  {
    Render(ps.T, ScanSegments(ScanOf(n, ps), ps.ri, Gather(n, ps, dims, live, img)), 0, [0xFF, ps.marker] + ps.rest)
  }

  /** Reading a scan into the decoder's image. */
  ghost function ReadPass(n: nat, ps: Pass, dims: seq<nat>, live: seq<nat>, dec: Image, bytes: seq<Byte>): (r: Option<Image>)
    requires PassShaped(n, ps) && LayoutOk(n, ps, dims, live) && Sized(n, dims, dec) && TablesFor(ScanOf(n, ps), ps.T)
    ensures r.Some? ==> Sized(n, dims, r.value)
  {
    var s := ScanOf(n, ps);
    match DecodeMcus(s, ps.T, ps.ri, StartDecoder(s, ps.ri, bytes), Gather(n, ps, dims, live, dec))
    case None => None
    case Some((_, mcus)) => DecodedShape(n, ps, dims, live, dec, bytes); Some(Scatter(n, ps, dec, mcus))
  }

  lemma {:induction false} DecodesShaped(s: Scan, T: Tables, ri: nat, d: ScanStream.Decoder, mcus: seq<Mcu>)
    requires ScanOk(s) && TablesFor(s, T) && |d.lastDc| == |s.comps| && McusShaped(s, mcus)
    ensures var r := DecodeMcus(s, T, ri, d, mcus); r.Some? ==> McusShaped(s, r.value.1)
    decreases mcus
  {
    hide DecodeMcu;
    if mcus != [] {
      match DecodeMcu(s, T, ri, d, mcus[0])
      case None =>
      case Some((d1, _)) => DecodesShaped(s, T, ri, d1, mcus[1..]);
    }
  }

  lemma DecodedShape(n: nat, ps: Pass, dims: seq<nat>, live: seq<nat>, dec: Image, bytes: seq<Byte>)
    requires PassShaped(n, ps) && LayoutOk(n, ps, dims, live) && Sized(n, dims, dec) && TablesFor(ScanOf(n, ps), ps.T)
    ensures var s := ScanOf(n, ps);
            var r := DecodeMcus(s, ps.T, ps.ri, StartDecoder(s, ps.ri, bytes), Gather(n, ps, dims, live, dec));
            r.Some? ==> McusShaped(s, r.value.1)
  {
    var s := ScanOf(n, ps);
    DecodesShaped(s, ps.T, ps.ri, StartDecoder(s, ps.ri, bytes), Gather(n, ps, dims, live, dec));
  }

  /** What a decoder holds of coefficient k of value x known to precision al. */
  function Recon(x: int, k: nat, al: int): int {
    if al < 0 then 0 else if k == 0 then DcTrunc(x, al) else Trunc(x, al)
  }

  /** Every coefficient of a live block is held exactly to the precision the scans have sent. */
  ghost predicate Holds(n: nat, live: seq<nat>, img: Image, dec: Image, scans: seq<ScanInfo>) {
    |live| == |img| == |dec| == n && (forall ci :: 0 <= ci < n ==> live[ci] <= |img[ci]| && live[ci] <= |dec[ci]|) &&
    forall ci, idx :: 0 <= ci < n && 0 <= idx < live[ci] ==> HoldsBlock(img[ci][idx], dec[ci][idx], ci, scans)
  }

  ghost predicate HoldsBlock(x: Block, y: Block, ci: int, scans: seq<ScanInfo>) {
    forall k :: 0 <= k < 64 ==> y[k] == Recon(x[k], k, LastAl(scans, ci, k))
  }

  ghost predicate ImageShort(img: Image) {
    forall ci, idx :: 0 <= ci < |img| && 0 <= idx < |img[ci]| ==> Shorts(img[ci][idx])
  }

  // ----- one scan -----

  /** The scan continues what the scans before it have sent. */
  ghost predicate Follows(n: nat, before: seq<ScanInfo>, ps: Pass) {
    PassShaped(n, ps) && ProgScanOk(n, before, ps.info)
  }

  lemma AcBlockReady(n: nat, ps: Pass, live: seq<nat>, img: Image, dec: Image, before: seq<ScanInfo>, ci: nat, idx: nat)
    requires Follows(n, before, ps) && Holds(n, live, img, dec, before) && ImageShort(img)
    requires ps.info.Ss > 0 && ps.info.comps == [ci] && ci < n && idx < live[ci]
    ensures Prior(BandOf(ScanOf(n, ps)), dec[ci][idx], img[ci][idx])
  {
    hide Trunc, LastAl;
    var p := BandOf(ScanOf(n, ps));
    assert HoldsBlock(img[ci][idx], dec[ci][idx], ci, before);
    assert ContinuesComp(before, ps.info, ps.info.comps[0]);
    forall k | p.Ss <= k <= p.Se
      ensures dec[ci][idx][k] == if p.Ah == 0 then 0 else Trunc(img[ci][idx][k], p.Ah)
    {
      assert Continues(ps.info, LastAl(before, ci, k));
    }
  }

  lemma PassReady(n: nat, ps: Pass, dims: seq<nat>, live: seq<nat>, img: Image, dec: Image, before: seq<ScanInfo>)
    requires Follows(n, before, ps) && LayoutOk(n, ps, dims, live) && Sized(n, dims, img) && Sized(n, dims, dec)
    requires Holds(n, live, img, dec, before) && ImageShort(img)
    ensures McusReady(ScanOf(n, ps), Gather(n, ps, dims, live, dec), Gather(n, ps, dims, live, img))
  {
    hide Holds, Prior;
    var s, prevs, cs := ScanOf(n, ps), Gather(n, ps, dims, live, dec), Gather(n, ps, dims, live, img);
    forall m, b | 0 <= m < |cs| && 0 <= b < |ps.membership| ensures Ready(s, prevs[m][b], cs[m][b]) {
      var ci, idx := ps.info.comps[ps.membership[b]], ps.layout[m][b];
      assert Places(n, ps, m, b, ci, idx);
      if s.Ss > 0 {
        assert ps.info.comps == [ci];
        AcBlockReady(n, ps, live, img, dec, before, ci, idx);
      }
    }
    assert forall m :: 0 <= m < |cs| ==> McuReady(s, prevs[m], cs[m]);
  }

  /** A live block of a scanned component after the scan. */
  lemma ScannedBlock(n: nat, ps: Pass, live: seq<nat>, img: Image, dec: Image, before: seq<ScanInfo>,
                     ci: nat, idx: nat, k: nat)
    requires Follows(n, before, ps) && Holds(n, live, img, dec, before) && ImageShort(img)
    requires ci in ps.info.comps && ci < n && idx < live[ci] && k < 64
    ensures BlockAfter(ScanOf(n, ps), dec[ci][idx], img[ci][idx])[k]
         == Recon(img[ci][idx][k], k, LastAl(before + [ps.info], ci, k))
  {
    hide Trunc, DcTrunc, DcAfter, LastAl;
    var s := ScanOf(n, ps);
    assert HoldsBlock(img[ci][idx], dec[ci][idx], ci, before);
    LastAlSnoc(before, ps.info, ci, k);
    var i :| 0 <= i < |ps.info.comps| && ps.info.comps[i] == ci;
    assert ContinuesComp(before, ps.info, ps.info.comps[i]);
    if s.Ss == 0 && k == 0 {
      assert Continues(ps.info, LastAl(before, ci, 0));
      DcAfterIs(s, dec[ci][idx][0], img[ci][idx][0]);
    }
  }

  ghost function GatheredAfter(n: nat, ps: Pass, dims: seq<nat>, live: seq<nat>, img: Image, dec: Image): (r: seq<Mcu>)
    requires PassShaped(n, ps) && LayoutOk(n, ps, dims, live) && Sized(n, dims, img) && Sized(n, dims, dec)
    ensures |r| == |ps.layout|
  {
    McusAfter(ScanOf(n, ps), Gather(n, ps, dims, live, dec), Gather(n, ps, dims, live, img))
  }

  lemma GatherAfter(n: nat, ps: Pass, dims: seq<nat>, live: seq<nat>, img: Image, dec: Image, ci: nat, idx: nat)
    requires PassShaped(n, ps) && LayoutOk(n, ps, dims, live) && Sized(n, dims, img) && Sized(n, dims, dec)
    requires ci < n && idx < dims[ci]
    ensures McusShaped(ScanOf(n, ps), GatheredAfter(n, ps, dims, live, img, dec))
    ensures Choose(n, ps, dec[ci][idx], GatheredAfter(n, ps, dims, live, img, dec), ci, idx)
         == if Placed(n, ps, ci, idx) then BlockAfter(ScanOf(n, ps), dec[ci][idx], img[ci][idx]) else dec[ci][idx]
  {
    hide BlockAfter;
    var s := ScanOf(n, ps);
    var mcus := McusAfter(s, Gather(n, ps, dims, live, dec), Gather(n, ps, dims, live, img));
    assert McusShaped(s, mcus);
    if Placed(n, ps, ci, idx) {
      var m: nat, b: nat :| Places(n, ps, m, b, ci, idx) && Choose(n, ps, dec[ci][idx], mcus, ci, idx) == mcus[m][b];
    }
  }

  /** Reading one scan of an accepted script keeps the decoder exact. */
  lemma PassKeeps(n: nat, ps: Pass, dims: seq<nat>, live: seq<nat>, img: Image, dec: Image, before: seq<ScanInfo>)
    requires Follows(n, before, ps) && LayoutOk(n, ps, dims, live) && Sized(n, dims, img) && Sized(n, dims, dec)
    requires Holds(n, live, img, dec, before) && ImageShort(img)
    requires SoundTables(ScanOf(n, ps), ps.T) && Writable(n, ps, dims, live, img)
    ensures var r := ReadPass(n, ps, dims, live, dec, Written(n, ps, dims, live, img));
            r.Some? && Holds(n, live, img, r.value, before + [ps.info])
  {
    hide DecodeMcus, EncodesOk, ScanSegments, Render, McusAfter, McusReady, BlockAfter, Recon, LastAl, Gather, Choose;
    var s, prevs, cs := ScanOf(n, ps), Gather(n, ps, dims, live, dec), Gather(n, ps, dims, live, img);
    PassReady(n, ps, dims, live, img, dec, before);
    ScanRoundTrips(s, ps.T, ps.ri, prevs, cs, ps.marker, ps.rest);
    var mcus := McusAfter(s, prevs, cs);
    var r := ReadPass(n, ps, dims, live, dec, Written(n, ps, dims, live, img)).value;
    forall ci: nat, idx: nat | ci < n && idx < live[ci]
      ensures HoldsBlock(img[ci][idx], r[ci][idx], ci, before + [ps.info])
    {
      GatherAfter(n, ps, dims, live, img, dec, ci, idx);
      assert r[ci][idx] == Choose(n, ps, dec[ci][idx], mcus, ci, idx);
      forall k | 0 <= k < 64 ensures r[ci][idx][k] == Recon(img[ci][idx][k], k, LastAl(before + [ps.info], ci, k)) {
        KeptOrScanned(n, ps, dims, live, img, dec, before, ci, idx, k);
      }
    }
  }

  lemma LivePlaced(n: nat, ps: Pass, dims: seq<nat>, live: seq<nat>, ci: nat, idx: nat)
    requires PassShaped(n, ps) && LayoutOk(n, ps, dims, live) && ci in ps.info.comps && ci < n && idx < live[ci]
    ensures Placed(n, ps, ci, idx)
  {
    var i :| 0 <= i < |ps.info.comps| && ps.info.comps[i] == ci;
    assert Placed(n, ps, ps.info.comps[i], idx);
  }

  lemma KeptOrScanned(n: nat, ps: Pass, dims: seq<nat>, live: seq<nat>, img: Image, dec: Image, before: seq<ScanInfo>,
                      ci: nat, idx: nat, k: nat)
    requires Follows(n, before, ps) && LayoutOk(n, ps, dims, live) && Sized(n, dims, img) && Sized(n, dims, dec)
    requires Holds(n, live, img, dec, before) && ImageShort(img)
    requires ci < n && idx < live[ci] && k < 64
    ensures (if Placed(n, ps, ci, idx) then BlockAfter(ScanOf(n, ps), dec[ci][idx], img[ci][idx]) else dec[ci][idx])[k]
         == Recon(img[ci][idx][k], k, LastAl(before + [ps.info], ci, k))
  {
    hide BlockAfter, Recon, LastAl;
    if Placed(n, ps, ci, idx) {
      var m: nat, b: nat :| Places(n, ps, m, b, ci, idx);
      ScannedBlock(n, ps, live, img, dec, before, ci, idx, k);
    } else {
      if ci in ps.info.comps { LivePlaced(n, ps, dims, live, ci, idx); }
      LastAlSnoc(before, ps.info, ci, k);
      assert HoldsBlock(img[ci][idx], dec[ci][idx], ci, before);
    }
  }

  // ----- whole files -----

  function Infos(passes: seq<Pass>): seq<ScanInfo> {
    seq(|passes|, i requires 0 <= i < |passes| => passes[i].info)
  }

  /** Every scan is well laid out, has sound tables and can be written. */
  ghost predicate FileOk(n: nat, passes: seq<Pass>, dims: seq<nat>, live: seq<nat>, img: Image) {
    Sized(n, dims, img) && ImageShort(img) &&
    forall i :: 0 <= i < |passes| ==>
      PassShaped(n, passes[i]) && LayoutOk(n, passes[i], dims, live) &&
      SoundTables(ScanOf(n, passes[i]), passes[i].T) && Writable(n, passes[i], dims, live, img)
  }

  /** The decoder's blocks before any scan: all zero. */
  function Blank(n: nat, dims: seq<nat>): Image
    requires |dims| == n
  {
    var zero: Block := seq(64, _ => 0);
    seq(n, ci requires 0 <= ci < n => seq(dims[ci], _ => zero))
  }

  /** Reading the scans one after the other, from an image of zeros. */
  ghost function ReadPasses(n: nat, passes: seq<Pass>, dims: seq<nat>, live: seq<nat>, img: Image): (r: Option<Image>)
    requires FileOk(n, passes, dims, live, img)
    ensures r.Some? ==> Sized(n, dims, r.value)
  {
    if passes == [] then Some(Blank(n, dims))
    else
      var l := |passes| - 1;
      FileOkPrefix(n, passes, dims, live, img, l);
      match ReadPasses(n, passes[..l], dims, live, img)
      case None => None
      case Some(dec) => ReadPass(n, passes[l], dims, live, dec, Written(n, passes[l], dims, live, img))
  }

  lemma FileOkPrefix(n: nat, passes: seq<Pass>, dims: seq<nat>, live: seq<nat>, img: Image, i: nat)
    requires FileOk(n, passes, dims, live, img) && i <= |passes|
    ensures FileOk(n, passes[..i], dims, live, img)
  {
    hide PassShaped, LayoutOk, SoundTables, Writable, ScanOf;
    assert forall j :: 0 <= j < i ==> passes[..i][j] == passes[j];
  }

  /** After every prefix of a script in order, each coefficient is held exactly to
      the precision sent. */
  lemma {:induction false} PrefixReconstructs(n: nat, passes: seq<Pass>, dims: seq<nat>, live: seq<nat>, img: Image)
    requires FileOk(n, passes, dims, live, img) && ProgScansOk(n, Infos(passes))
    requires |live| == n && forall ci :: 0 <= ci < n ==> live[ci] <= dims[ci]
    ensures var r := ReadPasses(n, passes, dims, live, img);
            r.Some? && Holds(n, live, img, r.value, Infos(passes))
    decreases |passes|
  {
    hide PassShaped, LayoutOk, SoundTables, Writable, ReadPass, Written, ScanOf, ProgScanOk;
    if passes != [] {
      var l := |passes| - 1;
      FileOkPrefix(n, passes, dims, live, img, l);
      var before := Infos(passes[..l]);
      assert before == Infos(passes)[..l];
      assert forall i :: 0 <= i < l ==> before[..i] == Infos(passes)[..i];
      PrefixReconstructs(n, passes[..l], dims, live, img);
      assert ProgScanOk(n, Infos(passes)[..l], Infos(passes)[l]);
      PassKeeps(n, passes[l], dims, live, img, ReadPasses(n, passes[..l], dims, live, img).value, before);
      assert before + [passes[l].info] == Infos(passes);
    }
  }

  lemma LosslessAtZero(x: int)
    ensures Trunc(x, 0) == x && DcTrunc(x, 0) == x
  {
    assert Pow2(0) == 1 && Shr(x, 0) == x && Shr(Abs(x), 0) == Abs(x);
  }

  /** A script that sends every bit reproduces the image exactly. */
  lemma CompleteScriptIsLossless(n: nat, passes: seq<Pass>, dims: seq<nat>, live: seq<nat>, img: Image)
    requires FileOk(n, passes, dims, live, img) && AcceptedProgressive(n, Infos(passes))
    requires |live| == n && forall ci :: 0 <= ci < n ==> live[ci] <= dims[ci]
    requires forall ci, k :: 0 <= ci < n && 0 <= k < 64 ==> LastAl(Infos(passes), ci, k) == 0
    ensures var r := ReadPasses(n, passes, dims, live, img);
            r.Some? && forall ci, idx: nat :: 0 <= ci < n && idx < live[ci] ==> r.value[ci][idx] == img[ci][idx]
  {
    hide FileOk, ReadPasses, LastAl, ProgScansOk, Trunc, DcTrunc;
    PrefixReconstructs(n, passes, dims, live, img);
    var dec := ReadPasses(n, passes, dims, live, img).value;
    forall ci, idx: nat | 0 <= ci < n && idx < live[ci] ensures dec[ci][idx] == img[ci][idx] {
      assert HoldsBlock(img[ci][idx], dec[ci][idx], ci, Infos(passes));
      forall k | 0 <= k < 64 ensures dec[ci][idx][k] == img[ci][idx][k] {
        LosslessAtZero(img[ci][idx][k]);
      }
    }
  }

  /** The script that jpeg_simple_progression makes reproduces the image exactly. */
  lemma SimpleProgressionIsLossless(n: nat, ycc: bool, passes: seq<Pass>, dims: seq<nat>, live: seq<nat>, img: Image)
    requires n > 0 && FileOk(n, passes, dims, live, img) && Infos(passes) == SimpleScript(n, ycc)
    requires |live| == n && forall ci :: 0 <= ci < n ==> live[ci] <= dims[ci]
    ensures var r := ReadPasses(n, passes, dims, live, img);
            r.Some? && forall ci, idx: nat :: 0 <= ci < n && idx < live[ci] ==> r.value[ci][idx] == img[ci][idx]
  {
    hide FileOk, ReadPasses, LastAl, AcceptedProgressive, SimpleScript;
    SimpleScriptAccepted(n, ycc);
    CompleteScriptIsLossless(n, passes, dims, live, img);
  }
}
