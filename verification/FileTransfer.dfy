/** From an image's coefficients to a file, and from pieces of the file back to the
    coefficients. */
module FileTransfer {
  import opened Wrappers
  import opened ScanCoding
  import opened ScanScript
  import opened SimpleProgression
  import opened Markers
  import opened HeaderSync
  import opened MarkerWriter
  import opened FrameLayout
  import opened SuspendedScan
  import opened WholeFile
  import opened FileWriter
  import opened FileReader
  import R = Reconstruction

  /** The scans of an image that is to be sent as a progressive file. */
  ghost predicate Transferable(f: Frame, extras: seq<Extra>, plans: seq<Plan>, img: R.Image) {
    FrameShaped(f) && f.progressive && Sizable(f) && IdsFit(f) && (forall i :: 0 <= i < |extras| ==> ExtraOk(extras[i])) &&
    R.ImageShort(img) && R.Sized(|f.comps|, Rooms(f), img) && plans != [] && ProgScansOk(|f.comps|, ScansOf(plans)) &&
    forall k :: 0 <= k < |plans| ==> PlanOk(f, img, plans[k]) && Countable(f, img, plans[k])
  }

  /** The blocks hold every coefficient to the precision that the scans have sent. */
  ghost predicate Arrived(f: Frame, img: R.Image, scans: seq<ScanInfo>, blocks: Arrays2)
    reads Arrays(blocks)
  {
    Sizable(f) && exists got: R.Image :: BlocksHold(blocks, got) && R.Holds(|f.comps|, Lives(f), img, got, scans)
  }

  /** Writes a progressive file with optimal tables, and reads it back from a source that
      delivers it as scheduled. Unless the encoder refuses the image, which it does under
      the stated conditions only, everything that the script sends arrives. */
  method Transfer(f: Frame, numbers: seq<CompInfo>, extras: seq<Extra>, plans: seq<Plan>, quant: map<nat, Entry<QuantTbl>>,
                  ghost img: R.Image, schedule: seq<nat>) returns (r: Result<Arrays2, FileError>)
    requires Transferable(f, extras, plans, img) && |numbers| == |f.comps|
    requires forall n :: n in quant ==> n < NUM_QUANT_TBLS && QuantOk(quant[n].tbl) && !quant[n].sent
    ensures r.Ok? <==>
      (forall i :: 0 <= i < |f.comps| ==> f.comps[i].quant in quant) && f.height <= 65535 && f.width <= 65535 &&
      forall k :: 0 <= k < |plans| ==> Encodable(f, img, plans[k])
    ensures r.Ok? ==> Arrived(f, img, ScansOf(plans), r.value)
  {
    hide PlanOk, Countable, Encodable, AllSendable, FileBytes, ReadFile, R.Holds, R.Sized, R.ImageShort, IdsFit, ProgScansOk, BlocksHold, FrameHeader;
    hide FrameReady, Lives, Rooms, ScansOf, Matching, Sizable;
    var w := new Writer(quant, map[]);
    ghost var w0 := w.Now();
    NoneSent(quant);
    var err: Option<FileError>;
    ghost var jobs;
    err, jobs := WriteFile(w, f, numbers, extras, plans, img);
    if err.Some? {
      return Err(err.value);
    }
    WrittenFileReads(w0, f, extras, plans, img, jobs);
    var blocks := ReadImage(w.out, schedule);
    return Ok(blocks);
  }

  lemma NoneSent(quant: map<nat, Entry<QuantTbl>>)
    requires forall n :: n in quant ==> n < NUM_QUANT_TBLS && QuantOk(quant[n].tbl) && !quant[n].sent
    ensures var w := Sender(quant, map[], 0); SenderOk(w) && AllUnsent(FromSoi(w))
  {
  }

  /** With the script of jpeg_simple_progression, what arrives is the image. */
  lemma SimpleArrivesWhole(f: Frame, img: R.Image, ycc: bool, blocks: Arrays2, ci: nat, i: nat)
    requires Arrived(f, img, SimpleScript(|f.comps|, ycc), blocks) && ci < |f.comps| && i < Lives(f)[ci]
    ensures ci < |blocks| && i < |blocks[ci]| && ci < |img| && i < |img[ci]| && blocks[ci][i][..] == img[ci][i]
  {
    hide SimpleScript, LastAl, R.Recon, Live, R.HoldsBlock;
    SimpleScriptAccepted(|f.comps|, ycc);
    var got: R.Image :| BlocksHold(blocks, got) && R.Holds(|f.comps|, Lives(f), img, got, SimpleScript(|f.comps|, ycc));
    AllExact(|f.comps|, Lives(f), img, got, SimpleScript(|f.comps|, ycc));
    assert HoldsOne(blocks, ci, i, got[ci][i]);
  }
}
