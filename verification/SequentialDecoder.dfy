/** The sequential Huffman decoder (jdhuff.c): decode_mcu with suspension. */
module SequentialDecoder {
  import opened Bits
  import opened Wrappers
  import opened Tokens
  import opened ByteStream
  import opened HuffmanCode
  import opened AcCoding
  import opened Coefficients
  import opened DcCoding
  import opened DerivedTables
  import opened DecoderTables
  import opened BitReading
  import opened SequentialCoding
  import opened SequentialScan
  import opened Progressive = ProgressiveDecoder
  import Retry
  import Stream = ScanStream

  // ----- reading again -----

  lemma {:induction false} AcKeeps(read: Reader, k: nat, blk: Block, bits: seq<bool>)
    requires DecAc(read, k, blk, bits).Some?
    ensures forall i :: 0 <= i < k && i < 64 ==> DecAc(read, k, blk, bits).value.0[i] == blk[i]
    decreases 64 - k
  {
    hide Extend, ToShort;
    if k < 64 {
      var (rs, bits1) := read(bits).value;
      var r, s := rs / 16, rs % 16;
      if s != 0 {
        var (x, bits2) := GetBits(s, bits1).value;
        AcKeeps(read, k + r + 1, blk[k + r := ToShort(Extend(x, s))], bits2);
      } else if r == 15 {
        AcKeeps(read, k + 16, blk, bits1);
      }
    }
  }

  lemma {:induction false} AcRetry(read: Reader, k: nat, prev: Block, cur: Block, bits: seq<bool>, fin: Block, rest: seq<bool>)
    requires DecAc(read, k, prev, bits) == Some((fin, rest)) && Retry.Between(prev, cur, fin)
    ensures DecAc(read, k, cur, bits) == Some((fin, rest))
    decreases 64 - k
  {
    hide Extend, ToShort;
    if k < 64 {
      var (rs, bits1) := read(bits).value;
      var r, s := rs / 16, rs % 16;
      if s != 0 {
        var (x, bits2) := GetBits(s, bits1).value;
        var v := ToShort(Extend(x, s));
        AcRetry(read, k + r + 1, prev[k + r := v], cur[k + r := v], bits2, fin, rest);
      } else if r == 15 {
        AcRetry(read, k + 16, prev, cur, bits1, fin, rest);
      } else {
        Retry.SameBlock(prev, cur);
      }
    } else {
      Retry.SameBlock(prev, cur);
    }
  }

  /** A block that was given up on reads the same way again. */
  lemma BlockRetry(T: Tables, dc: TableId, ac: TableId, last: int, prev: Block, cur: Block, bits: seq<bool>, v: int, fin: Block, rest: seq<bool>)
    requires dc in T && ac in T && DecBlock(T, dc, ac, last, prev, bits) == Some((v, fin, rest)) && Retry.Between(prev, cur, fin)
    ensures DecBlock(T, dc, ac, last, cur, bits) == Some((v, fin, rest))
  {
    hide DecAc, ReadDiff, ToShort;
    var (d, bits1) := ReadDiff(T[dc].read, bits).value;
    var x := ToShort(last + d);
    AcKeeps(T[ac].read, 1, prev[0 := x], bits1);
    AcRetry(T[ac].read, 1, prev[0 := x], cur[0 := x], bits1, fin, rest);
  }

  lemma {:induction false} BlocksKeep(s: Layout, T: Tables, bits: seq<bool>, lastDc: seq<int>, mcu: Mcu, b: nat)
    requires TablesFor(s, T) && |lastDc| == |s.comps| && |mcu| == |s.membership| && DecBlocks(s, T, bits, lastDc, mcu, b).Some?
    ensures forall i :: 0 <= i < b && i < |mcu| ==> DecBlocks(s, T, bits, lastDc, mcu, b).value.2[i] == mcu[i]
    decreases |mcu| - b
  {
    hide DecBlock;
    if b < |mcu| {
      var ci := s.membership[b];
      var (v, blk, bits1) := DecBlock(T, DcId(s, b), AcId(s, b), lastDc[ci], mcu[b], bits).value;
      BlocksKeep(s, T, bits1, lastDc[ci := v], mcu[b := blk], b + 1);
    }
  }

  ghost predicate McuBetween(prev: Mcu, cur: Mcu, fin: Mcu) {
    |prev| == |cur| == |fin| && forall i :: 0 <= i < |prev| ==> Retry.Between(prev[i], cur[i], fin[i])
  }

  /** An MCU that was given up on reads the same way again. */
  lemma {:induction false} McuRetry(s: Layout, T: Tables, bits: seq<bool>, lastDc: seq<int>, prev: Mcu, cur: Mcu, b: nat,
                                    rest: seq<bool>, last1: seq<int>, fin: Mcu)
    requires TablesFor(s, T) && |lastDc| == |s.comps| && |prev| == |cur| == |s.membership|
    requires DecBlocks(s, T, bits, lastDc, prev, b) == Some((rest, last1, fin)) && McuBetween(prev, cur, fin)
    requires forall i :: 0 <= i < b && i < |cur| ==> cur[i] == fin[i]
    ensures DecBlocks(s, T, bits, lastDc, cur, b) == Some((rest, last1, fin))
    decreases |cur| - b
  {
    hide DecBlock, Retry.Between;
    if b < |cur| {
      var ci := s.membership[b];
      var (v, blk, bits1) := DecBlock(T, DcId(s, b), AcId(s, b), lastDc[ci], prev[b], bits).value;
      BlocksKeep(s, T, bits1, lastDc[ci := v], prev[b := blk], b + 1);
      assert fin[b] == blk;
      BlockRetry(T, DcId(s, b), AcId(s, b), lastDc[ci], prev[b], cur[b], bits, v, blk, bits1);
      Finished(blk);
      McuRetry(s, T, bits1, lastDc[ci := v], prev[b := blk], cur[b := blk], b + 1, rest, last1, fin);
    } else {
      assert cur == fin;
    }
  }

  lemma Finished(blk: Block)
    ensures Retry.Between(blk, blk, blk)
  {
  }

  // ----- one symbol further -----

  lemma AcNeeds(read: Reader, k: nat, cur: Block, bits: seq<bool>, fin: Block, rest: seq<bool>)
    requires DecAc(read, k, cur, bits) == Some((fin, rest))
    ensures k >= 64 ==> cur == fin && bits == rest
    ensures k < 64 ==> read(bits).Some? && AcCases(read, k, cur, read(bits).value.0, read(bits).value.1, fin, rest)
  {
    hide Extend, ToShort;
  }

  /** What follows a symbol. */
  ghost predicate AcCases(read: Reader, k: nat, cur: Block, rs: Byte, bits: seq<bool>, fin: Block, rest: seq<bool>) {
    var r, s := rs / 16, rs % 16;
    if s != 0 then
      |bits| >= s && k + r <= 63 &&
      var (x, bits1) := GetBits(s, bits).value;
      DecAc(read, k + r + 1, cur[k + r := ToShort(Extend(x, s))], bits1) == Some((fin, rest))
    else if r == 15 then DecAc(read, k + 16, cur, bits) == Some((fin, rest))
    else cur == fin && bits == rest
  }

  /** So far every coefficient is old or final. */
  lemma AcBetween(read: Reader, prev: Block, k: nat, cur: Block, bits: seq<bool>, fin: Block, rest: seq<bool>)
    requires DecAc(read, k, cur, bits) == Some((fin, rest)) && forall i :: k <= i < 64 ==> cur[i] == prev[i]
    ensures Retry.Between(prev, cur, fin)
  {
    hide DecAc;
    AcKeeps(read, k, cur, bits);
  }

  lemma BlocksNeed(s: Layout, T: Tables, bits: seq<bool>, last: seq<int>, mcu: Mcu, b: nat)
    requires TablesFor(s, T) && |last| == |s.comps| && |mcu| == |s.membership| && DecBlocks(s, T, bits, last, mcu, b).Some?
    ensures b >= |mcu| ==> DecBlocks(s, T, bits, last, mcu, b) == Some((bits, last, mcu))
    ensures b < |mcu| ==> DecBlock(T, DcId(s, b), AcId(s, b), last[s.membership[b]], mcu[b], bits).Some?
    ensures b < |mcu| ==>
      var (v, blk, bits1) := DecBlock(T, DcId(s, b), AcId(s, b), last[s.membership[b]], mcu[b], bits).value;
      DecBlocks(s, T, bits, last, mcu, b) == DecBlocks(s, T, bits1, last[s.membership[b] := v], mcu[b := blk], b + 1) &&
      DecBlocks(s, T, bits, last, mcu, b).value.2[b] == blk
  {
    hide DecBlock;
    if b < |mcu| {
      var (v, blk, bits1) := DecBlock(T, DcId(s, b), AcId(s, b), last[s.membership[b]], mcu[b], bits).value;
      BlocksKeep(s, T, bits1, last[s.membership[b] := v], mcu[b := blk], b + 1);
    }
  }

  class HuffDecoder {
    const layout: Layout
    const ri: nat
    const tables: map<TableId, DecTable>
    ghost const T: Tables
    const reader: BitReader
    var lastDc: seq<int>
    var restartsToGo: nat
    var nextRestartNum: nat
    var discardedBytes: nat

    /** start_pass_huff_decoder */
    constructor (layout: Layout, ri: nat, tables: map<TableId, DecTable>, ghost T: Tables, reader: BitReader)
      ensures this.layout == layout && this.ri == ri && this.tables == tables && this.T == T && this.reader == reader
      ensures lastDc == Zeros(layout) && restartsToGo == ri && nextRestartNum == 0 && discardedBytes == 0
    {
      this.layout, this.ri, this.tables, this.T, this.reader := layout, ri, tables, T, reader;
      lastDc, restartsToGo, nextRestartNum, discardedBytes := Zeros(layout), ri, 0, 0;
    }

    ghost predicate Shape() {
      TablesFor(layout, T) && TablesRead(tables, T) && forall id :: id in T && id.Dc? ==> SymbolsFit(tables[id].pub, 15)
    }

    /** HUFF_DECODE with the table of the given number. */
    method Symbol(w: Working, id: TableId) returns (ok: bool, s: Byte, w1: Working)
      requires Fits(w) && id in T && TablesRead(tables, T) && T[id].read(reader.View(w).bits).Some?
      modifies reader`unreadMarker, reader`insufficientData
      ensures !ok ==> reader.unreadMarker == old(reader.unreadMarker) && reader.insufficientData == old(reader.insufficientData)
      ensures !ok ==> !old(reader.Out(w)).complete
      ensures ok ==> Fits(w1) && reader.Out(w1) == Onward(old(reader.Out(w)), reader.View(w1).bits)
      ensures ok ==> T[id].read(old(reader.View(w)).bits) == Some((s, reader.View(w1).bits))
    {
      hide TableOk, Decode;
      assert ReadsLike(tables[id], T[id]);
      ok, s, w1 := reader.HuffDecode(w, tables[id]);
    }

    /** A DC difference. */
    method ReadDcDiff(w0: Working, id: TableId) returns (ok: bool, d: int, w: Working)
      requires Shape() && id in T && id.Dc? && Fits(w0) && ReadDiff(T[id].read, reader.View(w0).bits).Some?
      modifies reader`unreadMarker, reader`insufficientData
      ensures !ok ==> reader.unreadMarker == old(reader.unreadMarker) && reader.insufficientData == old(reader.insufficientData)
      ensures !ok ==> !old(reader.Out(w0)).complete
      ensures ok ==> Fits(w) && reader.Out(w) == Onward(old(reader.Out(w0)), reader.View(w).bits)
      ensures ok ==> ReadDiff(T[id].read, old(reader.View(w0)).bits) == Some((d, reader.View(w).bits))
    {
      hide Look, ViewOf, Extend, Decode, SymbolsFit;
      var s: Byte, x: nat;
      d := 0;
      assert ReadsLike(tables[id], T[id]);
      DcSymbol(tables[id].pub, reader.View(w0).bits);
      ok, s, w := Symbol(w0, id);
      if !ok { return; }
      if s != 0 {
        ok, x, w := reader.FetchBits(w, s);
        if !ok { return; }
        d := Extend(x, s);
      }
    }

    /** The AC coefficients of a block. */
    method AcCoefs(w0: Working, block: array<Coef>, id: TableId, ghost fin: Block, ghost rest: seq<bool>) returns (ok: bool, w: Working)
      requires Shape() && id in T && block.Length == 64 && Fits(w0)
      requires DecAc(T[id].read, 1, block[..], reader.View(w0).bits) == Some((fin, rest))
      modifies block, reader`unreadMarker, reader`insufficientData
      ensures !ok ==> reader.unreadMarker == old(reader.unreadMarker) && reader.insufficientData == old(reader.insufficientData)
      ensures !ok ==> !old(reader.Out(w0)).complete && Retry.Between(old(block[..]), block[..], fin)
      ensures ok ==> Fits(w) && reader.Out(w) == Onward(old(reader.Out(w0)), rest) && block[..] == fin
    {
      hide DecAc, TablesRead, Extend, ToShort, Pow2, Look, ViewOf, Retry.Between, SymbolsFit;
      ghost var prev := block[..];
      ok, w := true, w0;
      var k: nat := 1;
      while k < 64
        invariant Fits(w) && reader.Out(w) == Onward(old(reader.Out(w0)), reader.View(w).bits)
        invariant DecAc(T[id].read, k, block[..], reader.View(w).bits) == Some((fin, rest))
        invariant forall i :: k <= i < 64 ==> block[i] == prev[i]
        decreases 64 - k
      {
        AcNeeds(T[id].read, k, block[..], reader.View(w).bits, fin, rest);
        AcBetween(T[id].read, prev, k, block[..], reader.View(w).bits, fin, rest);
        var rs: Byte;
        ok, rs, w := Symbol(w, id);
        if !ok { return; }
        var r, s := rs / 16, rs % 16;
        ghost var bits := reader.View(w).bits;
        ghost var cur: Block := block[..];
        assert AcCases(T[id].read, k, cur, rs, bits, fin, rest);
        if s != 0 {
          k := k + r;
          var x: nat;
          ok, x, w := reader.FetchBits(w, s);
          if !ok { return; }
          block[k] := ToShort(Extend(x, s));
          assert block[..] == cur[k := ToShort(Extend(x, s))];
        } else {
          if r != 15 {
            return;
          }
          k := k + 15;
        }
        k := k + 1;
      }
      AcNeeds(T[id].read, k, block[..], reader.View(w).bits, fin, rest);
    }

    /** One block of decode_mcu: its DC value and its AC coefficients. */
    method OneBlock(w0: Working, block: array<Coef>, dc: TableId, ac: TableId, last: int, ghost fin: Block, ghost rest: seq<bool>, ghost v1: int)
        returns (ok: bool, v: int, w: Working)
      requires Shape() && dc in T && dc.Dc? && ac in T && block.Length == 64 && Fits(w0)
      requires DecBlock(T, dc, ac, last, block[..], reader.View(w0).bits) == Some((v1, fin, rest))
      modifies block, reader`unreadMarker, reader`insufficientData
      ensures !ok ==> reader.unreadMarker == old(reader.unreadMarker) && reader.insufficientData == old(reader.insufficientData)
      ensures !ok ==> !old(reader.Out(w0)).complete && Retry.Between(old(block[..]), block[..], fin)
      ensures ok ==> Fits(w) && reader.Out(w) == Onward(old(reader.Out(w0)), rest) && block[..] == fin && v == v1
    {
      hide DecAc, ReadDiff, TablesRead, ToShort, Look, ViewOf, SymbolsFit;
      ghost var prev: Block := block[..];
      ok, v, w := ReadDcDiff(w0, dc);
      if !ok { return; }
      v := v + last;
      block[0] := ToShort(v);
      ghost var start: Block := block[..];
      assert start == prev[0 := ToShort(v)];
      AcKeeps(T[ac].read, 1, start, reader.View(w).bits);
      ok, w := AcCoefs(w, block, ac, fin, rest);
    }

    /** One block of an MCU. */
    method NthBlock(w0: Working, blocks: seq<array<Coef>>, b: nat, last: int, ghost v1: int, ghost blk: Block, ghost rest: seq<bool>)
        returns (ok: bool, v: int, w: Working)
      requires Shape() && Blocks64(blocks) && Distinct(blocks) && b < |blocks| == |layout.membership| && Fits(w0)
      requires DecBlock(T, DcId(layout, b), AcId(layout, b), last, Contents(blocks)[b], reader.View(w0).bits) == Some((v1, blk, rest))
      modifies blocks[b], reader`unreadMarker, reader`insufficientData
      ensures !ok ==> reader.unreadMarker == old(reader.unreadMarker) && reader.insufficientData == old(reader.insufficientData)
      ensures !ok ==> !old(reader.Out(w0)).complete
      ensures !ok ==>
        Contents(blocks) == old(Contents(blocks))[b := Contents(blocks)[b]] &&
        Retry.Between(old(Contents(blocks))[b], Contents(blocks)[b], blk)
      ensures ok ==> Fits(w) && reader.Out(w) == Onward(old(reader.Out(w0)), rest) && v == v1
      ensures ok ==> Contents(blocks) == old(Contents(blocks))[b := blk]
    {
      hide DecBlock, TablesRead, Look, ViewOf, SymbolsFit, Retry.Between;
      ghost var before := Contents(blocks);
      ok, v, w := OneBlock(w0, blocks[b], DcId(layout, b), AcId(layout, b), last, blk, rest, v1);
      forall i | 0 <= i < |blocks| && i != b ensures blocks[i][..] == before[i] {
        assert blocks[i] != blocks[b];
      }
    }

    /** All blocks of an MCU, on a copy of the predictions. */
    method AllBlocks(w0: Working, blocks: seq<array<Coef>>, ghost rest: seq<bool>, ghost last1: seq<int>, ghost fin: Mcu)
        returns (ok: bool, last: seq<int>, w: Working)
      requires Shape() && Fits(w0) && |lastDc| == |layout.comps|
      requires Blocks64(blocks) && Distinct(blocks) && |blocks| == |layout.membership|
      requires DecBlocks(layout, T, reader.View(w0).bits, lastDc, Contents(blocks), 0) == Some((rest, last1, fin))
      modifies blocks, reader`unreadMarker, reader`insufficientData
      ensures !ok ==> reader.unreadMarker == old(reader.unreadMarker) && reader.insufficientData == old(reader.insufficientData)
      ensures !ok ==> !old(reader.Out(w0)).complete && McuBetween(old(Contents(blocks)), Contents(blocks), fin)
      ensures ok ==> Fits(w) && reader.Out(w) == Onward(old(reader.Out(w0)), rest) && last == last1 && Contents(blocks) == fin
    {
      hide TablesRead, DecBlocks, DecBlock, Look, ViewOf, SymbolsFit, Retry.Between;
      ghost var prev := Contents(blocks);
      ok, last, w := true, lastDc, w0;
      AllOld(prev, fin);
      var blkn := 0;
      while blkn < |blocks|
        invariant 0 <= blkn <= |blocks| && Fits(w) && |last| == |layout.comps|
        invariant reader.Out(w) == Onward(old(reader.Out(w0)), reader.View(w).bits)
        invariant McuBetween(prev, Contents(blocks), fin)
        invariant forall i :: blkn <= i < |blocks| ==> Contents(blocks)[i] == prev[i]
        invariant DecBlocks(layout, T, reader.View(w).bits, last, Contents(blocks), blkn) == Some((rest, last1, fin))
      {
        var ci := layout.membership[blkn];
        ghost var cur := Contents(blocks);
        BlocksNeed(layout, T, reader.View(w).bits, last, cur, blkn);
        ghost var r := DecBlock(T, DcId(layout, blkn), AcId(layout, blkn), last[ci], cur[blkn], reader.View(w).bits).value;
        var v: int;
        ok, v, w := NthBlock(w, blocks, blkn, last[ci], r.0, r.1, r.2);
        if !ok { return; }
        NowFinal(prev[blkn], r.1);
        last := last[ci := v];
        blkn := blkn + 1;
      }
      BlocksNeed(layout, T, reader.View(w).bits, last, Contents(blocks), blkn);
    }

    /** The decoder's state as the scan model sees it. */
    ghost function State(): Decoder
      reads this, reader
    {
      Decoder(reader.View(reader.Load()), lastDc, restartsToGo, nextRestartNum, discardedBytes)
    }

    /** What holds between MCUs: the data never proves too short, and none of it is
        discarded. */
    ghost predicate Valid()
      reads this, reader
    {
      Shape() && Fits(reader.Load()) && |lastDc| == |layout.comps| && nextRestartNum < 8 &&
      !reader.insufficientData && discardedBytes == 0
    }

    /** If a restart is due, only padding is left before its marker. */
    ghost predicate AtRestart()
      reads this, reader
    {
      ri > 0 && restartsToGo == 0 ==> |State().ahead.bits| < 8
    }

    /** The marker that ends the current segment has been delivered. */
    ghost predicate Complete()
      reads reader
    {
      reader.Out(reader.Load()).complete
    }

    /** process_restart, when only padding is left before the expected marker. */
    method ProcessRestart() returns (ok: bool)
      requires Valid() && |State().ahead.bits| < 8 && State().ahead.marker == Stream.Marker(nextRestartNum)
      modifies this, reader
      ensures Valid() && reader.coming == old(reader.coming)
      ensures ok ==> SequentialScan.ProcessRestart(layout, ri, old(State())) == Some(State())
      ensures !ok ==> State() == old(State()).(ahead := old(State()).ahead.(bits := [])) && !Complete()
    {
      hide Look, TablesRead, ToBits, TablesFor, Stream.Marker, SymbolsFit;
      LookWhole(reader.Rest());
      MarkerIs(nextRestartNum);
      discardedBytes := discardedBytes + reader.bits / 8;
      reader.bits := 0;
      if reader.unreadMarker == 0 {
        ok, discardedBytes := reader.NextMarker(discardedBytes);
        if !ok { return; }
      }
      if reader.unreadMarker == Stream.RST0 + nextRestartNum {
        reader.unreadMarker := 0;
      }
      nextRestartNum := (nextRestartNum + 1) % 8;
      lastDc := Zeros(layout);
      restartsToGo := ri;
      if reader.unreadMarker == 0 {
        reader.insufficientData := false;
      }
      ok := true;
      NothingHeld(reader.Load(), reader.coming);
    }

    /** decode_mcu. With well-formed data ahead the MCU is read as the scan model says,
        or it has to be read again once more data is there; then nothing is lost, even
        though some coefficients may have been stored. It never gives up when all of
        the segment has been delivered. */
    method DecodeMcu(blocks: seq<array<Coef>>) returns (ok: bool)
      requires Valid() && AtRestart() && Blocks64(blocks) && Distinct(blocks) && |blocks| == |layout.membership|
      requires SequentialScan.DecodeMcu(layout, T, ri, State(), Contents(blocks)).Some?
      modifies this, reader, blocks
      ensures Valid() && reader.coming == old(reader.coming)
      ensures ok ==> SequentialScan.DecodeMcu(layout, T, ri, old(State()), old(Contents(blocks))) == Some((State(), Contents(blocks)))
      ensures !ok ==> AtRestart() && !Complete()
      ensures !ok ==>
        SequentialScan.DecodeMcu(layout, T, ri, State(), Contents(blocks))
          == old(SequentialScan.DecodeMcu(layout, T, ri, State(), Contents(blocks)))
    {
      hide Look, TablesRead, ToBits, DecBlocks, SymbolsFit, ViewOf, Stream.Marker, McuBetween;
      ghost var start := Contents(blocks);
      if ri > 0 && restartsToGo == 0 {
        ok := ProcessRestart();
        if !ok { return; }
      }
      ghost var bits, last0 := State().ahead.bits, lastDc;
      ghost var (rest, last1, fin) := DecBlocks(layout, T, bits, lastDc, start, 0).value;
      var last: seq<int>, w: Working;
      ok, last, w := AllBlocks(reader.Load(), blocks, rest, last1, fin);
      if ok {
        reader.Save(w);
        lastDc := last;
        restartsToGo := (restartsToGo - 1) % 0x1_0000_0000;
      } else {
        McuRetry(layout, T, bits, last0, start, Contents(blocks), 0, rest, last1, fin);
      }
    }
  }

  lemma AllOld(prev: Mcu, fin: Mcu)
    requires |prev| == |fin|
    ensures McuBetween(prev, prev, fin)
  {
  }

  lemma NowFinal(prev: Block, fin: Block)
    ensures Retry.Between(prev, fin, fin)
  {
  }
}
