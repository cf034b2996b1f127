/** The progressive Huffman decoder (jdphuff.c): one object that reads a scan MCU by
    MCU from a source that may run dry at any point. */
module ProgressiveDecoder {
  import opened Bits
  import opened Wrappers
  import opened Tokens
  import opened ByteStream
  import opened HuffmanCode
  import opened AcCoding
  import opened Coefficients
  import opened DcCoding
  import opened ScanCoding
  import opened DerivedTables
  import opened DecoderTables
  import opened BitReading
  import opened Retry
  import Stream = ScanStream

  /** The derived tables read the codings. */
  ghost predicate TablesRead(tables: map<TableId, DecTable>, T: Tables) {
    forall id :: id in T ==> id in tables && TableOk(tables[id]) && ReadsLike(tables[id], T[id])
  }

  ghost predicate ReadsLike(d: DecTable, c: Coding)
    requires TableOk(d)
  {
    forall bits :: c.read(bits) == Decode(d.pub, bits)
  }

  // ----- first AC scans -----

  /** The AC decoder is about to read coefficient k: from here it gets to d. */
  ghost predicate FirstAlong(p: Band, T: Tables, d: Decoded, prev: Block, k: nat, cur: Block, bits: seq<bool>)
    requires p.Se <= 63 && p.id in T
  {
    DecFirst(p, T[p.id].read, k, cur, bits) == Some(d) && forall i :: k <= i < 64 ==> cur[i] == prev[i]
  }

  lemma FirstAlongBetween(p: Band, T: Tables, d: Decoded, prev: Block, k: nat, cur: Block, bits: seq<bool>)
    requires p.Se <= 63 && p.id in T && FirstAlong(p, T, d, prev, k, cur, bits)
    ensures Between(prev, cur, d.blk)
  {
    hide DecFirst;
    FirstKeeps(p, T[p.id].read, k, cur, bits);
  }

  lemma FirstNeeds(p: Band, T: Tables, d: Decoded, prev: Block, k: nat, cur: Block, bits: seq<bool>)
    requires p.Se <= 63 && p.id in T && FirstAlong(p, T, d, prev, k, cur, bits)
    ensures k > p.Se ==> d == Decoded(cur, 0, bits)
    ensures k <= p.Se ==> T[p.id].read(bits).Some?
    ensures k <= p.Se ==>
      var (rs, bits1) := T[p.id].read(bits).value;
      FirstCases(p, T, d, prev, k, cur, rs, bits1)
  {
    hide Extend, ToShort;
  }

  /** What follows a symbol in a first scan. */
  ghost predicate FirstCases(p: Band, T: Tables, d: Decoded, prev: Block, k: nat, cur: Block, rs: Byte, bits: seq<bool>)
    requires k <= p.Se <= 63 && p.id in T
  {
    var r, s := rs / 16, rs % 16;
    if s != 0 then
      |bits| >= s && k + r <= p.Se &&
      var (x, bits1) := GetBits(s, bits).value;
      FirstAlong(p, T, d, prev, k + r + 1, cur[k + r := ToShort(Extend(x, s) * Pow2(p.Al))], bits1)
    else if r == 15 then FirstAlong(p, T, d, prev, k + 16, cur, bits)
    else |bits| >= r && var (x, bits1) := GetBits(r, bits).value; d == Decoded(cur, Pow2(r) + x - 1, bits1)
  }

  // ----- DC scans -----

  /** The coefficients of an MCU's blocks. */
  ghost function Contents(blocks: seq<array<Coef>>): (m: Mcu)
    requires Blocks64(blocks)
    reads blocks
    ensures |m| == |blocks| && forall i :: 0 <= i < |m| ==> m[i] == blocks[i][..]
  {
    seq(|blocks|, i requires 0 <= i < |blocks| reads blocks => blocks[i][..])
  }

  predicate Blocks64(blocks: seq<array<Coef>>) {
    forall i :: 0 <= i < |blocks| ==> blocks[i].Length == 64
  }

  predicate Distinct(blocks: seq<array<Coef>>) {
    forall i, j :: 0 <= i < j < |blocks| ==> blocks[i] != blocks[j]
  }

  /** Sets one DC value. */
  method StoreDc(blocks: seq<array<Coef>>, b: nat, v: int)
    requires Blocks64(blocks) && Distinct(blocks) && b < |blocks|
    modifies blocks
    ensures Contents(blocks) == old(Contents(blocks))[b := old(Contents(blocks))[b][0 := v]]
  {
    ghost var before := Contents(blocks);
    blocks[b][0] := v;
    assert blocks[b][..] == before[b][0 := v];
    forall i | 0 <= i < |blocks| && i != b ensures blocks[i][..] == before[i] {
      assert blocks[i] != blocks[b];
    }
  }

  lemma {:induction false} SymbolBound(t: HuffTbl, code: nat, l: nat, bits: seq<bool>, max: nat)
    requires Shaped(t) && NumSymbols(t) <= 256 && SymbolsFit(t, max) && 1 <= l <= 17 && code >= FirstCode(t, l)
    ensures var r := DecodeFrom(t, code, l, bits);
            r.Some? ==> r.value.0 <= max
    decreases 17 - l
  {
    hide FirstIdx, FirstCode;
    if l <= 16 {
      IdxStep(t, l);
      if code > MaxCode(t, l) && bits != [] {
        SymbolBound(t, 2 * code + (if bits[0] then 1 else 0), l + 1, bits[1..], max);
      }
    }
  }

  lemma DcSymbol(t: HuffTbl, bits: seq<bool>)
    requires Shaped(t) && NumSymbols(t) <= 256 && SymbolsFit(t, 15)
    ensures Decode(t, bits).Some? ==> Decode(t, bits).value.0 <= 15
  {
    hide DecodeFrom, FirstIdx;
    Start(t);
    if bits != [] {
      SymbolBound(t, if bits[0] then 1 else 0, 1, bits[1..], 15);
    }
  }

  lemma DcFirstNeeds(s: Scan, T: Tables, bits: seq<bool>, last: seq<int>, mcu: Mcu, b: nat)
    requires ScanOk(s) && s.Ss == 0 && s.Ah == 0 && TablesFor(s, T) && |last| == |s.comps| && |mcu| == |s.membership|
    requires DecDcFirst(s, T, bits, last, mcu, b).Some?
    ensures b >= |mcu| ==> DecDcFirst(s, T, bits, last, mcu, b) == Some((bits, last, mcu))
    ensures b < |mcu| ==> ReadDiff(T[DcTable(s, b)].read, bits).Some?
    ensures b < |mcu| ==>
      var (d, bits1) := ReadDiff(T[DcTable(s, b)].read, bits).value;
      var v := last[s.membership[b]] + d;
      DecDcFirst(s, T, bits, last, mcu, b) ==
      DecDcFirst(s, T, bits1, last[s.membership[b] := v], mcu[b := mcu[b][0 := ToShort(v * Pow2(s.Al))]], b + 1)
  {
    hide ReadDiff, ToShort, Pow2;
  }

  // ----- AC refinement scans -----

  /** A given-up refinement: zero coefficients of prev are zero or listed in news,
      others have their old or their final value. */
  ghost predicate Partial(prev: Block, cur: Block, fin: Block, news: seq<nat>) {
    (forall i :: 0 <= i < 64 ==> if prev[i] == 0 then cur[i] == 0 || i in news else cur[i] == prev[i] || cur[i] == fin[i]) &&
    NewOnes(prev, news)
  }

  /** The positions of newly nonzero coefficients. */
  ghost predicate NewOnes(prev: Block, news: seq<nat>) {
    forall j :: 0 <= j < |news| ==> news[j] < 64 && prev[news[j]] == 0
  }

  /** Before coefficient k of a refinement: cur is final up to there, and its newly
      nonzero coefficients are listed. */
  ghost predicate Settled(p: Band, prev: Block, k: nat, cur: Block, fin: Block, news: seq<nat>) {
    NewOnes(prev, news) && Shorts(cur) && |news| + p.Ss <= k &&
    (forall i :: k <= i < 64 ==> cur[i] == prev[i]) &&
    (forall i :: 0 <= i < k && i < 64 ==> cur[i] == fin[i] && (prev[i] == 0 ==> cur[i] == 0 || i in news))
  }

  lemma SettledPartial(p: Band, prev: Block, k: nat, cur: Block, later: Block, fin: Block, news: seq<nat>)
    requires Settled(p, prev, k, cur, fin, news) && Corrected(cur, later, fin)
    ensures Partial(prev, later, fin, news)
  {
  }

  class PhuffDecoder {
    const scan: Scan
    const ri: nat
    const tables: map<TableId, DecTable>
    ghost const T: Tables
    const reader: BitReader
    var eobrun: nat
    var lastDc: seq<int>
    var restartsToGo: nat
    var nextRestartNum: nat
    var discardedBytes: nat

    constructor (scan: Scan, ri: nat, tables: map<TableId, DecTable>, ghost T: Tables, reader: BitReader)
      requires ScanOk(scan)
      ensures this.scan == scan && this.ri == ri && this.tables == tables && this.T == T && this.reader == reader
      ensures eobrun == 0 && lastDc == seq(|scan.comps|, _ => 0)
      ensures restartsToGo == ri && nextRestartNum == 0 && discardedBytes == 0
    {
      this.scan, this.ri, this.tables, this.T, this.reader := scan, ri, tables, T, reader;
      eobrun, lastDc, restartsToGo, nextRestartNum, discardedBytes := 0, seq(|scan.comps|, _ => 0), ri, 0, 0;
    }

    ghost predicate Shape() {
      ScanOk(scan) && TablesFor(scan, T) && TablesRead(tables, T)
    }

    /** start_pass builds DC tables with symbols up to 15 only. */
    ghost predicate DcTablesOk()
      requires Shape()
    {
      forall id :: id in T && id.Dc? ==> SymbolsFit(tables[id].pub, 15)
    }

    /** HUFF_DECODE with the table of the given number. */
    method Symbol(w: Working, id: TableId) returns (ok: bool, s: Byte, w1: Working)
      requires Fits(w) && id in T && TablesRead(tables, T) && T[id].read(reader.View(w).bits).Some?
      modifies reader`unreadMarker, reader`insufficientData
      ensures !ok ==> reader.unreadMarker == old(reader.unreadMarker) && reader.insufficientData == old(reader.insufficientData)
      ensures !ok ==> !old(reader.Out(w)).complete
      ensures ok ==> Fits(w1) && reader.Out(w1) == Onward(old(reader.Out(w)), reader.View(w1).bits)
      ensures ok ==> T[id].read(old(reader.View(w)).bits) == Some((s, reader.View(w1).bits))
    {
      hide TableOk, Decode;
      assert ReadsLike(tables[id], T[id]);
      ok, s, w1 := reader.HuffDecode(w, tables[id]);
    }

    /** The coefficients of decode_mcu_AC_first outside an end-of-band run. */
    method FirstCoefs(w0: Working, block: array<Coef>, ghost d: Decoded) returns (ok: bool, run: nat, w: Working)
      requires Shape() && scan.Ss > 0 && block.Length == 64 && Fits(w0)
      requires DecFirst(BandOf(scan), T[BandOf(scan).id].read, scan.Ss, block[..], reader.View(w0).bits) == Some(d)
      modifies block, reader`unreadMarker, reader`insufficientData
      ensures !ok ==> reader.unreadMarker == old(reader.unreadMarker) && reader.insufficientData == old(reader.insufficientData)
      ensures !ok ==> !old(reader.Out(w0)).complete && Between(old(block[..]), block[..], d.blk)
      ensures ok ==> Fits(w) && reader.Out(w) == Onward(old(reader.Out(w0)), d.bits) && block[..] == d.blk && run == d.eobrun
    {
      hide DecFirst, TablesRead, Extend, ToShort, Pow2, Look, ViewOf;
      var p := BandOf(scan);
      ghost var prev := block[..];
      ok, run, w := true, 0, w0;
      var k: nat := p.Ss;
      while k <= p.Se
        invariant Fits(w) && reader.Out(w) == Onward(old(reader.Out(w0)), reader.View(w).bits)
        invariant FirstAlong(p, T, d, prev, k, block[..], reader.View(w).bits)
        decreases 64 - k
      {
        FirstNeeds(p, T, d, prev, k, block[..], reader.View(w).bits);
        var rs: Byte;
        FirstAlongBetween(p, T, d, prev, k, block[..], reader.View(w).bits);
        ok, rs, w := Symbol(w, p.id);
        if !ok { return; }
        var r, s := rs / 16, rs % 16;
        ghost var bits := reader.View(w).bits;
        ghost var cur: Block := block[..];
        assert FirstCases(p, T, d, prev, k, cur, rs, bits);
        var x: nat;
        if s != 0 {
          k := k + r;
          ok, x, w := reader.FetchBits(w, s);
          if !ok { return; }
          block[k] := ToShort(Extend(x, s) * Pow2(p.Al));
          assert block[..] == cur[k := ToShort(Extend(x, s) * Pow2(p.Al))];
        } else if r == 15 {
          k := k + 15;
        } else {
          run := Pow2(r);
          if r != 0 {
            ok, x, w := reader.FetchBits(w, r);
            if !ok { return; }
            run := run + x;
          }
          run := run - 1;
          return;
        }
        k := k + 1;
      }
      FirstNeeds(p, T, d, prev, k, block[..], reader.View(w).bits);
    }

    /** Reads a correction bit for the nonzero coefficient k and applies it. */
    method CorrectionBit(w0: Working, block: array<Coef>, k: nat) returns (ok: bool, w: Working)
      requires block.Length == 64 && k < 64 && Fits(w0) && |reader.View(w0).bits| >= 1 && Short(block[k])
      modifies block, reader`unreadMarker, reader`insufficientData
      ensures !ok ==> reader.unreadMarker == old(reader.unreadMarker) && reader.insufficientData == old(reader.insufficientData)
      ensures !ok ==> !old(reader.Out(w0)).complete && block[..] == old(block[..])
      ensures ok ==> Fits(w) && reader.Out(w) == Onward(old(reader.Out(w0)), old(reader.View(w0)).bits[1..])
      ensures ok ==> block[..] == old(block[..])[k := ToShort(Correct(old(block[k]), scan.Al, old(reader.View(w0)).bits[0]))]
    {
      hide Look, ViewOf, Shr, Pow2;
      var x: nat;
      ghost var bits := reader.View(w0).bits;
      ok, x, w := reader.FetchBits(w0, 1);
      if !ok { return; }
      FirstBit(bits);
      ToShortId(block[k]);
      var p1 := Pow2(scan.Al);
      if x != 0 {
        if Shr(block[k], scan.Al) % 2 == 0 {
          if block[k] >= 0 {
            block[k] := ToShort(block[k] + p1);
          } else {
            block[k] := ToShort(block[k] - p1);
          }
        }
      }
    }

    /** Advances over nonzero coefficients, correcting them, and r zero ones. */
    method SkipCoefs(w0: Working, block: array<Coef>, k0: nat, r0: nat, ghost blk1: Block, ghost rest: seq<bool>, ghost end: nat)
        returns (ok: bool, k: nat, w: Working)
      requires Shape() && block.Length == 64 && Fits(w0) && k0 <= scan.Se <= 63 && Shorts(block[..])
      requires Skip(BandOf(scan), k0, r0, block[..], reader.View(w0).bits) == Some((end, blk1, rest))
      modifies block, reader`unreadMarker, reader`insufficientData
      ensures !ok ==> reader.unreadMarker == old(reader.unreadMarker) && reader.insufficientData == old(reader.insufficientData)
      ensures !ok ==> !old(reader.Out(w0)).complete && Corrected(old(block[..]), block[..], blk1)
      ensures ok ==> Fits(w) && reader.Out(w) == Onward(old(reader.Out(w0)), rest) && k == end && block[..] == blk1 && Shorts(blk1)
    {
      hide Skip, Look, ViewOf, Correct, ToShort;
      var p := BandOf(scan);
      ghost var start := block[..];
      ok, k, w := true, k0, w0;
      var r: int := r0;
      var going := true;
      SkipKeeps(p, k0, r0, block[..], reader.View(w0).bits);
      while going
        invariant Fits(w) && reader.Out(w) == Onward(old(reader.Out(w0)), reader.View(w).bits) && Shorts(block[..])
        invariant going ==> k0 <= k <= p.Se && r >= 0 && Skip(p, k, r, block[..], reader.View(w).bits) == Some((end, blk1, rest))
        invariant forall i :: k <= i < 64 ==> block[i] == start[i]
        invariant Corrected(start, block[..], blk1)
        invariant !going ==> k == end && block[..] == blk1 && reader.View(w).bits == rest
        decreases if going then 65 - k else 0
      {
        ghost var cur, bits := block[..], reader.View(w).bits;
        SkipStep(p, k, r, cur, bits);
        SkipKeeps(p, k, r, cur, bits);
        if block[k] != 0 {
          ok, w := CorrectionBit(w, block, k);
          if !ok { return; }
          CorrectShort(cur[k], p.Al, bits[0]);
          SkipFinal(p, k, r, cur, bits);
        } else {
          r := r - 1;
          if r < 0 {
            break;
          }
        }
        k := k + 1;
        going := k <= p.Se;
      }
    }

    /** Corrects the nonzero coefficients that are left after an end-of-band. */
    method TailCoefs(w0: Working, block: array<Coef>, k0: nat, ghost fin: Block, ghost rest: seq<bool>) returns (ok: bool, w: Working)
      requires Shape() && scan.Ss > 0 && block.Length == 64 && Fits(w0) && Shorts(block[..])
      requires CorrectTail(BandOf(scan), k0, block[..], reader.View(w0).bits) == Some((fin, rest))
      modifies block, reader`unreadMarker, reader`insufficientData
      ensures !ok ==> reader.unreadMarker == old(reader.unreadMarker) && reader.insufficientData == old(reader.insufficientData)
      ensures !ok ==> !old(reader.Out(w0)).complete && Corrected(old(block[..]), block[..], fin)
      ensures ok ==> Fits(w) && reader.Out(w) == Onward(old(reader.Out(w0)), rest) && block[..] == fin
    {
      hide CorrectTail, Look, ViewOf, Correct, ToShort;
      var p := BandOf(scan);
      ghost var start := block[..];
      ok, w := true, w0;
      var k := k0;
      while k <= p.Se
        invariant Fits(w) && reader.Out(w) == Onward(old(reader.Out(w0)), reader.View(w).bits) && Shorts(block[..])
        invariant CorrectTail(p, k, block[..], reader.View(w).bits) == Some((fin, rest))
        invariant forall i :: k <= i < 64 ==> block[i] == start[i]
        invariant Corrected(start, block[..], fin)
        decreases 64 - k
      {
        ghost var cur, bits := block[..], reader.View(w).bits;
        TailStep(p, k, cur, bits);
        if block[k] != 0 {
          ok, w := CorrectionBit(w, block, k);
          if !ok { return; }
          CorrectShort(cur[k], p.Al, bits[0]);
          TailKeeps(p, k + 1, block[..], bits[1..]);
        }
        k := k + 1;
      }
      TailStep(p, k, block[..], reader.View(w).bits);
    }

    /** undoit: re-zeroes the coefficients that were made nonzero. */
    method Undo(block: array<Coef>, newnz: array<nat>, num0: nat, ghost prev: Block, ghost fin: Block)
      requires block.Length == 64 && newnz.Length == 64 && num0 <= 64
      requires Partial(prev, block[..], fin, newnz[..num0])
      modifies block
      ensures Corrected(prev, block[..], fin)
    {
      var num := num0;
      while num > 0
        invariant 0 <= num <= num0 && Partial(prev, block[..], fin, newnz[..num])
      {
        num := num - 1;
        assert newnz[..num + 1][num] == newnz[num];
        ghost var cur := block[..];
        block[newnz[num]] := 0;
        UndoOne(prev, cur, fin, newnz[..num + 1], num);
        assert newnz[..num + 1][..num] == newnz[..num];
        assert block[..] == cur[newnz[num] := 0];
      }
    }

    /** One symbol of decode_mcu_AC_refine, with the coefficients it skips. An
        end-of-band run, if one starts here, is returned in run. */
    method RefineSymbol(w0: Working, block: array<Coef>, k0: nat, newnz: array<nat>, num0: nat, ghost prev: Block, ghost d: Decoded)
        returns (ok: bool, k: nat, run: nat, num: nat, w: Working)
      requires Shape() && scan.Ss > 0 && block.Length == 64 && newnz.Length == 64 && num0 <= 64 && Fits(w0) && k0 <= scan.Se
      requires Settled(BandOf(scan), prev, k0, block[..], d.blk, newnz[..num0])
      requires DecRefine(BandOf(scan), T[BandOf(scan).id].read, k0, block[..], reader.View(w0).bits) == Some(d)
      modifies block, newnz, reader`unreadMarker, reader`insufficientData
      ensures num <= 64
      ensures !ok ==> reader.unreadMarker == old(reader.unreadMarker) && reader.insufficientData == old(reader.insufficientData)
      ensures !ok ==> !old(reader.Out(w0)).complete && Partial(prev, block[..], d.blk, newnz[..num])
      ensures ok ==> Fits(w) && reader.Out(w) == Onward(old(reader.Out(w0)), reader.View(w).bits)
      ensures ok ==> Settled(BandOf(scan), prev, k, block[..], d.blk, newnz[..num])
      ensures ok && run == 0 ==>
        k > k0 && DecRefine(BandOf(scan), T[BandOf(scan).id].read, k, block[..], reader.View(w).bits) == Some(d)
      ensures ok && run > 0 ==>
        k == k0 && d.eobrun == run - 1 &&
        CorrectTail(BandOf(scan), k, block[..], reader.View(w).bits) == Some((d.blk, d.bits))
    {
      hide DecRefine, Skip, CorrectTail, TablesRead, ToShort, NewCoef, Pow2, Look, ViewOf, Settled, Partial, AfterSkip;
      var p := BandOf(scan);
      ghost var start := block[..];
      k, run, num, w := k0, 0, num0, w0;
      RefineNeeds(p, T, d, k, start, reader.View(w).bits);
      StillPartial(p, prev, k, start, d.blk, newnz[..num]);
      var rs: Byte;
      ok, rs, w := Symbol(w, p.id);
      if !ok { return; }
      ghost var bits := reader.View(w).bits;
      var r, s := rs / 16, rs % 16;
      var x: nat;
      var positive := false;
      if s != 0 {
        ok, x, w := reader.FetchBits(w, 1);
        if !ok { return; }
        FirstBit(bits);
        positive := x != 0;
      } else if r != 15 {
        run := Pow2(r);
        if r != 0 {
          ok, x, w := reader.FetchBits(w, r);
          if !ok { return; }
          run := run + x;
        }
        return;
      }
      ghost var bits2 := reader.View(w).bits;
      ghost var end, blk1, rest := Skip(p, k, r, start, bits2).value.0, Skip(p, k, r, start, bits2).value.1, Skip(p, k, r, start, bits2).value.2;
      SettledNext(p, T, prev, k, start, r, bits2, d, newnz[..num], s != 0, positive);
      ok, k, w := SkipCoefs(w, block, k, r, blk1, rest, end);
      if !ok {
        SkippedPartial(p, prev, k0, start, block[..], end, blk1, d.blk, newnz[..num]);
        return;
      }
      if s != 0 {
        block[k] := ToShort(NewCoef(scan.Al, positive));
        newnz[num] := k;
        num := num + 1;
        assert newnz[..num] == newnz[..num - 1] + [k];
        assert block[..] == blk1[k := ToShort(NewCoef(scan.Al, positive))];
      }
      k := k + 1;
    }

    /** The block of decode_mcu_AC_first. */
    method BlockAcFirst(w0: Working, block: array<Coef>, ghost d: Decoded) returns (ok: bool, run: nat, w: Working)
      requires Shape() && scan.Ss > 0 && scan.Ah == 0 && block.Length == 64 && Fits(w0)
      requires DecAcBlock(BandOf(scan), T[BandOf(scan).id].read, eobrun, block[..], reader.View(w0).bits) == Some(d)
      modifies block, reader`unreadMarker, reader`insufficientData
      ensures !ok ==> reader.unreadMarker == old(reader.unreadMarker) && reader.insufficientData == old(reader.insufficientData)
      ensures !ok ==> !old(reader.Out(w0)).complete && Between(old(block[..]), block[..], d.blk)
      ensures ok ==> Fits(w) && reader.Out(w) == Onward(old(reader.Out(w0)), d.bits) && block[..] == d.blk && run == d.eobrun
    {
      hide DecFirst, TablesRead, Look, ViewOf;
      ok, run, w := true, eobrun, w0;
      if run > 0 {
        run := run - 1;
      } else {
        ok, run, w := FirstCoefs(w, block, d);
      }
    }

    /** The block of decode_mcu_AC_refine. */
    method BlockAcRefine(w0: Working, block: array<Coef>, ghost d: Decoded) returns (ok: bool, run: nat, w: Working)
      requires Shape() && scan.Ss > 0 && scan.Ah != 0 && block.Length == 64 && Fits(w0) && Shorts(block[..])
      requires DecAcBlock(BandOf(scan), T[BandOf(scan).id].read, eobrun, block[..], reader.View(w0).bits) == Some(d)
      modifies block, reader`unreadMarker, reader`insufficientData
      ensures !ok ==> reader.unreadMarker == old(reader.unreadMarker) && reader.insufficientData == old(reader.insufficientData)
      ensures !ok ==> !old(reader.Out(w0)).complete && Corrected(old(block[..]), block[..], d.blk)
      ensures ok ==> Fits(w) && reader.Out(w) == Onward(old(reader.Out(w0)), d.bits) && block[..] == d.blk && run == d.eobrun
    {
      hide DecRefine, CorrectTail, TablesRead, Look, ViewOf, Settled, Partial, Corrected;
      var p := BandOf(scan);
      ghost var prev := block[..];
      var newnz := new nat[64](_ => 0);
      var num: nat, k := 0, scan.Ss;
      ok, run, w := true, eobrun, w0;
      SettledStart(p, T[p.id].read, run, prev, reader.View(w).bits, d, newnz[..num]);
      if run == 0 {
        while k <= scan.Se && run == 0
          invariant num <= 64 && Fits(w) && reader.Out(w) == Onward(old(reader.Out(w0)), reader.View(w).bits)
          invariant Settled(p, prev, k, block[..], d.blk, newnz[..num])
          invariant run == 0 ==> DecRefine(p, T[p.id].read, k, block[..], reader.View(w).bits) == Some(d)
          invariant run > 0 ==> d.eobrun == run - 1 && CorrectTail(p, k, block[..], reader.View(w).bits) == Some((d.blk, d.bits))
          decreases 64 - k, if run == 0 then 1 else 0
        {
          ok, k, run, num, w := RefineSymbol(w, block, k, newnz, num, prev, d);
          if !ok {
            Undo(block, newnz, num, prev, d.blk);
            return;
          }
        }
        if run == 0 {
          RefineNeeds(p, T, d, k, block[..], reader.View(w).bits);
        }
      }
      if run > 0 {
        ghost var cur := block[..];
        StillPartial(p, prev, k, cur, d.blk, newnz[..num]);
        ok, w := TailCoefs(w, block, k, d.blk, d.bits);
        if !ok {
          SettledPartial(p, prev, k, cur, block[..], d.blk, newnz[..num]);
          Undo(block, newnz, num, prev, d.blk);
          return;
        }
        run := run - 1;
      }
    }

    /** A DC difference. */
    method ReadDcDiff(w0: Working, id: TableId) returns (ok: bool, d: int, w: Working)
      requires Shape() && DcTablesOk() && id in T && id.Dc? && Fits(w0) && ReadDiff(T[id].read, reader.View(w0).bits).Some?
      modifies reader`unreadMarker, reader`insufficientData
      ensures !ok ==> reader.unreadMarker == old(reader.unreadMarker) && reader.insufficientData == old(reader.insufficientData)
      ensures !ok ==> !old(reader.Out(w0)).complete
      ensures ok ==> Fits(w) && reader.Out(w) == Onward(old(reader.Out(w0)), reader.View(w).bits)
      ensures ok ==> ReadDiff(T[id].read, old(reader.View(w0)).bits) == Some((d, reader.View(w).bits))
    {
      hide Look, ViewOf, Extend, Decode, SymbolsFit;
      var s: Byte, x: nat;
      d := 0;
      assert ReadsLike(tables[id], T[id]);
      DcSymbol(tables[id].pub, reader.View(w0).bits);
      ok, s, w := Symbol(w0, id);
      if !ok { return; }
      if s != 0 {
        ok, x, w := reader.FetchBits(w, s);
        if !ok { return; }
        d := Extend(x, s);
      }
    }

    /** The blocks of decode_mcu_DC_first, on a copy of the predictions. */
    method BlocksDcFirst(w0: Working, blocks: seq<array<Coef>>, ghost rest: seq<bool>, ghost last1: seq<int>, ghost fin: Mcu)
        returns (ok: bool, last: seq<int>, w: Working)
      requires Shape() && DcTablesOk() && scan.Ss == 0 && scan.Ah == 0 && Fits(w0) && |lastDc| == |scan.comps|
      requires Blocks64(blocks) && Distinct(blocks) && |blocks| == |scan.membership|
      requires DecDcFirst(scan, T, reader.View(w0).bits, lastDc, Contents(blocks), 0) == Some((rest, last1, fin))
      modifies blocks, reader`unreadMarker, reader`insufficientData
      ensures !ok ==> reader.unreadMarker == old(reader.unreadMarker) && reader.insufficientData == old(reader.insufficientData)
      ensures !ok ==> !old(reader.Out(w0)).complete && SameButDc(old(Contents(blocks)), Contents(blocks), 0)
      ensures ok ==> Fits(w) && reader.Out(w) == Onward(old(reader.Out(w0)), rest) && last == last1 && Contents(blocks) == fin
    {
      hide TablesRead, DecDcFirst, ReadDiff, Look, ViewOf, ToShort, Pow2, SameButDc, SymbolsFit;
      NoneChanged(Contents(blocks));
      ok, last, w := true, lastDc, w0;
      var blkn := 0;
      while blkn < |blocks|
        invariant 0 <= blkn <= |blocks| && Fits(w) && |last| == |scan.comps|
        invariant reader.Out(w) == Onward(old(reader.Out(w0)), reader.View(w).bits)
        invariant SameButDc(old(Contents(blocks)), Contents(blocks), 0)
        invariant DecDcFirst(scan, T, reader.View(w).bits, last, Contents(blocks), blkn) == Some((rest, last1, fin))
      {
        var ci := scan.membership[blkn];
        DcFirstNeeds(scan, T, reader.View(w).bits, last, Contents(blocks), blkn);
        var s: int;
        ok, s, w := ReadDcDiff(w, DcTable(scan, blkn));
        if !ok { return; }
        s := s + last[ci];
        last := last[ci := s];
        DcChanged(old(Contents(blocks)), Contents(blocks), blkn, ToShort(s * Pow2(scan.Al)));
        StoreDc(blocks, blkn, ToShort(s * Pow2(scan.Al)));
        blkn := blkn + 1;
      }
      DcFirstNeeds(scan, T, reader.View(w).bits, last, Contents(blocks), blkn);
    }

    /** The blocks of decode_mcu_DC_refine. */
    method BlocksDcRefine(w0: Working, blocks: seq<array<Coef>>, ghost rest: seq<bool>, ghost fin: Mcu)
        returns (ok: bool, w: Working)
      requires Shape() && Fits(w0)
      requires Blocks64(blocks) && Distinct(blocks) && DcShorts(Contents(blocks))
      requires DecDcRefine(scan, reader.View(w0).bits, Contents(blocks), 0) == Some((rest, fin))
      modifies blocks, reader`unreadMarker, reader`insufficientData
      ensures !ok ==> reader.unreadMarker == old(reader.unreadMarker) && reader.insufficientData == old(reader.insufficientData)
      ensures !ok ==> !old(reader.Out(w0)).complete && DcBetween(old(Contents(blocks)), Contents(blocks), fin, 0)
      ensures ok ==> Fits(w) && reader.Out(w) == Onward(old(reader.Out(w0)), rest) && Contents(blocks) == fin
    {
      hide DecDcRefine, Look, ViewOf, SetBit, Pow2, DcUpTo, DcBetween, DcShorts;
      ghost var start := Contents(blocks);
      ok, w := true, w0;
      var blkn := 0;
      DcUpToStart(start, fin, scan, reader.View(w).bits);
      while blkn < |blocks|
        invariant 0 <= blkn <= |blocks| && Fits(w)
        invariant reader.Out(w) == Onward(old(reader.Out(w0)), reader.View(w).bits)
        invariant DcUpTo(start, Contents(blocks), fin, blkn)
        invariant DecDcRefine(scan, reader.View(w).bits, Contents(blocks), blkn) == Some((rest, fin))
      {
        ghost var cur, bits := Contents(blocks), reader.View(w).bits;
        DcMoves(scan, bits, start, cur, fin, blkn, rest);
        var x: nat;
        ok, x, w := reader.FetchBits(w, 1);
        if !ok { return; }
        FirstBit(bits);
        if x != 0 {
          StoreDc(blocks, blkn, SetBit(blocks[blkn][0], scan.Al));
        }
        blkn := blkn + 1;
      }
      DcEnds(scan, reader.View(w).bits, Contents(blocks), blkn);
    }

    /** The decoder's state as the scan model sees it. */
    ghost function State(): Stream.Decoder
      reads this, reader
    {
      Stream.Decoder(reader.View(reader.Load()), eobrun, lastDc, restartsToGo, nextRestartNum, discardedBytes)
    }

    /** What holds between MCUs: the data never proves too short, and none of it is
        discarded. */
    ghost predicate Valid()
      reads this, reader
    {
      Shape() && DcTablesOk() && Fits(reader.Load()) && |lastDc| == |scan.comps| && nextRestartNum < 8 &&
      !reader.insufficientData && discardedBytes == 0
    }

    /** A restart is due and only padding is left before its marker. */
    ghost predicate AtRestart()
      reads this, reader
    {
      ri > 0 && restartsToGo == 0 ==> |State().ahead.bits| < 8
    }

    /** The marker that ends the current segment has been delivered. */
    ghost predicate Complete()
      reads reader
    {
      reader.Out(reader.Load()).complete
    }

    /** process_restart, when only padding is left before the expected marker. */
    method ProcessRestart() returns (ok: bool)
      requires Valid() && |State().ahead.bits| < 8 && State().ahead.marker == Stream.Marker(nextRestartNum)
      modifies this, reader
      ensures Valid() && reader.coming == old(reader.coming)
      ensures ok ==> Stream.ProcessRestart(scan, ri, old(State())) == Some(State())
      ensures !ok ==> State() == old(State()).(ahead := old(State()).ahead.(bits := [])) && !Complete()
    {
      hide Look, TablesRead, ToBits, TablesFor, Stream.Marker;
      LookWhole(reader.Rest());
      MarkerIs(nextRestartNum);
      discardedBytes := discardedBytes + reader.bits / 8;
      reader.bits := 0;
      if reader.unreadMarker == 0 {
        ok, discardedBytes := reader.NextMarker(discardedBytes);
        if !ok { return; }
      }
      if reader.unreadMarker == Stream.RST0 + nextRestartNum {
        reader.unreadMarker := 0;
      }
      nextRestartNum := (nextRestartNum + 1) % 8;
      lastDc := seq(|scan.comps|, _ => 0);
      eobrun := 0;
      restartsToGo := ri;
      if reader.unreadMarker == 0 {
        reader.insufficientData := false;
      }
      ok := true;
      NothingHeld(reader.Load(), reader.coming);
    }

    /** The blocks of an MCU, in the mode of the scan. Nothing is saved if the data
        runs dry, and then the blocks read the same way again. */
    method DecodeBlocks(blocks: seq<array<Coef>>, ghost st: DecState, ghost fin: Mcu) returns (ok: bool)
      requires Valid() && Blocks64(blocks) && Distinct(blocks) && |blocks| == |scan.membership|
      requires DecMcu(scan, T, Entering(), Contents(blocks)) == Some((st, fin))
      modifies this`eobrun, this`lastDc, reader, blocks
      ensures Valid() && reader.coming == old(reader.coming)
      ensures ok ==> Entering() == st && Contents(blocks) == fin
      ensures ok ==> State().ahead.marker == old(State()).ahead.marker && State().ahead.rest == old(State()).ahead.rest
      ensures !ok ==> State() == old(State()) && !Complete() && DecMcu(scan, T, Entering(), Contents(blocks)) == Some((st, fin))
    {
      hide Look, TablesRead, ToBits, DecAcBlock, DecDcFirst, DecDcRefine, Between, Corrected, SameButDc, DcBetween, SymbolsFit, ViewOf;
      ok := true;
      ghost var cs := Contents(blocks);
      var w := reader.Load();
      var run, last := eobrun, lastDc;
      BlocksShort(blocks);
      if scan.Ss > 0 {
        ghost var d := Decoded(fin[0], st.eobrun, st.bits);
        if scan.Ah == 0 {
          ok, run, w := BlockAcFirst(w, blocks[0], d);
        } else {
          ok, run, w := BlockAcRefine(w, blocks[0], d);
        }
        if !ok {
          BlockRetry(BandOf(scan), T[BandOf(scan).id].read, eobrun, cs[0], Contents(blocks)[0], State().ahead.bits, d);
          return;
        }
      } else if scan.Ah == 0 {
        ok, last, w := BlocksDcFirst(w, blocks, st.bits, st.lastDc, fin);
        if !ok {
          DcFirstRetry(scan, T, State().ahead.bits, lastDc, cs, Contents(blocks), 0);
          return;
        }
      } else {
        ok, w := BlocksDcRefine(w, blocks, st.bits, fin);
        if !ok {
          DcRefineRetry(scan, State().ahead.bits, cs, Contents(blocks), 0, st.bits, fin);
          return;
        }
      }
      reader.Save(w);
      eobrun, lastDc := run, last;
    }

    /** What the blocks of an MCU are read from. */
    ghost function Entering(): DecState
      reads this, reader
    {
      DecState(State().ahead.bits, eobrun, lastDc)
    }

    /** decode_mcu. With well-formed data ahead the MCU is read as the scan model
        says, or it has to be read again once more data is there; then nothing is
        lost, even though blocks may have changed. It never gives up when all of the
        segment has been delivered. */
    method DecodeMcu(blocks: seq<array<Coef>>) returns (ok: bool)
      requires Valid() && AtRestart() && Blocks64(blocks) && Distinct(blocks) && |blocks| == |scan.membership|
      requires Stream.DecodeMcu(scan, T, ri, State(), Contents(blocks)).Some?
      modifies this, reader, blocks
      ensures Valid() && reader.coming == old(reader.coming)
      ensures ok ==> Stream.DecodeMcu(scan, T, ri, old(State()), old(Contents(blocks))) == Some((State(), Contents(blocks)))
      ensures !ok ==> AtRestart() && !Complete()
      ensures !ok ==>
        Stream.DecodeMcu(scan, T, ri, State(), Contents(blocks)) == old(Stream.DecodeMcu(scan, T, ri, State(), Contents(blocks)))
    {
      hide Look, TablesRead, ToBits, DecMcu, SymbolsFit, ViewOf, Stream.Marker;
      if ri > 0 && restartsToGo == 0 {
        ok := ProcessRestart();
        if !ok { return; }
      }
      ghost var (st, fin) := DecMcu(scan, T, Entering(), Contents(blocks)).value;
      ok := DecodeBlocks(blocks, st, fin);
      if ok {
        restartsToGo := (restartsToGo - 1) % 0x1_0000_0000;
      }
    }
  }

  lemma BlocksShort(blocks: seq<array<Coef>>)
    requires Blocks64(blocks)
    ensures DcShorts(Contents(blocks)) && forall i :: 0 <= i < |blocks| ==> Shorts(Contents(blocks)[i])
  {
    forall i, j | 0 <= i < |blocks| && 0 <= j < 64 ensures Short(Contents(blocks)[i][j]) {
      assert Contents(blocks)[i] == blocks[i][..];
    }
  }

  lemma MarkerIs(k: nat)
    requires k < 8
    ensures Stream.Marker(k) == Stream.RST0 + k != 0
  {
  }

  /** Data comes in whole bytes. */
  lemma {:induction false} LookWhole(bytes: seq<Byte>)
    ensures |Look(bytes).bits| % 8 == 0
    decreases |bytes|
  {
    hide ByteBits;
    if bytes != [] {
      if bytes[0] != 0xFF {
        LookWhole(bytes[1..]);
        BytesHaveBits(bytes[0]);
      } else {
        var r := SkipFill(bytes[1..]);
        if r != [] && r[0] == 0 {
          LookWhole(r[1..]);
          BytesHaveBits(0xFF);
        }
      }
    }
  }

  lemma NothingHeld(w: Working, coming: seq<Byte>)
    requires w.bits == 0
    ensures Held(w) == [] && ViewOf(w, 0, coming) == Look(w.input + coming)
  {
    hide Look;
    assert [] + Look(w.input + coming).bits == Look(w.input + coming).bits;
  }

  lemma NoneChanged(mcu: Mcu)
    ensures SameButDc(mcu, mcu, 0)
  {
    assert forall i :: 0 <= i < |mcu| ==> mcu[i] == mcu[i][0 := mcu[i][0]];
  }

  lemma DcChanged(start: Mcu, cur: Mcu, b: nat, v: int)
    requires SameButDc(start, cur, 0) && b < |cur|
    ensures SameButDc(start, cur[b := cur[b][0 := v]], 0)
  {
    assert cur[b][0 := v] == start[b][0 := v];
  }

  /** The DC values before block b are final, the others untouched. */
  ghost predicate DcUpTo(start: Mcu, cur: Mcu, fin: Mcu, b: nat) {
    |start| == |cur| == |fin| && DcShorts(start) && SameButDc(start, cur, 0) &&
    (forall i :: 0 <= i < |cur| && i < b ==> cur[i] == fin[i]) && (forall i :: b <= i < |cur| ==> cur[i] == start[i])
  }

  lemma DcUpToStart(start: Mcu, fin: Mcu, s: Scan, bits: seq<bool>)
    requires DcShorts(start) && |fin| == |start|
    ensures DcUpTo(start, start, fin, 0)
  {
    assert forall i :: 0 <= i < |start| ==> start[i] == start[i][0 := start[i][0]];
  }

  lemma DcMoves(s: Scan, bits: seq<bool>, start: Mcu, cur: Mcu, fin: Mcu, b: nat, rest: seq<bool>)
    requires s.Al <= 13 && b < |cur| && DcUpTo(start, cur, fin, b) && DecDcRefine(s, bits, cur, b) == Some((rest, fin))
    ensures bits != [] && DcBetween(start, cur, fin, 0)
    ensures var cur1 := if bits[0] then cur[b := cur[b][0 := SetBit(cur[b][0], s.Al)]] else cur;
            DcUpTo(start, cur1, fin, b + 1) && DecDcRefine(s, bits[1..], cur1, b + 1) == Some((rest, fin))
  {
    hide DecDcRefine, SetBit, DcRefined;
    DcStepIs(s, bits, cur, b);
    DcEnds(s, bits, cur, b);
    var v := DcRefined(cur[b][0], s.Al, bits[0]);
    RefinedIs(cur[b][0], s.Al, bits[0]);
    SameDc(cur, b);
    DcKeeps(s, bits[1..], cur[b := cur[b][0 := v]], b + 1);
  }

  lemma DcEnds(s: Scan, bits: seq<bool>, mcu: Mcu, b: nat)
    requires DecDcRefine(s, bits, mcu, b).Some?
    ensures b < |mcu| ==> bits != []
    ensures b >= |mcu| ==> DecDcRefine(s, bits, mcu, b) == Some((bits, mcu))
  {
  }

  lemma RefinedIs(v: int, al: nat, bit: bool)
    requires Short(v) && al <= 13
    ensures DcRefined(v, al, bit) == if bit then SetBit(v, al) else v
  {
    hide Pow2, Shr;
    ToShortId(v);
    SetBitShort(v, al);
  }

  lemma SameDc(mcu: Mcu, b: nat)
    requires b < |mcu|
    ensures mcu[b := mcu[b][0 := mcu[b][0]]] == mcu
  {
    assert mcu[b][0 := mcu[b][0]] == mcu[b];
  }

  /** A bit that is clear can be set within 16 bits. */
  lemma SetBitShort(v: int, al: nat)
    requires Short(v) && al <= 13
    ensures Short(SetBit(v, al))
  {
    hide Pow2, Shr;
    if Shr(v, al) % 2 == 0 {
      var p, h, m := Pow2(al), Shr(v, al) / 2, Pow2(14 - al);
      ShrBounds(v, al);
      MulDouble(h, p);
      assert 2 * h * p == h * (2 * p);
      TopBit(al);
      if h >= m {
        MulLe(m, h, 2 * p);
      } else {
        MulLe(h + 1, m, 2 * p);
        MulSucc(h, 2 * p);
      }
      Pow2Small(al);
    }
  }

  lemma TopBit(al: nat)
    requires al <= 13
    ensures Pow2(14 - al) * (2 * Pow2(al)) == 32768
  {
    hide Pow2;
    Halves(al);
    PowerStep(14 - al);
    MulDouble(Pow2(14 - al), Pow2(al));
    var h, p := Pow2(14 - al), Pow2(al);
    assert Pow2(15 - al) == 2 * h;
    assert 2 * h * p == 2 * (h * p);
  }

  lemma SettledStart(p: Band, read: Reader, eobrun: nat, prev: Block, bits: seq<bool>, d: Decoded, news: seq<nat>)
    requires p.Se <= 63 && p.Ah != 0 && Shorts(prev) && |news| == 0
    requires DecAcBlock(p, read, eobrun, prev, bits) == Some(d)
    ensures Settled(p, prev, p.Ss, prev, d.blk, news)
  {
    hide DecRefine, CorrectTail;
    if eobrun == 0 {
      RefineKeeps(p, read, p.Ss, prev, bits);
    } else {
      TailKeeps(p, p.Ss, prev, bits);
    }
  }

  lemma SettledNext(p: Band, T: Tables, prev: Block, k: nat, start: Block, r: nat, bits: seq<bool>, d: Decoded, news: seq<nat>,
                    isNew: bool, positive: bool)
    requires k <= p.Se <= 63 && p.Ss > 0 && p.id in T && Settled(p, prev, k, start, d.blk, news)
    requires Skip(p, k, r, start, bits).Some?
    requires var (end, blk1, rest) := Skip(p, k, r, start, bits).value;
             AfterSkip(p, T[p.id].read, isNew, positive, end, blk1, rest) == Some(d)
    ensures var (end, blk1, rest) := Skip(p, k, r, start, bits).value;
            var blk2 := if isNew && end < 64 then blk1[end := ToShort(NewCoef(p.Al, positive))] else blk1;
            (isNew ==> end <= p.Se) && |news| < 64 && k <= end &&
            (Shorts(blk1) ==> Settled(p, prev, end + 1, blk2, d.blk, if isNew then news + [end] else news)) &&
            DecRefine(p, T[p.id].read, end + 1, blk2, rest) == Some(d) &&
            (forall i :: 0 <= i < 64 && i < end ==> blk1[i] == d.blk[i]) && (forall i :: end <= i < 64 ==> blk1[i] == start[i])
  {
    hide Skip, DecRefine, ToShort, NewCoef;
    var (end, blk1, rest) := Skip(p, k, r, start, bits).value;
    SkipKeeps(p, k, r, start, bits);
    var v := ToShort(NewCoef(p.Al, positive));
    NewShort(p.Al, positive);
    var blk2 := if isNew then blk1[end := v] else blk1;
    RefineKeeps(p, T[p.id].read, end + 1, blk2, rest);
    var news2 := if isNew then news + [end] else news;
    assert forall i :: i in news ==> i in news2;
    assert isNew ==> news2[|news|] == end;
  }

  /** Giving up while coefficients are being skipped. */
  lemma SkippedPartial(p: Band, prev: Block, k: nat, start: Block, later: Block, end: nat, blk1: Block, fin: Block, news: seq<nat>)
    requires Settled(p, prev, k, start, fin, news) && Corrected(start, later, blk1)
    requires forall i :: 0 <= i < 64 && i < end ==> blk1[i] == fin[i]
    requires forall i :: end <= i < 64 ==> blk1[i] == start[i]
    ensures Partial(prev, later, fin, news)
  {
    SettledPartial(p, prev, k, start, later, fin, news);
  }

  lemma StillPartial(p: Band, prev: Block, k: nat, cur: Block, fin: Block, news: seq<nat>)
    requires Settled(p, prev, k, cur, fin, news)
    ensures Partial(prev, cur, fin, news) && Shorts(cur)
  {
    SettledPartial(p, prev, k, cur, cur, fin, news);
  }

  lemma RefineNeeds(p: Band, T: Tables, d: Decoded, k: nat, cur: Block, bits: seq<bool>)
    requires p.Se <= 63 && p.id in T && DecRefine(p, T[p.id].read, k, cur, bits) == Some(d)
    ensures k > p.Se ==> d == Decoded(cur, 0, bits)
    ensures k <= p.Se ==>
      T[p.id].read(bits).Some? &&
      RefineCases(p, T, d, k, cur, T[p.id].read(bits).value.0, T[p.id].read(bits).value.1)
  {
    hide Skip, CorrectTail, ToShort, NewCoef;
  }

  /** What follows a symbol in a refinement scan. */
  ghost predicate RefineCases(p: Band, T: Tables, d: Decoded, k: nat, cur: Block, rs: Byte, bits: seq<bool>)
    requires k <= p.Se <= 63 && p.id in T
  {
    var r, s := rs / 16, rs % 16;
    if s == 0 && r != 15 then
      |bits| >= r &&
      var (x, bits1) := GetBits(r, bits).value;
      CorrectTail(p, k, cur, bits1) == Some((d.blk, d.bits)) && d.eobrun == Pow2(r) + x - 1
    else
      (s != 0 ==> bits != []) &&
      var bits2 := if s != 0 then bits[1..] else bits;
      Skip(p, k, r, cur, bits2).Some? &&
      var (k1, blk1, rest) := Skip(p, k, r, cur, bits2).value;
      AfterSkip(p, T[p.id].read, s != 0, s != 0 && bits[0], k1, blk1, rest) == Some(d)
  }

  lemma UndoOne(prev: Block, cur: Block, fin: Block, news: seq<nat>, n: nat)
    requires |news| == n + 1 && Partial(prev, cur, fin, news)
    ensures news[n] < 64 && Partial(prev, cur[news[n] := 0], fin, news[..n])
  {
    var cur1 := cur[news[n] := 0];
    forall i | 0 <= i < 64 && prev[i] == 0 && cur1[i] != 0 ensures i in news[..n] {
      assert news == news[..n] + [news[n]];
    }
  }

  lemma TailStep(p: Band, k: nat, blk: Block, bits: seq<bool>)
    requires p.Se <= 63 && CorrectTail(p, k, blk, bits).Some?
    ensures k > p.Se ==> CorrectTail(p, k, blk, bits) == Some((blk, bits))
    ensures k <= p.Se && blk[k] == 0 ==> CorrectTail(p, k, blk, bits) == CorrectTail(p, k + 1, blk, bits)
    ensures k <= p.Se && blk[k] != 0 ==>
      bits != [] &&
      CorrectTail(p, k, blk, bits) == CorrectTail(p, k + 1, blk[k := ToShort(Correct(blk[k], p.Al, bits[0]))], bits[1..])
  {
    hide Correct, ToShort;
  }

  lemma FirstBit(bits: seq<bool>)
    requires |bits| >= 1
    ensures FromBits(bits[..1]) == (if bits[0] then 1 else 0)
  {
    assert bits[..1][..0] == [];
  }

  lemma CorrectShort(v: int, al: nat, bit: bool)
    ensures Short(ToShort(Correct(v, al, bit)))
  {
  }

  lemma SkipStep(p: Band, k: nat, r: nat, blk: Block, bits: seq<bool>)
    requires k <= p.Se <= 63 && Skip(p, k, r, blk, bits).Some?
    ensures blk[k] != 0 ==> bits != []
    ensures blk[k] == 0 && r == 0 ==> Skip(p, k, r, blk, bits) == Some((k, blk, bits))
    ensures blk[k] == 0 && r > 0 ==>
      Skip(p, k, r, blk, bits) == if k == p.Se then Some((k + 1, blk, bits)) else Skip(p, k + 1, r - 1, blk, bits)
    ensures blk[k] != 0 ==>
      var blk1 := blk[k := ToShort(Correct(blk[k], p.Al, bits[0]))];
      Skip(p, k, r, blk, bits) == if k == p.Se then Some((k + 1, blk1, bits[1..])) else Skip(p, k + 1, r, blk1, bits[1..])
  {
    hide Correct, ToShort;
  }

  /** A corrected coefficient is final. */
  lemma SkipFinal(p: Band, k: nat, r: nat, blk: Block, bits: seq<bool>)
    requires k <= p.Se <= 63 && Skip(p, k, r, blk, bits).Some? && blk[k] != 0
    ensures bits != [] && Skip(p, k, r, blk, bits).value.1[k] == ToShort(Correct(blk[k], p.Al, bits[0]))
  {
    hide Correct, ToShort;
    if k < p.Se {
      SkipKeeps(p, k + 1, r, blk[k := ToShort(Correct(blk[k], p.Al, bits[0]))], bits[1..]);
    }
  }
}
