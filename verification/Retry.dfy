/** Suspension: when the decoder runs out of delivered data within an MCU it gives
    up and starts the MCU again later, on blocks it may already have changed. The
    second reading has the same result. */
module Retry {
  import opened Bits
  import opened Wrappers
  import opened Tokens
  import opened AcCoding
  import opened Coefficients
  import opened DcCoding
  import opened ScanCoding

  /** Part of the way from prev to fin: every coefficient has its old or its final
      value. */
  predicate Between(prev: Block, cur: Block, fin: Block) {
    forall i :: 0 <= i < 64 ==> cur[i] == prev[i] || cur[i] == fin[i]
  }

  /** Part of the way through a refinement: only nonzero coefficients have changed. */
  predicate Corrected(prev: Block, cur: Block, fin: Block) {
    Between(prev, cur, fin) && forall i :: 0 <= i < 64 ==> prev[i] == 0 ==> cur[i] == 0
  }

  // ----- a correction bit can be added twice -----

  lemma HalfAdd(v: int, x: int)
    ensures (v + 2 * x) / 2 == v / 2 + x
  {
  }

  lemma {:induction false} ShrAdd(v: int, m: int, n: nat)
    ensures Shr(v + m * Pow2(n), n) == Shr(v, n) + m
    decreases n
  {
    if n > 0 {
      MulDouble(m, Pow2(n - 1));
      HalfAdd(v, m * Pow2(n - 1));
      ShrAdd(v / 2, m, n - 1);
    }
  }

  /** Storing in 16 bits does not change the low bits. */
  lemma ShortKeepsBit(x: int, al: nat)
    requires al <= 13
    ensures Shr(ToShort(x), al) % 2 == Shr(x, al) % 2
  {
    hide Shr, Pow2;
    var m := (x + 32768) / 65536;
    assert ToShort(x) == x - 65536 * m;
    var h := Pow2(15 - al);
    Halves(al);
    assert -(65536 * m) == (-(2 * (h * m))) * Pow2(al) by { Regroup(m, h, Pow2(al)); }
    ShrAdd(x, -(2 * (h * m)), al);
  }

  lemma Halves(al: nat)
    requires al <= 13
    ensures 2 * (Pow2(15 - al) * Pow2(al)) == 65536
  {
    hide Pow2;
    Pow2Add(15 - al, al);
    Pow2Fifteen();
  }

  lemma Pow2Fifteen()
    ensures Pow2(15) == 32768
  {
    Pow2Add(8, 7);
  }

  lemma Regroup(m: int, h: int, p: int)
    requires 2 * (h * p) == 65536
    ensures -(65536 * m) == (-(2 * (h * m))) * p
  {
    assert (2 * (h * p)) * m == 2 * (h * m) * p;
    NegMul(2 * (h * m), p);
  }

  /** Correcting a coefficient again, with the same bit, changes nothing, whatever
      its sign; and a nonzero coefficient stays nonzero. */
  lemma CorrectTwice(v: int, al: nat, bit: bool)
    requires Short(v) && v != 0 && al <= 13
    ensures var c := ToShort(Correct(v, al, bit));
            Short(c) && c != 0 && ToShort(Correct(c, al, bit)) == c
  {
    hide Shr, Pow2;
    var x := Correct(v, al, bit);
    Pow2Small(al);
    ShortKeepsBit(x, al);
    if bit && Shr(v, al) % 2 == 0 {
      ShrAdd(v, if v >= 0 then 1 else -1, al);
      NegMul(1, Pow2(al));
      assert Shr(x, al) == Shr(v, al) + if v >= 0 then 1 else -1;
    } else {
      ToShortId(v);
    }
  }

  lemma Pow2Small(al: nat)
    requires al <= 13
    ensures 1 <= Pow2(al) <= 8192
  {
    Pow2Mono(al, 13);
    assert Pow2(13) == 8192;
  }

  // ----- first scans -----

  lemma {:induction false} FirstRetry(p: Band, read: Reader, k: nat, prev: Block, cur: Block, bits: seq<bool>, d: Decoded)
    requires p.Se <= 63 && DecFirst(p, read, k, prev, bits) == Some(d) && Between(prev, cur, d.blk)
    ensures DecFirst(p, read, k, cur, bits) == Some(d)
    decreases 64 - k
  {
    hide Extend, ToShort;
    if k <= p.Se {
      var (rs, bits1) := read(bits).value;
      var r, s := rs / 16, rs % 16;
      if s != 0 {
        var (x, bits2) := GetBits(s, bits1).value;
        var v := ToShort(Extend(x, s) * Pow2(p.Al));
        FirstRetry(p, read, k + r + 1, prev[k + r := v], cur[k + r := v], bits2, d);
      } else if r == 15 {
        FirstRetry(p, read, k + 16, prev, cur, bits1, d);
      } else {
        SameBlock(prev, cur);
      }
    } else {
      SameBlock(prev, cur);
    }
  }

  lemma {:induction false} FirstKeeps(p: Band, read: Reader, k: nat, blk: Block, bits: seq<bool>)
    requires p.Se <= 63 && DecFirst(p, read, k, blk, bits).Some?
    ensures Keeps(p, k, blk, DecFirst(p, read, k, blk, bits).value.blk)
    decreases 64 - k
  {
    hide Extend, ToShort;
    if k <= p.Se {
      var (rs, bits1) := read(bits).value;
      var r, s := rs / 16, rs % 16;
      if s != 0 {
        var (x, bits2) := GetBits(s, bits1).value;
        FirstKeeps(p, read, k + r + 1, blk[k + r := ToShort(Extend(x, s) * Pow2(p.Al))], bits2);
      } else if r == 15 {
        FirstKeeps(p, read, k + 16, blk, bits1);
      }
    }
  }

  lemma SameBlock(prev: Block, cur: Block)
    requires Between(prev, cur, prev)
    ensures cur == prev
  {
    assert forall i :: 0 <= i < 64 ==> cur[i] == prev[i];
  }

  // ----- refinement scans -----

  /** Beyond the band, and before k, nothing changes any more. */
  ghost predicate Keeps(p: Band, k: nat, before: Block, after: Block) {
    forall i :: 0 <= i < 64 && (i < k || i > p.Se) ==> after[i] == before[i]
  }

  lemma {:induction false} TailKeeps(p: Band, k: nat, blk: Block, bits: seq<bool>)
    requires p.Se <= 63 && CorrectTail(p, k, blk, bits).Some?
    ensures Keeps(p, k, blk, CorrectTail(p, k, blk, bits).value.0)
    decreases 64 - k
  {
    hide Correct, ToShort;
    if k <= p.Se {
      if blk[k] == 0 {
        TailKeeps(p, k + 1, blk, bits);
      } else {
        TailKeeps(p, k + 1, blk[k := ToShort(Correct(blk[k], p.Al, bits[0]))], bits[1..]);
      }
    }
  }

  lemma {:induction false} SkipKeeps(p: Band, k: nat, r: nat, blk: Block, bits: seq<bool>)
    requires k <= p.Se <= 63 && Skip(p, k, r, blk, bits).Some?
    ensures var (k1, blk1, _) := Skip(p, k, r, blk, bits).value;
            Keeps(p, k, blk, blk1) && (k1 <= p.Se ==> blk1[k1] == 0) &&
            (forall i :: k1 <= i < 64 ==> blk1[i] == blk[i]) && (forall i :: k <= i < k1 ==> blk[i] == 0 ==> blk1[i] == 0)
    decreases 64 - k
  {
    hide Correct, ToShort;
    if blk[k] != 0 {
      var blk1 := blk[k := ToShort(Correct(blk[k], p.Al, bits[0]))];
      if k < p.Se {
        SkipKeeps(p, k + 1, r, blk1, bits[1..]);
      }
    } else if r > 0 && k < p.Se {
      SkipKeeps(p, k + 1, r - 1, blk, bits);
    }
  }

  lemma {:induction false} RefineKeeps(p: Band, read: Reader, k: nat, blk: Block, bits: seq<bool>)
    requires p.Se <= 63 && DecRefine(p, read, k, blk, bits).Some?
    ensures Keeps(p, k, blk, DecRefine(p, read, k, blk, bits).value.blk)
    decreases 64 - k
  {
    hide Skip, CorrectTail, NewCoef, ToShort;
    if k <= p.Se {
      var (rs, bits1) := read(bits).value;
      var r, s := rs / 16, rs % 16;
      if s == 0 && r != 15 {
        TailKeeps(p, k, blk, GetBits(r, bits1).value.1);
      } else {
        var bits2 := if s != 0 then bits1[1..] else bits1;
        SkipKeeps(p, k, r, blk, bits2);
        var (k1, blk1, bits3) := Skip(p, k, r, blk, bits2).value;
        RefineKeeps(p, read, k1 + 1, if s == 0 then blk1 else blk1[k1 := ToShort(NewCoef(p.Al, bits1[0]))], bits3);
      }
    }
  }

  /** One coefficient of prev that is corrected in a second reading. */
  lemma CorrectAgain(p: Band, k: nat, prev: Block, cur: Block, bit: bool)
    requires k < 64 && p.Al <= 13 && Shorts(prev) && prev[k] != 0
    requires cur[k] == prev[k] || cur[k] == ToShort(Correct(prev[k], p.Al, bit))
    ensures cur[k] != 0 && ToShort(Correct(cur[k], p.Al, bit)) == ToShort(Correct(prev[k], p.Al, bit))
    ensures Shorts(prev[k := ToShort(Correct(prev[k], p.Al, bit))])
  {
    hide Correct, ToShort;
    CorrectTwice(prev[k], p.Al, bit);
  }

  lemma {:induction false} TailRetry(p: Band, k: nat, prev: Block, cur: Block, bits: seq<bool>, fin: Block, rest: seq<bool>)
    requires p.Se <= 63 && p.Al <= 13 && Shorts(prev)
    requires CorrectTail(p, k, prev, bits) == Some((fin, rest)) && Corrected(prev, cur, fin)
    ensures CorrectTail(p, k, cur, bits) == Some((fin, rest))
    decreases 64 - k
  {
    hide Correct, ToShort;
    if k > p.Se {
      SameBlock(prev, cur);
    } else if prev[k] == 0 {
      TailRetry(p, k + 1, prev, cur, bits, fin, rest);
    } else {
      var v := ToShort(Correct(prev[k], p.Al, bits[0]));
      TailKeeps(p, k + 1, prev[k := v], bits[1..]);
      CorrectAgain(p, k, prev, cur, bits[0]);
      TailRetry(p, k + 1, prev[k := v], cur[k := v], bits[1..], fin, rest);
    }
  }

  lemma {:induction false} SkipRetry(p: Band, k: nat, r: nat, prev: Block, cur: Block, bits: seq<bool>, fin: Block)
      returns (cur1: Block)
    requires k <= p.Se <= 63 && p.Al <= 13 && Shorts(prev) && Corrected(prev, cur, fin)
    requires Skip(p, k, r, prev, bits).Some?
    requires forall i :: k <= i < Skip(p, k, r, prev, bits).value.0 ==> fin[i] == Skip(p, k, r, prev, bits).value.1[i]
    ensures var (k1, blk1, rest) := Skip(p, k, r, prev, bits).value;
            Skip(p, k, r, cur, bits) == Some((k1, cur1, rest)) && Corrected(blk1, cur1, fin) && Shorts(blk1)
    decreases 64 - k
  {
    hide Correct, ToShort;
    cur1 := cur;
    if prev[k] != 0 {
      var v := ToShort(Correct(prev[k], p.Al, bits[0]));
      CorrectTwice(prev[k], p.Al, bits[0]);
      if k < p.Se {
        SkipKeeps(p, k + 1, r, prev[k := v], bits[1..]);
        CorrectAgain(p, k, prev, cur, bits[0]);
        cur1 := SkipRetry(p, k + 1, r, prev[k := v], cur[k := v], bits[1..], fin);
      } else {
        CorrectAgain(p, k, prev, cur, bits[0]);
        cur1 := cur[k := v];
      }
    } else if r > 0 && k < p.Se {
      cur1 := SkipRetry(p, k + 1, r - 1, prev, cur, bits, fin);
    }
  }

  /** Reading on after a run of zeros has been skipped. */
  function AfterSkip(p: Band, read: Reader, isNew: bool, positive: bool, k1: nat, blk1: Block, bits: seq<bool>): Option<Decoded>
    requires p.Se <= 63
  {
    if !isNew then DecRefine(p, read, k1 + 1, blk1, bits)
    else if k1 > p.Se then None
    else DecRefine(p, read, k1 + 1, blk1[k1 := ToShort(NewCoef(p.Al, positive))], bits)
  }

  /** A symbol that is not an end-of-band. */
  lemma RefineSymbol(p: Band, read: Reader, k: nat, blk: Block, bits: seq<bool>, rs: Byte, bits1: seq<bool>)
    requires k <= p.Se <= 63 && read(bits) == Some((rs, bits1)) && (rs % 16 != 0 || rs / 16 == 15)
    ensures DecRefine(p, read, k, blk, bits).Some? ==>
      (rs % 16 != 0 ==> bits1 != []) && Skip(p, k, rs / 16, blk, if rs % 16 != 0 then bits1[1..] else bits1).Some?
    ensures rs % 16 != 0 ==> bits1 != [] ==>
      Skip(p, k, rs / 16, blk, bits1[1..]).Some? ==>
      var (k1, blk1, rest) := Skip(p, k, rs / 16, blk, bits1[1..]).value;
      DecRefine(p, read, k, blk, bits) == AfterSkip(p, read, true, bits1[0], k1, blk1, rest)
    ensures rs % 16 == 0 ==>
      Skip(p, k, rs / 16, blk, bits1).Some? ==>
      var (k1, blk1, rest) := Skip(p, k, rs / 16, blk, bits1).value;
      DecRefine(p, read, k, blk, bits) == AfterSkip(p, read, false, false, k1, blk1, rest)
  {
    hide Skip, CorrectTail, NewCoef, ToShort;
  }

  /** A refined block that has been corrected in part is read the same way again. */
  lemma {:induction false} RefineRetry(p: Band, read: Reader, k: nat, prev: Block, cur: Block, bits: seq<bool>, d: Decoded)
    requires p.Se <= 63 && p.Al <= 13 && Shorts(prev)
    requires DecRefine(p, read, k, prev, bits) == Some(d) && Corrected(prev, cur, d.blk)
    ensures DecRefine(p, read, k, cur, bits) == Some(d)
    decreases 64 - k, 1
  {
    hide Skip, CorrectTail, NewCoef, ToShort, Between, AfterSkip, Shorts;
    if k > p.Se {
      SameBlock(prev, cur);
    } else {
      var (rs, bits1) := read(bits).value;
      if rs % 16 == 0 && rs / 16 != 15 {
        var (x, bits2) := GetBits(rs / 16, bits1).value;
        TailRetry(p, k, prev, cur, bits2, d.blk, d.bits);
      } else {
        RefineSymbol(p, read, k, prev, bits, rs, bits1);
        RefineSymbol(p, read, k, cur, bits, rs, bits1);
        if rs % 16 != 0 {
          SymbolRetry(p, read, k, prev, cur, rs / 16, true, bits1[0], bits1[1..], d);
        } else {
          SymbolRetry(p, read, k, prev, cur, rs / 16, false, false, bits1, d);
        }
      }
    }
  }

  lemma {:induction false} SymbolRetry(p: Band, read: Reader, k: nat, prev: Block, cur: Block, r: nat, isNew: bool, positive: bool,
                                       bits: seq<bool>, d: Decoded)
    requires k <= p.Se <= 63 && p.Al <= 13 && Shorts(prev) && Corrected(prev, cur, d.blk)
    requires Skip(p, k, r, prev, bits).Some?
    requires var (k1, blk1, rest) := Skip(p, k, r, prev, bits).value;
             AfterSkip(p, read, isNew, positive, k1, blk1, rest) == Some(d)
    ensures Skip(p, k, r, cur, bits).Some?
    ensures var (k1, blk1, rest) := Skip(p, k, r, cur, bits).value;
            AfterSkip(p, read, isNew, positive, k1, blk1, rest) == Some(d)
    decreases 64 - k, 0
  {
    hide Skip, DecRefine, NewCoef, ToShort;
    var (k1, blk1, rest) := Skip(p, k, r, prev, bits).value;
    SkipKeeps(p, k, r, prev, bits);
    var v := ToShort(NewCoef(p.Al, positive));
    var blk2 := if isNew then blk1[k1 := v] else blk1;
    RefineKeeps(p, read, k1 + 1, blk2, rest);
    var cur1 := SkipRetry(p, k, r, prev, cur, bits, d.blk);
    NewShort(p.Al, positive);
    RefineRetry(p, read, k1 + 1, blk2, if isNew then cur1[k1 := v] else cur1, rest, d);
  }

  lemma NewShort(al: nat, positive: bool)
    ensures Short(ToShort(NewCoef(al, positive)))
  {
  }

  /** Reading a block again, from any point on which its first reading gave up. */
  lemma BlockRetry(p: Band, read: Reader, eobrun: nat, prev: Block, cur: Block, bits: seq<bool>, d: Decoded)
    requires p.Se <= 63 && p.Al <= 13 && Shorts(prev) && DecAcBlock(p, read, eobrun, prev, bits) == Some(d)
    requires if p.Ah == 0 then Between(prev, cur, d.blk) else Corrected(prev, cur, d.blk)
    ensures DecAcBlock(p, read, eobrun, cur, bits) == Some(d)
  {
    hide DecFirst, DecRefine, CorrectTail;
    if eobrun > 0 {
      if p.Ah == 0 {
        SameBlock(prev, cur);
      } else {
        TailRetry(p, p.Ss, prev, cur, bits, d.blk, d.bits);
      }
    } else if p.Ah == 0 {
      FirstRetry(p, read, p.Ss, prev, cur, bits, d);
    } else {
      RefineRetry(p, read, p.Ss, prev, cur, bits, d);
    }
  }

  // ----- DC scans -----

  /** Blocks that agree before b and differ at most in their DC values after it. */
  predicate SameButDc(prev: Mcu, cur: Mcu, b: nat) {
    |prev| == |cur| && forall i :: 0 <= i < |cur| ==> cur[i] == prev[i][0 := cur[i][0]] && (i < b ==> cur[i] == prev[i])
  }

  /** A first DC scan overwrites DC values. */
  lemma {:induction false} DcFirstRetry(s: Scan, T: Tables, bits: seq<bool>, lastDc: seq<int>, prev: Mcu, cur: Mcu, b: nat)
    requires ScanOk(s) && s.Ss == 0 && s.Ah == 0 && TablesFor(s, T)
    requires |lastDc| == |s.comps| && |prev| == |s.membership| && SameButDc(prev, cur, b)
    ensures DecDcFirst(s, T, bits, lastDc, cur, b) == DecDcFirst(s, T, bits, lastDc, prev, b)
    decreases |prev| - b
  {
    hide ReadDiff, ToShort;
    if b >= |prev| {
      assert cur == prev;
    } else {
      match ReadDiff(T[DcTable(s, b)].read, bits)
      case None =>
      case Some((d, bits1)) =>
        var v := lastDc[s.membership[b]] + d;
        var x := ToShort(v * Pow2(s.Al));
        assert cur[b][0 := x] == prev[b][0 := x];
        DcFirstRetry(s, T, bits1, lastDc[s.membership[b] := v], prev[b := prev[b][0 := x]], cur[b := cur[b][0 := x]], b + 1);
    }
  }

  /** Setting a bit again changes nothing. */
  function DcRefined(v: int, al: nat, bit: bool): int {
    ToShort(if bit then SetBit(v, al) else v)
  }

  lemma DcTwice(v: int, al: nat, bit: bool)
    requires Short(v) && al <= 13
    ensures Short(DcRefined(v, al, bit)) && DcRefined(DcRefined(v, al, bit), al, bit) == DcRefined(v, al, bit)
  {
    hide Shr, Pow2;
    Pow2Small(al);
    ShortKeepsBit(v + Pow2(al), al);
    ShrAdd(v, 1, al);
    ToShortId(v);
  }

  predicate DcShorts(mcu: Mcu) {
    forall i :: 0 <= i < |mcu| ==> Short(mcu[i][0])
  }

  /** From block b on, DC values are old or final. */
  predicate DcBetween(prev: Mcu, cur: Mcu, fin: Mcu, b: nat) {
    |fin| == |prev| && SameButDc(prev, cur, b) && forall i :: 0 <= i < |cur| ==> cur[i][0] == prev[i][0] || cur[i][0] == fin[i][0]
  }

  lemma {:induction false} DcKeeps(s: Scan, bits: seq<bool>, mcu: Mcu, b: nat)
    requires DecDcRefine(s, bits, mcu, b).Some?
    ensures var (_, fin) := DecDcRefine(s, bits, mcu, b).value;
            |fin| == |mcu| && forall i :: 0 <= i < b && i < |mcu| ==> fin[i] == mcu[i]
    decreases |mcu| - b
  {
    hide SetBit, ToShort;
    if b < |mcu| {
      DcKeeps(s, bits[1..], mcu[b := mcu[b][0 := ToShort(if bits[0] then SetBit(mcu[b][0], s.Al) else mcu[b][0])]], b + 1);
    }
  }

  lemma {:induction false} DcRefineRetry(s: Scan, bits: seq<bool>, prev: Mcu, cur: Mcu, b: nat, rest: seq<bool>, fin: Mcu)
    requires s.Al <= 13 && DcShorts(prev) && DecDcRefine(s, bits, prev, b) == Some((rest, fin)) && DcBetween(prev, cur, fin, b)
    ensures DecDcRefine(s, bits, cur, b) == Some((rest, fin))
    decreases |prev| - b
  {
    hide DcRefined, ToShort;
    if b >= |prev| {
      assert cur == prev;
    } else {
      var x := DcRefined(prev[b][0], s.Al, bits[0]);
      DcStepIs(s, bits, prev, b);
      DcStepIs(s, bits, cur, b);
      DcKeeps(s, bits[1..], prev[b := prev[b][0 := x]], b + 1);
      DcTwice(prev[b][0], s.Al, bits[0]);
      assert cur[b][0 := x] == prev[b][0 := x];
      DcRefineRetry(s, bits[1..], prev[b := prev[b][0 := x]], cur[b := cur[b][0 := x]], b + 1, rest, fin);
    }
  }

  lemma DcStepIs(s: Scan, bits: seq<bool>, mcu: Mcu, b: nat)
    requires b < |mcu|
    ensures DecDcRefine(s, bits, mcu, b) ==
            if bits == [] then None
            else DecDcRefine(s, bits[1..], mcu[b := mcu[b][0 := DcRefined(mcu[b][0], s.Al, bits[0])]], b + 1)
  {
  }
}
