/** The reader of jdmarker.c accepts a segment only if its parameters take exactly as many
    bytes as the segment's length says, and puts tables only where there is room for them. */
module SegmentLengths {
  import opened Tokens
  import ByteStream
  import opened HuffmanCode
  import opened Markers
  import opened MarkerParsing

  /** If reading succeeds, exactly n bytes have been consumed. */
  ghost predicate Consumes(r: Parsed, n: int, bytes: seq<Byte>) {
    r.Got? ==> 0 <= n <= |bytes| && r.rest == bytes[n..]
  }

  lemma {:induction false} QuantConsumes(k: nat, wide: bool, bytes: seq<Byte>)
    ensures var r, n := ReadQuant(k, wide, bytes), if wide then 2 * k else k;
            r.Some? ==> n <= |bytes| && r.value.1 == bytes[n..]
  {
    if k > 0 && |bytes| >= if wide then 2 else 1 {
      QuantConsumes(k - 1, wide, bytes[if wide then 2 else 1..]);
    }
  }

  lemma {:induction false} DqtConsumes(st: State, length: int, bytes: seq<Byte>)
    ensures Consumes(DqtTables(st, length, bytes), length, bytes)
    decreases |bytes|
  {
    hide ReadQuant;
    if length > 0 && |bytes| >= 1 && bytes[0] % 16 < NUM_QUANT_TBLS {
      var wide, n := bytes[0] / 16 != 0, bytes[0] % 16;
      QuantConsumes(64, wide, bytes[1..]);
      match ReadQuant(64, wide, bytes[1..])
      case None =>
      case Some((q, rest)) => DqtConsumes(st.(quant := st.quant[n := q]), length - 65 - if wide then 64 else 0, rest);
    }
  }

  lemma {:induction false} DhtConsumes(st: State, length: int, bytes: seq<Byte>)
    ensures Consumes(DhtTables(st, length, bytes), length, bytes)
    decreases |bytes|
  {
    hide Sum, TableFrom;
    if length > 16 && |bytes| >= 17 {
      var count := Sum(bytes[1..17]);
      if count <= 256 && count <= length - 17 && |bytes| >= 17 + count && DefinedTable(bytes[0]).Some? {
        DhtConsumes(st.(huff := st.huff[DefinedTable(bytes[0]).value := TableFrom(bytes[1..17], bytes[17..17 + count])]),
                    length - 17 - count, bytes[17 + count..]);
      }
    }
  }

  lemma {:induction false} FrameCompsConsume(k: nat, bytes: seq<Byte>)
    ensures var r := ReadFrameComps(k, bytes); r.Some? ==> 3 * k <= |bytes| && r.value.1 == bytes[3 * k..]
  {
    if k > 0 && |bytes| >= 3 { FrameCompsConsume(k - 1, bytes[3..]); }
  }

  lemma {:induction false} SosCompsConsume(st: State, k: nat, bytes: seq<Byte>)
    requires |st.dcTbl| == |st.acTbl| == |st.frame.comps|
    ensures Consumes(SosComps(st, k, bytes), 2 * k, bytes)
    decreases k
  {
    if k > 0 && |bytes| >= 2 {
      match FindComp(st.frame.comps, bytes[0], 0)
      case None =>
      case Some(ci) =>
        SosCompsConsume(st.(cur := st.cur + [ci], dcTbl := st.dcTbl[ci := bytes[1] / 16], acTbl := st.acTbl[ci := bytes[1] % 16]),
                        k - 1, bytes[2..]);
    }
  }

  /** Markers that are followed by a length and parameters with a meaning. */
  predicate HasParameters(m: Byte) {
    m == SOF0 || m == SOF1 || m == SOF2 || m == SOF9 || m == SOF10 || m == DHT || m == DQT || m == DRI || m == SOS
  }

  /** A segment is accepted only if its length is exactly that of its parameters. */
  lemma LengthHonoured(st: State, m: Byte, bytes: seq<Byte>)
    requires StateOk(st) && HasParameters(m) && Process(st, m, bytes).Got?
    ensures 2 <= |bytes| && Word(bytes) <= |bytes| && Process(st, m, bytes).rest == bytes[Word(bytes)..]
  {
    hide DqtTables, DhtTables, ReadFrameComps, SosComps;
    if m == DQT {
      DqtConsumes(st, Word(bytes) - 2, bytes[2..]);
    } else if m == DHT {
      DhtConsumes(st, Word(bytes) - 2, bytes[2..]);
    } else if m == SOS {
      SosCompsConsume(st.(cur := []), bytes[2], bytes[3..]);
    } else if m != DRI {
      FrameCompsConsume(bytes[7], bytes[8..]);
    }
  }

  predicate Words(q: seq<nat>) {
    forall i :: 0 <= i < |q| ==> q[i] < 0x1_0000
  }

  /** Tables are where the decompressor has room for them, and they fit the tables. */
  ghost predicate TablesFit(st: State) {
    (forall n :: n in st.quant ==> n < 4 && Words(st.quant[n])) &&
    (forall id :: id in st.huff ==> id.no < 4 && Shaped(st.huff[id]))
  }

  lemma {:induction false} QuantFits(k: nat, wide: bool, bytes: seq<Byte>)
    ensures var r := ReadQuant(k, wide, bytes); r.Some? ==> Words(r.value.0)
  {
    if k > 0 && |bytes| >= if wide then 2 else 1 {
      QuantFits(k - 1, wide, bytes[if wide then 2 else 1..]);
    }
  }

  lemma QuantAdded(st: State, n: nat, q: QuantTbl)
    requires TablesFit(st) && n < 4 && Words(q)
    ensures TablesFit(st.(quant := st.quant[n := q]))
  {
  }

  lemma {:induction false} DqtFits(st: State, length: int, bytes: seq<Byte>)
    requires TablesFit(st)
    ensures var r := DqtTables(st, length, bytes); r.Got? ==> TablesFit(r.st)
    decreases |bytes|
  {
    hide ReadQuant;
    if length > 0 && |bytes| >= 1 && bytes[0] % 16 < NUM_QUANT_TBLS {
      var wide, n := bytes[0] / 16 != 0, bytes[0] % 16;
      var r := ReadQuant(64, wide, bytes[1..]);
      QuantFits(64, wide, bytes[1..]);
      if r.Some? {
        QuantAdded(st, n, r.value.0);
        DqtFits(st.(quant := st.quant[n := r.value.0]), length - 65 - if wide then 64 else 0, r.value.1);
      }
    }
  }

  lemma {:induction false} DhtFits(st: State, length: int, bytes: seq<Byte>)
    requires TablesFit(st)
    ensures var r := DhtTables(st, length, bytes); r.Got? ==> TablesFit(r.st)
    decreases |bytes|
  {
    hide Sum;
    if length > 16 && |bytes| >= 17 {
      var count := Sum(bytes[1..17]);
      if count <= 256 && count <= length - 17 && |bytes| >= 17 + count && DefinedTable(bytes[0]).Some? {
        DhtFits(st.(huff := st.huff[DefinedTable(bytes[0]).value := TableFrom(bytes[1..17], bytes[17..17 + count])]),
                length - 17 - count, bytes[17 + count..]);
      }
    }
  }

  /** The components of the scan are components of the frame. */
  predicate InFrame(st: State) {
    forall i :: 0 <= i < |st.cur| ==> st.cur[i] < |st.frame.comps|
  }

  lemma {:induction false} SosTablesKept(st: State, k: nat, bytes: seq<Byte>)
    requires |st.dcTbl| == |st.acTbl| == |st.frame.comps| && InFrame(st)
    ensures var r := SosComps(st, k, bytes);
            r.Got? ==> r.st.quant == st.quant && r.st.huff == st.huff && |r.st.cur| == |st.cur| + k && InFrame(r.st)
    decreases k
  {
    if k > 0 && |bytes| >= 2 {
      match FindComp(st.frame.comps, bytes[0], 0)
      case None =>
      case Some(ci) =>
        SosTablesKept(st.(cur := st.cur + [ci], dcTbl := st.dcTbl[ci := bytes[1] / 16], acTbl := st.acTbl[ci := bytes[1] % 16]),
                      k - 1, bytes[2..]);
    }
  }

  /** What an accepted segment has made of the state. */
  ghost predicate Fits(st: State, st1: State, m: Byte) {
    TablesFit(st1) && (st1.sawSof && !st.sawSof ==> st1.frame.height > 0 && st1.frame.width > 0 && st1.frame.comps != []) &&
    (st.sawSof ==> st1.frame == st.frame) && (m == SOS ==> st1.sawSof && 1 <= |st1.cur| <= 4 && InFrame(st1))
  }

  lemma SofFits(st: State, m: Byte, progressive: bool, arith: bool, bytes: seq<Byte>)
    requires TablesFit(st) && m != SOS && GetSof(st, progressive, arith, bytes).Got?
    ensures Fits(st, GetSof(st, progressive, arith, bytes).st, m)
  {
    hide TablesFit, ReadFrameComps;
    SameFit(st, GetSof(st, progressive, arith, bytes).st);
  }

  lemma SosFits(st: State, bytes: seq<Byte>)
    requires StateOk(st) && TablesFit(st) && GetSos(st, bytes).Got?
    ensures Fits(st, GetSos(st, bytes).st, SOS)
  {
    hide TablesFit, SosComps;
    SosTablesKept(st.(cur := []), bytes[2], bytes[3..]);
    FrameKept(st.(cur := []), bytes[2], bytes[3..]);
    SameFit(st, GetSos(st, bytes).st);
  }

  lemma TablesRead(st: State, bytes: seq<Byte>)
    requires TablesFit(st)
    ensures GetDqt(st, bytes).Got? ==> Fits(st, GetDqt(st, bytes).st, DQT)
    ensures GetDht(st, bytes).Got? ==> Fits(st, GetDht(st, bytes).st, DHT)
  {
    hide TablesFit, DqtTables, DhtTables;
    if |bytes| >= 2 {
      DqtKeeps(st, Word(bytes) - 2, bytes[2..]);
      DqtFits(st, Word(bytes) - 2, bytes[2..]);
      DhtKeeps(st, Word(bytes) - 2, bytes[2..]);
      DhtFits(st, Word(bytes) - 2, bytes[2..]);
    }
  }

  lemma OthersFit(st: State, m: Byte, bytes: seq<Byte>)
    requires TablesFit(st) && m != SOS
    ensures GetDri(st, bytes).Got? ==> Fits(st, GetDri(st, bytes).st, m)
    ensures GetSoi(st, bytes).Got? ==> Fits(st, GetSoi(st, bytes).st, m)
    ensures SkipVariable(st, bytes).Got? ==> Fits(st, SkipVariable(st, bytes).st, m)
    ensures Fits(st, st, m)
  {
    hide TablesFit;
    if GetDri(st, bytes).Got? { SameFit(st, GetDri(st, bytes).st); }
    if GetSoi(st, bytes).Got? { SameFit(st, GetSoi(st, bytes).st); }
  }

  /** No segment puts a table where there is no room; a frame header that is accepted
      describes an image, and is the only one; and a scan that is accepted has one to four
      components. */
  lemma AcceptedFits(st: State, m: Byte, bytes: seq<Byte>)
    requires StateOk(st) && TablesFit(st) && Process(st, m, bytes).Got?
    ensures var st1 := Process(st, m, bytes).st;
            TablesFit(st1) && (st1.sawSof && !st.sawSof ==> st1.frame.height > 0 && st1.frame.width > 0 && st1.frame.comps != []) &&
            (st.sawSof ==> st1.frame == st.frame) && (m == SOS ==> st1.sawSof && 1 <= |st1.cur| <= 4 && InFrame(st1))
  {
    hide GetSof, GetSos, GetDqt, GetDht, GetDri, GetSoi, SkipVariable, TablesFit;
    if m == SOS {
      SosFits(st, bytes);
    } else if m == SOF0 || m == SOF1 || m == SOF2 || m == SOF9 || m == SOF10 {
      SofFits(st, m, m == SOF2 || m == SOF10, m == SOF9 || m == SOF10, bytes);
    } else {
      TablesRead(st, bytes);
      OthersFit(st, m, bytes);
    }
  }

  lemma SameFit(st: State, st1: State)
    requires st1.quant == st.quant && st1.huff == st.huff
    ensures TablesFit(st1) <==> TablesFit(st)
  {
  }

  lemma {:induction false} FrameKept(st: State, k: nat, bytes: seq<Byte>)
    requires |st.dcTbl| == |st.acTbl| == |st.frame.comps|
    ensures var r := SosComps(st, k, bytes); r.Got? ==> r.st.frame == st.frame && r.st.sawSof == st.sawSof
    decreases k
  {
    if k > 0 && |bytes| >= 2 {
      match FindComp(st.frame.comps, bytes[0], 0)
      case None =>
      case Some(ci) =>
        FrameKept(st.(cur := st.cur + [ci], dcTbl := st.dcTbl[ci := bytes[1] / 16], acTbl := st.acTbl[ci := bytes[1] % 16]),
                  k - 1, bytes[2..]);
    }
  }

  /** Whatever the bytes are: if the reader gets to a scan, or to the end of the file, all
      tables fit, and a scan has one to four components of a frame that has been read. */
  lemma {:induction false} WhateverIsRead(st: State, m: Byte, bytes: seq<Byte>)
    requires StateOk(st) && TablesFit(st)
    ensures var r := ReadMarkers(st, m, bytes);
            (r.ReachedSos? || r.ReachedEoi? ==> TablesFit(r.st)) &&
            (r.ReachedSos? ==> r.st.sawSof && 1 <= |r.st.cur| <= 4 && InFrame(r.st))
    decreases |bytes|, if m == 0 then 0 else 1
  {
    hide Process, TablesFit, InFrame, ByteStream.Look;
    if m != 0 && m != EOI {
      var r := Process(st, m, bytes);
      if r.Got? {
        AcceptedFits(st, m, bytes);
        ProcessKeeps(st, m, bytes);
        LookShrinks(r.rest);
        if m != SOS {
          WhateverIsRead(r.st, ByteStream.Look(r.rest).marker, ByteStream.Look(r.rest).rest);
        }
      }
    }
  }
}
