/** The marker reader of jdmarker.c. When the data at hand ends within the parameters of
    a marker, it gives up and reads them again later, over what it has stored already. */
module MarkerReader {
  import opened Wrappers
  import opened Tokens
  import opened ByteStream
  import opened HuffmanCode
  import opened Markers
  import opened MarkerParsing
  import opened BitReading

  // ----- reading again -----

  /** Two maps agree, except perhaps at ks. */
  ghost predicate SameBut<K(!new), V>(a: map<K, V>, b: map<K, V>, ks: set<K>) {
    forall k :: k !in ks ==> (k in a <==> k in b) && (k in a ==> a[k] == b[k])
  }

  /** The Huffman tables that a segment defines. */
  function DhtSlots(length: int, bytes: seq<Byte>): set<TableId>
    decreases |bytes|
  {
    if length <= 16 || |bytes| < 17 then {}
    else
      var count := Sum(bytes[1..17]);
      if count > 256 || count > length - 17 || |bytes| < 17 + count || DefinedTable(bytes[0]).None? then {}
      else {DefinedTable(bytes[0]).value} + DhtSlots(length - 17 - count, bytes[17 + count..])
  }

  lemma {:induction false} DhtAgain(st: State, huff: map<TableId, HuffTbl>, length: int, bytes: seq<Byte>)
    requires SameBut(st.huff, huff, DhtSlots(length, bytes))
    ensures DhtTables(st.(huff := huff), length, bytes) == DhtTables(st, length, bytes)
    decreases |bytes|
  {
    if length <= 16 || |bytes| < 17 {
      assert huff == st.huff;
    } else {
      var count := Sum(bytes[1..17]);
      if count <= 256 && count <= length - 17 && |bytes| >= 17 + count && DefinedTable(bytes[0]).Some? {
        var id, t := DefinedTable(bytes[0]).value, TableFrom(bytes[1..17], bytes[17..17 + count]);
        DhtAgain(st.(huff := st.huff[id := t]), huff[id := t], length - 17 - count, bytes[17 + count..]);
      }
    }
  }

  /** The quantization tables that a segment defines, as far as it goes. */
  function DqtSlots(length: int, bytes: seq<Byte>): set<nat>
    decreases |bytes|
  {
    if length <= 0 || |bytes| < 1 || bytes[0] % 16 >= NUM_QUANT_TBLS then {}
    else
      var wide := bytes[0] / 16 != 0;
      {bytes[0] % 16} +
      match ReadQuant(64, wide, bytes[1..])
      case None => {}
      case Some((_, rest)) => DqtSlots(length - 65 - if wide then 64 else 0, rest)
  }

  lemma {:induction false} DqtAgain(st: State, quant: map<nat, QuantTbl>, length: int, bytes: seq<Byte>)
    requires SameBut(st.quant, quant, DqtSlots(length, bytes))
    ensures DqtTables(st.(quant := quant), length, bytes) == DqtTables(st, length, bytes)
    decreases |bytes|
  {
    if length <= 0 || |bytes| < 1 || bytes[0] % 16 >= NUM_QUANT_TBLS {
      assert quant == st.quant;
    } else {
      var wide, n := bytes[0] / 16 != 0, bytes[0] % 16;
      match ReadQuant(64, wide, bytes[1..])
      case None =>
      case Some((q, rest)) =>
        DqtAgain(st.(quant := st.quant[n := q]), quant[n := q], length - 65 - if wide then 64 else 0, rest);
    }
  }

  /** The components that a list of k names. */
  function SosSlots(comps: seq<FrameComp>, k: nat, bytes: seq<Byte>): set<nat>
    decreases k
  {
    if k == 0 || |bytes| < 2 || FindComp(comps, bytes[0], 0).None? then {}
    else {FindComp(comps, bytes[0], 0).value} + SosSlots(comps, k - 1, bytes[2..])
  }

  /** Table numbers agree, except perhaps those of the components in cs. */
  ghost predicate NumbersBut(st: State, st1: State, cs: set<nat>) {
    |st.dcTbl| == |st.acTbl| == |st.frame.comps| == |st1.dcTbl| == |st1.acTbl| &&
    forall ci :: 0 <= ci < |st.dcTbl| && ci !in cs ==> st1.dcTbl[ci] == st.dcTbl[ci] && st1.acTbl[ci] == st.acTbl[ci]
  }

  lemma {:induction false} SosAgain(st: State, st1: State, k: nat, bytes: seq<Byte>)
    requires st1 == st.(dcTbl := st1.dcTbl, acTbl := st1.acTbl) && NumbersBut(st, st1, SosSlots(st.frame.comps, k, bytes))
    ensures SosComps(st1, k, bytes) == SosComps(st, k, bytes)
    decreases k
  {
    if k == 0 || |bytes| < 2 || FindComp(st.frame.comps, bytes[0], 0).None? {
      assert st1.dcTbl == st.dcTbl && st1.acTbl == st.acTbl;
    } else {
      var ci := FindComp(st.frame.comps, bytes[0], 0).value;
      var td, ta := bytes[1] / 16, bytes[1] % 16;
      SosAgain(st.(cur := st.cur + [ci], dcTbl := st.dcTbl[ci := td], acTbl := st.acTbl[ci := ta]),
               st1.(cur := st1.cur + [ci], dcTbl := st1.dcTbl[ci := td], acTbl := st1.acTbl[ci := ta]), k - 1, bytes[2..]);
    }
  }

  /** More values after those in q. */
  function Joined<X>(q: seq<X>, r: Option<(seq<X>, seq<Byte>)>): Option<(seq<X>, seq<Byte>)> {
    match r
    case None => None
    case Some((q1, rest)) => Some((q + q1, rest))
  }

  lemma QuantStep(q: seq<nat>, k: nat, wide: bool, bytes: seq<Byte>)
    requires k > 0
    ensures var n := if wide then 2 else 1;
            Joined(q, ReadQuant(k, wide, bytes)) ==
            if |bytes| < n then None
            else Joined(q + [if wide then Word(bytes) else bytes[0]], ReadQuant(k - 1, wide, bytes[n..]))
  {
    var n := if wide then 2 else 1;
    if |bytes| >= n {
      match ReadQuant(k - 1, wide, bytes[n..])
      case None =>
      case Some((q1, rest)) =>
        var x := if wide then Word(bytes) else bytes[0];
        assert q + ([x] + q1) == q + [x] + q1;
    }
  }

  // ----- the reader -----

  datatype Reading = Suspend | Fail(error: MarkerError) | Done

  /** What a parameter routine has come to: parsed is the result of reading the source to
      its end, again the same from the state and position it has left. */
  ghost predicate Follows(r: Reading, parsed: Parsed, again: Parsed, st: State, rest: seq<Byte>, all: bool) {
    match r
    case Done => parsed == Got(st, rest) && StateOk(st)
    case Fail(e) => parsed == Bad(e)
    case Suspend => again == parsed && StateOk(st) && (all ==> parsed == Short)
  }

  /** INPUT_BYTE */
  method InputByte(bytes: seq<Byte>, ghost coming: seq<Byte>) returns (ok: bool, c: Byte, rest: seq<Byte>)
    ensures ok <==> bytes != []
    ensures ok ==> bytes + coming == [c] + (rest + coming) && |rest| < |bytes|
    ensures ok ==> (bytes + coming)[0] == c && (bytes + coming)[1..] == rest + coming
  {
    if |bytes| == 0 {
      return false, 0, bytes;
    }
    assert (bytes + coming)[1..] == bytes[1..] + coming;
    return true, bytes[0], bytes[1..];
  }

  /** INPUT_2BYTES */
  method Input2Bytes(bytes: seq<Byte>, ghost coming: seq<Byte>) returns (ok: bool, v: nat, rest: seq<Byte>)
    ensures ok <==> |bytes| >= 2
    ensures ok ==> Word(bytes + coming) == v && (bytes + coming)[2..] == rest + coming && |rest| < |bytes|
  {
    if |bytes| < 2 {
      return false, 0, bytes;
    }
    assert (bytes + coming)[2..] == bytes[2..] + coming;
    return true, bytes[0] as int * 256 + bytes[1], bytes[2..];
  }

  class Reader {
    const src: BitReader
    var sawSoi: bool
    var sawSof: bool
    var arith: bool
    var frame: Frame
    var quant: map<nat, QuantTbl>
    var huff: map<TableId, HuffTbl>
    var ri: nat
    var dcTbl: seq<nat>
    var acTbl: seq<nat>
    var cur: seq<nat>
    var Ss: nat
    var Se: nat
    var Ah: nat
    var Al: nat

    ghost function Now(): State
      reads this
    {
      State(sawSoi, sawSof, arith, frame, quant, huff, ri, dcTbl, acTbl, cur, Ss, Se, Ah, Al)
    }

    /** Before a file is read. */
    constructor (source: BitReader)
      ensures src == source && Now() == NoState()
    {
      src := source;
      sawSoi, sawSof, arith, frame := false, false, false, Frame(false, 0, 0, 0, []);
      quant, huff, ri := map[], map[], 0;
      dcTbl, acTbl, cur, Ss, Se, Ah, Al := [], [], [], 0, 0, 0, 0;
    }

    /** get_soi */
    method DoSoi() returns (r: Reading)
      requires StateOk(Now())
      modifies this`ri, this`sawSoi
      ensures Follows(r, MarkerParsing.GetSoi(old(Now()), src.Rest()), MarkerParsing.GetSoi(Now(), src.Rest()), Now(), src.Rest(), src.coming == [])
      ensures !r.Suspend?
    {
      if sawSoi {
        return Fail(SoiDuplicate);
      }
      ri, sawSoi := 0, true;
      return Done;
    }

    /** get_dri */
    method DoDri() returns (r: Reading)
      requires StateOk(Now())
      modifies this`ri, src`input
      ensures Follows(r, GetDri(old(Now()), old(src.Rest())), GetDri(Now(), src.Rest()), Now(), src.Rest(), src.coming == [])
      ensures r.Suspend? ==> src.input == old(src.input)
    {
      hide Word;
      var ok, length, bytes := Input2Bytes(src.input, src.coming);
      if !ok { return Suspend; }
      if length != 4 {
        return Fail(BadLength);
      }
      var tmp: nat;
      assert (src.Rest())[2..] == bytes + src.coming;
      ok, tmp, bytes := Input2Bytes(bytes, src.coming);
      if !ok { return Suspend; }
      assert src.Rest()[2..][2..] == src.Rest()[4..];
      ri := tmp;
      src.input := bytes;
      return Done;
    }

    /** One table of a DHT segment of which length bytes are left. */
    method OneHuff(length: int, bytes: seq<Byte>) returns (r: Reading, length1: int, bytes1: seq<Byte>)
      requires length > 16
      modifies this`huff
      ensures r.Suspend? ==> huff == old(huff) && (src.coming == [] ==> DhtTables(Now(), length, bytes + src.coming) == Short)
      ensures r.Fail? ==> DhtTables(old(Now()), length, bytes + src.coming) == Bad(r.error)
      ensures r.Done? ==> |bytes1| < |bytes| && SameBut(old(huff), huff, DhtSlots(length, bytes + src.coming))
      ensures r.Done? ==> DhtTables(Now(), length1, bytes1 + src.coming) == DhtTables(old(Now()), length, bytes + src.coming)
      ensures r.Done? ==> DhtSlots(length1, bytes1 + src.coming) <= DhtSlots(length, bytes + src.coming)
    {
      ghost var here := bytes + src.coming;
      r, length1, bytes1 := Suspend, length, bytes;
      if |bytes| < 17 {
        return;
      }
      var counts := bytes[1..17];
      assert here[1..17] == counts && here[0] == bytes[0];
      var count := AddCounts(counts);
      if count > 256 || count > length - 17 {
        r := Fail(BadHuffTable);
        return;
      }
      if |bytes| < 17 + count {
        return;
      }
      var symbols := bytes[17..17 + count];
      assert here[17..17 + count] == symbols && here[17 + count..] == bytes[17 + count..] + src.coming;
      var id := DefinedTable(bytes[0]);
      if id.None? {
        r := Fail(DhtIndex);
        return;
      }
      huff := huff[id.value := TableFrom(counts, symbols)];
      r, length1, bytes1 := Done, length - 17 - count, bytes[17 + count..];
    }

    /** get_dht */
    method DoDht() returns (r: Reading)
      requires StateOk(Now())
      modifies this`huff, src`input
      ensures Follows(r, GetDht(old(Now()), old(src.Rest())), GetDht(Now(), src.Rest()), Now(), src.Rest(), src.coming == [])
      ensures r.Suspend? ==> src.input == old(src.input)
    {
      hide Word, DhtTables, DhtSlots, SameBut;
      var ok, word, bytes := Input2Bytes(src.input, src.coming);
      if !ok { return Suspend; }
      var length: int := word as int - 2;
      ghost var st, whole := Now(), bytes + src.coming;
      ghost var slots := DhtSlots(length, whole);
      SameAtFirst(huff, slots);
      r := Done;
      while length > 16
        invariant src.input == old(src.input) && StateOk(Now())
        invariant Now() == st.(huff := huff) && DhtTables(Now(), length, bytes + src.coming) == DhtTables(st, word as int - 2, whole)
        invariant DhtSlots(length, bytes + src.coming) <= slots && SameBut(st.huff, huff, slots)
        decreases |bytes|
      {
        ghost var before, here := huff, DhtSlots(length, bytes + src.coming);
        r, length, bytes := OneHuff(length, bytes);
        if r.Suspend? {
          DhtAgain(st, huff, word as int - 2, whole);
        }
        if !r.Done? { return; }
        SameStill(st.huff, before, huff, here, slots);
      }
      DhtDone(Now(), length, bytes + src.coming);
      if length != 0 {
        return Fail(BadLength);
      }
      src.input := bytes;
      return Done;
    }

    /** The entries of one quantization table, stored as they come. */
    method ReadEntries(n: nat, wide: bool, bytes0: seq<Byte>) returns (ok: bool, bytes: seq<Byte>)
      requires n in quant
      modifies this`quant
      ensures quant.Keys == old(quant).Keys && SameBut(old(quant), quant, {n})
      ensures ok ==> ReadQuant(64, wide, bytes0 + src.coming) == Some((quant[n], bytes + src.coming)) && |bytes| <= |bytes0|
      ensures !ok && src.coming == [] ==> ReadQuant(64, wide, bytes0 + src.coming) == None
    {
      hide Word, ReadQuant;
      bytes, ok := bytes0, true;
      ghost var all := ReadQuant(64, wide, bytes0 + src.coming);
      JoinedNone(all);
      for i := 0 to 64
        invariant quant.Keys == old(quant).Keys && SameBut(old(quant), quant, {n})
        invariant all == Joined(quant[n][..i], ReadQuant(64 - i, wide, bytes + src.coming)) && |bytes| <= |bytes0|
      {
        QuantStep(quant[n][..i], 64 - i, wide, bytes + src.coming);
        var tmp: nat;
        if wide {
          ok, tmp, bytes := Input2Bytes(bytes, src.coming);
        } else {
          ok, tmp, bytes := InputByte(bytes, src.coming);
        }
        if !ok { return; }
        var q: QuantTbl := quant[n][i := tmp];
        assert q[..i + 1] == quant[n][..i] + [tmp];
        quant := quant[n := q];
      }
      NoMore(wide, bytes + src.coming);
      assert quant[n][..64] + [] == quant[n];
    }

    /** The same, for a table that may not have been allocated. */
    method FillQuant(n: nat, wide: bool, bytes0: seq<Byte>) returns (ok: bool, bytes: seq<Byte>)
      modifies this`quant
      ensures n in quant && quant == old(quant)[n := quant[n]]
      ensures ok ==> ReadQuant(64, wide, bytes0 + src.coming) == Some((quant[n], bytes + src.coming)) && |bytes| <= |bytes0|
      ensures !ok && src.coming == [] ==> ReadQuant(64, wide, bytes0 + src.coming) == None
    {
      hide ReadQuant;
      if n !in quant {
        var q: QuantTbl := seq(64, _ => 0);
        quant := quant[n := q];
      }
      ok, bytes := ReadEntries(n, wide, bytes0);
    }

    /** One table of a DQT segment of which length bytes are left. */
    method OneQuant(length: int, bytes: seq<Byte>) returns (r: Reading, length1: int, bytes1: seq<Byte>)
      requires length > 0
      modifies this`quant
      ensures !r.Fail? ==> SameBut(old(quant), quant, DqtSlots(length, bytes + src.coming))
      ensures r.Suspend? && src.coming == [] ==> DqtTables(old(Now()), length, bytes + src.coming) == Short
      ensures r.Fail? ==> DqtTables(old(Now()), length, bytes + src.coming) == Bad(r.error)
      ensures r.Done? ==> |bytes1| < |bytes|
      ensures r.Done? ==> DqtTables(Now(), length1, bytes1 + src.coming) == DqtTables(old(Now()), length, bytes + src.coming)
      ensures r.Done? ==> DqtSlots(length1, bytes1 + src.coming) <= DqtSlots(length, bytes + src.coming)
    {
      hide Word, ReadQuant, DqtTables, DqtSlots, SameBut;
      SameAtFirst(quant, DqtSlots(length, bytes + src.coming));
      r, length1 := Suspend, length;
      ghost var st := Now();
      DqtStep(st, length, bytes + src.coming);
      var ok, c: Byte;
      ok, c, bytes1 := InputByte(bytes, src.coming);
      if !ok { return; }
      var prec, n := c / 16, c % 16;
      if n >= NUM_QUANT_TBLS {
        r := Fail(DqtIndex);
        return;
      }
      ok, bytes1 := FillQuant(n, prec != 0, bytes1);
      SameButOne<nat, QuantTbl>(st.quant, n, quant[n], DqtSlots(length, bytes + src.coming));
      if !ok { return; }
      assert Now() == st.(quant := quant);
      r, length1 := Done, length - 65 - if prec != 0 then 64 else 0;
    }

    /** get_dqt */
    method DoDqt() returns (r: Reading)
      requires StateOk(Now())
      modifies this`quant, src`input
      ensures Follows(r, GetDqt(old(Now()), old(src.Rest())), GetDqt(Now(), src.Rest()), Now(), src.Rest(), src.coming == [])
      ensures r.Suspend? ==> src.input == old(src.input)
    {
      hide Word, DqtTables, DqtSlots, SameBut;
      var ok, word, bytes := Input2Bytes(src.input, src.coming);
      if !ok { return Suspend; }
      var length: int := word as int - 2;
      ghost var st, whole := Now(), bytes + src.coming;
      ghost var slots := DqtSlots(length, whole);
      SameAtFirst(quant, slots);
      r := Done;
      while length > 0
        invariant src.input == old(src.input) && StateOk(Now())
        invariant Now() == st.(quant := quant) && DqtTables(Now(), length, bytes + src.coming) == DqtTables(st, word as int - 2, whole)
        invariant DqtSlots(length, bytes + src.coming) <= slots && SameBut(st.quant, quant, slots)
        decreases |bytes|
      {
        ghost var before, here := quant, DqtSlots(length, bytes + src.coming);
        r, length, bytes := OneQuant(length, bytes);
        if r.Fail? { return; }
        SameStill(st.quant, before, quant, here, slots);
        if r.Suspend? {
          DqtAgain(st, quant, word as int - 2, whole);
          return;
        }
      }
      DqtDone(Now(), length, bytes + src.coming);
      if length != 0 {
        return Fail(BadLength);
      }
      src.input := bytes;
      return Done;
    }

    // ----- get_sof -----

    /** The components of a frame, stored as they come. */
    method ReadComps(bytes0: seq<Byte>) returns (ok: bool, bytes: seq<Byte>)
      modifies this`frame
      ensures frame == old(frame).(comps := frame.comps) && |frame.comps| == |old(frame).comps|
      ensures ok ==> ReadFrameComps(|frame.comps|, bytes0 + src.coming) == Some((frame.comps, bytes + src.coming))
      ensures !ok && src.coming == [] ==> ReadFrameComps(|frame.comps|, bytes0 + src.coming) == None
    {
      hide ReadFrameComps;
      bytes, ok := bytes0, true;
      ghost var n := |frame.comps|;
      ghost var all := ReadFrameComps(n, bytes0 + src.coming);
      JoinedNone(all);
      for ci := 0 to |frame.comps|
        invariant frame == old(frame).(comps := frame.comps) && |frame.comps| == n
        invariant all == Joined(frame.comps[..ci], ReadFrameComps(n - ci, bytes + src.coming))
      {
        CompStep(frame.comps[..ci], n - ci, bytes + src.coming);
        if |bytes| < 3 {
          ok := false;
          return;
        }
        ghost var here := bytes + src.coming;
        assert here[3..] == bytes[3..] + src.coming;
        var c := FrameComp(bytes[0], bytes[1] / 16, bytes[1] % 16, bytes[2]);
        assert frame.comps[ci := c][..ci + 1] == frame.comps[..ci] + [c];
        frame := frame.(comps := frame.comps[ci := c]);
        bytes := bytes[3..];
      }
      NoMoreComps(bytes + src.coming);
      assert frame.comps[..n] + [] == frame.comps;
    }

    /** The same, for n components that may not have been allocated. */
    method StoreComps(n: nat, bytes0: seq<Byte>) returns (ok: bool, bytes: seq<Byte>)
      modifies this`frame, this`dcTbl, this`acTbl
      ensures dcTbl == acTbl == NoTables(n) && |frame.comps| == n
      ensures frame.(comps := []) == old(frame).(comps := [])
      ensures ok ==> ReadFrameComps(n, bytes0 + src.coming) == Some((frame.comps, bytes + src.coming))
      ensures !ok && src.coming == [] ==> ReadFrameComps(n, bytes0 + src.coming) == None
    {
      hide ReadFrameComps, NoTables;
      if |frame.comps| != n {
        frame := frame.(comps := seq(n, _ => FrameComp(0, 0, 0, 0)));
      }
      dcTbl, acTbl := NoTables(n), NoTables(n);
      ok, bytes := ReadComps(bytes0);
    }

    /** get_sof, from the components on. */
    method SofRest(n: nat, length: int, bytes0: seq<Byte>) returns (r: Reading)
      requires StateOk(Now())
      modifies this`frame, this`sawSof, this`dcTbl, this`acTbl, src`input
      ensures !r.Done? ==> src.input == old(src.input) && Now() == old(Now()).(frame := frame, dcTbl := dcTbl, acTbl := acTbl)
      ensures !r.Fail? ==> StateOk(Now())
      ensures var parsed := SofComps(old(Now()), arith, old(frame).(comps := []), length, n, bytes0 + src.coming);
              match r
              case Fail(e) => parsed == Bad(e)
              case Suspend => src.coming == [] ==> parsed == Short
              case Done => parsed == Got(Now(), src.Rest())
    {
      hide ReadFrameComps, SofComps, NoTables;
      SofCompsAre(Now(), arith, frame.(comps := []), length, n, bytes0 + src.coming);
      if sawSof {
        return Fail(SofDuplicate);
      }
      if frame.height <= 0 || frame.width <= 0 || n <= 0 {
        return Fail(EmptyImage);
      }
      if length != n * 3 {
        return Fail(BadLength);
      }
      var ok, bytes := StoreComps(n, bytes0);
      if !ok {
        return Suspend;
      }
      sawSof := true;
      src.input := bytes;
      return Done;
    }

    /** The frame parameters, as far as they are there. */
    method FrameParams(progressive: bool, isArith: bool, input: seq<Byte>)
      modifies this`arith, this`frame
      ensures arith == isArith && frame.comps == old(frame).comps
      ensures |input| >= 8 ==>
        frame.(comps := []) == Frame(progressive, input[2], Word(input[3..]), Word(input[5..]), [])
    {
      frame := frame.(progressive := progressive);
      arith := isArith;
      if |input| >= 3 { frame := frame.(precision := input[2]); }
      if |input| >= 5 { frame := frame.(height := Word(input[3..])); }
      if |input| >= 7 { frame := frame.(width := Word(input[5..])); }
    }

    /** get_sof */
    method DoSof(progressive: bool, isArith: bool) returns (r: Reading)
      requires StateOk(Now())
      modifies this`arith, this`frame, this`sawSof, this`dcTbl, this`acTbl, src`input
      ensures Follows(r, GetSof(old(Now()), progressive, isArith, old(src.Rest())), GetSof(Now(), progressive, isArith, src.Rest()),
                      Now(), src.Rest(), src.coming == [])
      ensures r.Suspend? ==> src.input == old(src.input)
    {
      hide SofComps, Word, GetSof;
      ghost var st := Now();
      var input := src.input;
      FrameParams(progressive, isArith, input);
      SofHead(st, progressive, isArith, input, src.coming);
      if |input| < 8 {
        r := Suspend;
      } else {
        SofCompsSame(st, Now(), frame.(comps := []), Word(input) as int - 8, input[7], input[8..] + src.coming);
        r := SofRest(input[7], Word(input) as int - 8, input[8..]);
      }
      if r.Suspend? {
        SofAgain(st, Now(), progressive, isArith, src.Rest());
      }
    }

    // ----- get_sos -----

    method Find(id: nat) returns (r: Option<nat>)
      ensures r == FindComp(frame.comps, id, 0)
    {
      for ci := 0 to |frame.comps|
        invariant FindComp(frame.comps, id, 0) == FindComp(frame.comps, id, ci)
      {
        if id == frame.comps[ci].id {
          return Some(ci);
        }
      }
      return None;
    }

    method AssignComp(ci: nat, td: nat, ta: nat)
      requires ci < |dcTbl| == |acTbl|
      modifies this`cur, this`dcTbl, this`acTbl
      ensures Now() == old(Now().(cur := cur + [ci], dcTbl := dcTbl[ci := td], acTbl := acTbl[ci := ta]))
    {
      cur := cur + [ci];
      dcTbl := dcTbl[ci := td];
      acTbl := acTbl[ci := ta];
    }

    /** The component list of a scan header. */
    method ScanComps(n: nat, bytes0: seq<Byte>) returns (r: Reading, bytes: seq<Byte>)
      requires |dcTbl| == |acTbl| == |frame.comps|
      modifies this`cur, this`dcTbl, this`acTbl
      ensures !r.Fail? ==> NumbersBut(old(Now()), Now(), SosSlots(frame.comps, n, bytes0 + src.coming))
      ensures r.Fail? ==> SosComps(old(Now()), n, bytes0 + src.coming) == Bad(r.error)
      ensures r.Suspend? && src.coming == [] ==> SosComps(old(Now()), n, bytes0 + src.coming) == Short
      ensures r.Done? ==> SosComps(old(Now()), n, bytes0 + src.coming) == Got(Now(), bytes + src.coming)
    {
      hide FindComp, SosComps, SosSlots, NumbersBut;
      bytes, r := bytes0, Done;
      ghost var st, slots := Now(), SosSlots(frame.comps, n, bytes0 + src.coming);
      NumbersAtFirst(st, slots);
      for i := 0 to n
        invariant Now() == st.(cur := cur, dcTbl := dcTbl, acTbl := acTbl) && |dcTbl| == |acTbl| == |frame.comps|
        invariant NumbersBut(st, Now(), slots) && SosSlots(frame.comps, n - i, bytes + src.coming) <= slots
        invariant SosComps(st, n, bytes0 + src.coming) == SosComps(Now(), n - i, bytes + src.coming)
      {
        SosStep(Now(), n - i, bytes, src.coming);
        if |bytes| < 2 {
          r := Suspend;
          return;
        }
        var ci := Find(bytes[0]);
        if ci.None? {
          r := Fail(BadComponentId);
          return;
        }
        NumbersStill(st, Now(), slots, ci.value, bytes[1] / 16, bytes[1] % 16, cur + [ci.value]);
        AssignComp(ci.value, bytes[1] / 16, bytes[1] % 16);
        bytes := bytes[2..];
      }
      SosEnd(Now(), bytes + src.coming);
    }

    /** The rest of a scan header. */
    method ScanBand(bytes: seq<Byte>) returns (r: Reading)
      modifies this`Ss, this`Se, this`Ah, this`Al, src`input
      ensures !r.Fail? && Now() == old(Now()).(Ss := Ss, Se := Se, Ah := Ah, Al := Al)
      ensures r.Done? ==> SosBand(Got(old(Now()), bytes + src.coming)) == Got(Now(), src.Rest())
      ensures r.Suspend? ==> src.input == old(src.input)
      ensures r.Suspend? && src.coming == [] ==> SosBand(Got(old(Now()), bytes + src.coming)) == Short
    {
      if |bytes| >= 1 { Ss := bytes[0]; }
      if |bytes| >= 2 { Se := bytes[1]; }
      if |bytes| < 3 {
        return Suspend;
      }
      Ah, Al := bytes[2] / 16, bytes[2] % 16;
      assert (bytes + src.coming)[3..] == bytes[3..] + src.coming;
      src.input := bytes[3..];
      return Done;
    }

    /** get_sos */
    method DoSos() returns (r: Reading)
      requires StateOk(Now())
      modifies this`cur, this`dcTbl, this`acTbl, this`Ss, this`Se, this`Ah, this`Al, src`input
      ensures Follows(r, GetSos(old(Now()), old(src.Rest())), if StateOk(Now()) then GetSos(Now(), src.Rest()) else Short,
                      Now(), src.Rest(), src.coming == [])
      ensures r.Suspend? ==> src.input == old(src.input)
    {
      hide SosComps, SosSlots, NumbersBut, Word, SosBand;
      ghost var st := Now();
      if !sawSof {
        return Fail(SosNoSof);
      }
      var input := src.input;
      if |input| < 3 {
        return Suspend;
      }
      var length, n: nat := Word(input), input[2];
      SosHead(input, src.coming);
      if length != n * 2 + 6 || n < 1 || n > 4 {
        return Fail(BadLength);
      }
      cur := [];
      var bytes: seq<Byte>;
      r, bytes := ScanComps(n, input[3..]);
      BandShort();
      if r.Done? {
        ghost var st1 := Now();
        r := ScanBand(bytes);
        NumbersMore(st.(cur := []), st1, Now(), SosSlots(frame.comps, n, input[3..] + src.coming));
      }
      if r.Suspend? {
        NumbersOf(st, Now(), SosSlots(frame.comps, n, input[3..] + src.coming));
        SosAgainAll(st, Now(), src.Rest());
      }
    }

    // ----- read_markers -----

    /** skip_variable. What has not been delivered yet is left to the source, which has to
        drop skip bytes of what comes next. */
    method DoSkip() returns (r: Reading, skip: nat)
      requires StateOk(Now())
      modifies src`input, src`coming
      ensures r.Suspend? ==> skip == 0
      ensures src.coming == Drop(old(src.coming), skip)
      ensures Follows(r, SkipVariable(old(Now()), old(src.Rest())), SkipVariable(Now(), src.Rest()), Now(), src.Rest(), src.coming == [])
      ensures r.Suspend? ==> src.input == old(src.input)
    {
      hide Word;
      skip := 0;
      var ok, length, bytes := Input2Bytes(src.input, src.coming);
      if !ok {
        return Suspend, 0;
      }
      ghost var coming, whole := src.coming, src.Rest();
      src.input := bytes;
      if length > 2 {
        var n := length - 2;
        if n <= |bytes| {
          src.input := bytes[n..];
        } else {
          skip := n - |bytes|;
          src.input := [];
          src.coming := Drop(coming, skip);
        }
        SkipIs(whole, bytes, coming, n);
      }
      return Done, skip;
    }

    /** One marker, other than EOI, with its parameters. */
    method DoMarker(m: Byte) returns (r: Reading, skip: nat)
      requires StateOk(Now())
      modifies this, src`input, src`coming
      ensures src.coming == Drop(old(src.coming), skip) && (r.Suspend? ==> skip == 0) && (!r.Fail? ==> StateOk(Now()))
      ensures Follows(r, Process(old(Now()), m, old(src.Rest())), if StateOk(Now()) then Process(Now(), m, src.Rest()) else Short,
                      Now(), src.Rest(), src.coming == [])
      ensures r.Suspend? ==> src.input == old(src.input) && sawSoi == old(sawSoi)
    {
      hide GetSoi, GetSof, GetSos, GetDht, GetDqt, GetDri, SkipVariable;
      skip := 0;
      if m == SOI {
        r := DoSoi();
      } else if m == SOF0 || m == SOF1 {
        r := DoSof(false, false);
      } else if m == SOF2 {
        r := DoSof(true, false);
      } else if m == SOF9 {
        r := DoSof(false, true);
      } else if m == SOF10 {
        r := DoSof(true, true);
      } else if 0xC3 <= m <= 0xCF && m != DHT && m != DAC {
        r := Fail(SofUnsupported);
      } else if m == SOS {
        r := DoSos();
      } else if m == DHT {
        r := DoDht();
      } else if m == DQT {
        r := DoDqt();
      } else if m == DRI {
        r := DoDri();
      } else if m == DAC || m == DNL || m == COM || APP0 <= m <= APP15 {
        r, skip := DoSkip();
      } else if RST0 <= m <= RST7 || m == TEM {
        r := Done;
      } else {
        r := Fail(UnknownMarker);
      }
    }

    /** Nothing comes before SOI. */
    ghost predicate MarkerInTurn()
      reads this, src
    {
      src.unreadMarker == 0 || sawSoi || src.unreadMarker == SOI
    }

    /** What reading the source to its end comes to. */
    ghost function Total(): Outcome
      requires StateOk(Now())
      reads this, src
    {
      if src.unreadMarker != 0 then ReadMarkers(Now(), src.unreadMarker, src.Rest())
      else if sawSoi then Reads(Now(), src.Rest())
      else ReadsFirst(Now(), src.Rest())
    }

    /** first_marker */
    method FirstMarker() returns (r: Reading)
      requires StateOk(Now()) && src.unreadMarker == 0
      modifies src`input, src`unreadMarker
      ensures r.Done? ==>
        src.unreadMarker == SOI && ReadsFirst(Now(), old(src.Rest())) == ReadMarkers(Now(), SOI, src.Rest()) &&
        |src.Rest()| < |old(src.Rest())|
      ensures r.Fail? ==> ReadsFirst(Now(), old(src.Rest())) == Failed(r.error)
      ensures r.Suspend? ==> src.input == old(src.input) && src.unreadMarker == 0
      ensures r.Suspend? && src.coming == [] ==> ReadsFirst(Now(), src.Rest()) == Outcome.Suspended
    {
      hide ReadMarkers;
      var input := src.input;
      if |input| < 2 {
        return Suspend;
      }
      assert (input + src.coming)[2..] == input[2..] + src.coming;
      if input[0] != 0xFF || input[1] != SOI {
        return Fail(NoSoi);
      }
      src.unreadMarker := SOI;
      src.input := input[2..];
      return Done;
    }

    /** The next marker of the file, unless it has been found already. */
    method FindMarker() returns (r: Reading)
      requires StateOk(Now())
      modifies src`input, src`unreadMarker
      ensures Now() == old(Now()) && (!r.Fail? && old(MarkerInTurn()) ==> MarkerInTurn())
      ensures r.Done? ==>
        src.unreadMarker != 0 && Total() == old(Total()) &&
        |src.Rest()| + (if old(src.unreadMarker) == 0 then 1 else 0) <= |old(src.Rest())|
      ensures r.Fail? ==> old(Total()) == Failed(r.error)
      ensures r.Suspend? ==> Total() == old(Total())
      ensures r.Suspend? && src.coming == [] ==> old(Total()) == Outcome.Suspended
    {
      hide ReadMarkers, Look;
      if src.unreadMarker != 0 {
        return Done;
      }
      ghost var whole := src.Rest();
      if !sawSoi {
        r := FirstMarker();
      } else {
        LookShrinks(whole);
        var ok, _ := src.NextMarker(0);
        r := if ok then Done else Suspend;
        if !ok {
          NoMarker(Now(), src.Rest());
          assert src.coming == [] ==> src.input + src.coming == src.input;
        } else {
          assert src.Rest() == Look(whole).rest;
        }
      }
    }

    /** read_markers: up to the data of the next scan, or to the end of the file. */
    method ReadUntilScan() returns (r: Found, skip: nat)
      requires StateOk(Now()) && MarkerInTurn()
      modifies this, src`input, src`coming, src`unreadMarker
      ensures src.coming == Drop(old(src.coming), skip) && (!r.Failure? ==> StateOk(Now()) && MarkerInTurn())
      ensures r.AtScan? ==> src.unreadMarker == 0 && sawSoi && old(Total()) == ReachedSos(Now(), src.Rest())
      ensures r.AtEnd? ==> src.unreadMarker == 0 && old(Total()) == ReachedEoi(Now(), src.Rest())
      ensures r.Failure? ==> old(Total()) == Failed(r.error)
      ensures r.Nothing? ==> Total() == old(Total()) && (src.coming == [] ==> old(Total()) == Outcome.Suspended)
    {
      hide Process, Look, StateOk;
      skip := 0;
      while true
        invariant StateOk(Now()) && MarkerInTurn() && Total() == old(Total())
        invariant src.coming == Drop(old(src.coming), skip)
        decreases |src.Rest()| + if src.unreadMarker != 0 then 1 else 0
      {
        var found := FindMarker();
        if found.Suspend? {
          return Nothing, skip;
        } else if found.Fail? {
          return Failure(found.error), skip;
        }
        var m := src.unreadMarker;
        if m == EOI {
          src.unreadMarker := 0;
          return AtEnd, skip;
        }
        ghost var st, rest := Now(), src.Rest();
        ProcessKeeps(st, m, rest);
        var done: Reading, more: nat;
        done, more := DoMarker(m);
        AddDrop(old(src.coming), skip, more);
        skip := skip + more;
        if done.Suspend? {
          Repeated(st, Now(), m, rest);
          return Nothing, skip;
        } else if done.Fail? {
          return Failure(done.error), skip;
        }
        AfterMarker(st, m, rest);
        src.unreadMarker := 0;
        if m == SOS {
          return AtScan, skip;
        }
      }
    }
  }

  datatype Found = Nothing | AtScan | AtEnd | Failure(error: MarkerError)

  lemma AddDrop(bytes: seq<Byte>, m: nat, n: nat)
    ensures Drop(Drop(bytes, m), n) == Drop(bytes, m + n)
  {
  }

  /** Giving up in the middle of a marker changes nothing. */
  lemma Repeated(st: State, st1: State, m: Byte, bytes: seq<Byte>)
    requires StateOk(st) && StateOk(st1) && m != 0 && Process(st1, m, bytes) == Process(st, m, bytes)
    ensures ReadMarkers(st1, m, bytes) == if m == EOI then ReachedEoi(st1, bytes) else ReadMarkers(st, m, bytes)
    ensures Process(st, m, bytes) == Short && m != EOI ==> ReadMarkers(st, m, bytes) == Outcome.Suspended
  {
    hide Process, Look;
  }

  lemma AfterMarker(st: State, m: Byte, bytes: seq<Byte>)
    requires StateOk(st) && m != 0 && m != EOI
    ensures var r := Process(st, m, bytes);
            r.Got? ==>
              StateOk(r.st) && |r.rest| <= |bytes| && (st.sawSoi || m == SOI ==> r.st.sawSoi) &&
              ReadMarkers(st, m, bytes) == if m == SOS then ReachedSos(r.st, r.rest) else Reads(r.st, r.rest)
    ensures Process(st, m, bytes).Bad? ==> ReadMarkers(st, m, bytes) == Failed(Process(st, m, bytes).error)
  {
    ProcessKeeps(st, m, bytes);
    hide Process, Look;
  }

  /** The bytes after the first n, if there are any. */
  function Drop(bytes: seq<Byte>, n: nat): seq<Byte> {
    if n <= |bytes| then bytes[n..] else []
  }

  lemma SkipIs(whole: seq<Byte>, bytes: seq<Byte>, coming: seq<Byte>, n: nat)
    requires |whole| >= 2 && whole[2..] == bytes + coming
    ensures var rest := if n <= |bytes| then bytes[n..] + coming else Drop(coming, n - |bytes|);
            (if |whole| < n + 2 then [] else whole[n + 2..]) == rest && [] + rest == rest
  {
    if |whole| >= n + 2 {
      assert whole[n + 2..] == whole[2..][n..];
    }
  }

  lemma NoMarker(st: State, bytes: seq<Byte>)
    requires StateOk(st)
    ensures Look(bytes).marker == 0 ==> Reads(st, bytes) == Outcome.Suspended
  {
  }

  lemma SosHead(input: seq<Byte>, coming: seq<Byte>)
    requires |input| >= 3
    ensures var whole := input + coming;
            Word(whole) == Word(input) && whole[2] == input[2] && whole[3..] == input[3..] + coming
  {
  }

  lemma BandShort()
    ensures SosBand(Short) == Short && forall e :: SosBand(Bad(e)) == Bad(e)
  {
  }

  lemma NumbersAtFirst(st: State, cs: set<nat>)
    requires |st.dcTbl| == |st.acTbl| == |st.frame.comps|
    ensures NumbersBut(st, st, cs)
  {
  }

  lemma NumbersStill(st: State, st1: State, cs: set<nat>, ci: nat, td: nat, ta: nat, cur: seq<nat>)
    requires NumbersBut(st, st1, cs) && ci in cs && ci < |st1.dcTbl|
    ensures NumbersBut(st, st1.(cur := cur, dcTbl := st1.dcTbl[ci := td], acTbl := st1.acTbl[ci := ta]), cs)
  {
  }

  lemma NumbersMore(st: State, st1: State, st2: State, cs: set<nat>)
    requires NumbersBut(st, st1, cs) && st2.dcTbl == st1.dcTbl && st2.acTbl == st1.acTbl
    ensures NumbersBut(st, st2, cs)
  {
  }

  lemma NumbersOf(st: State, st1: State, cs: set<nat>)
    requires NumbersBut(st.(cur := []), st1, cs)
    ensures NumbersBut(st, st1, cs)
  {
  }

  /** The first component of a list of k. */
  lemma SosStep(st: State, k: nat, bytes: seq<Byte>, coming: seq<Byte>)
    requires k > 0 && |st.dcTbl| == |st.acTbl| == |st.frame.comps|
    ensures |bytes + coming| < 2 ==> SosComps(st, k, bytes + coming) == Short
    ensures |bytes| >= 2 ==>
      match FindComp(st.frame.comps, bytes[0], 0)
      case None => SosComps(st, k, bytes + coming) == Bad(BadComponentId)
      case Some(ci) =>
        var st1 := st.(cur := st.cur + [ci], dcTbl := st.dcTbl[ci := bytes[1] / 16], acTbl := st.acTbl[ci := bytes[1] % 16]);
        SosComps(st, k, bytes + coming) == SosComps(st1, k - 1, bytes[2..] + coming) &&
        ci in SosSlots(st.frame.comps, k, bytes + coming) &&
        SosSlots(st.frame.comps, k - 1, bytes[2..] + coming) <= SosSlots(st.frame.comps, k, bytes + coming)
  {
    hide FindComp;
    if |bytes| >= 2 {
      assert (bytes + coming)[2..] == bytes[2..] + coming;
    }
  }

  lemma SosEnd(st: State, bytes: seq<Byte>)
    requires |st.dcTbl| == |st.acTbl| == |st.frame.comps|
    ensures SosComps(st, 0, bytes) == Got(st, bytes)
  {
  }

  /** Only what is not overwritten matters. */
  lemma SofCompsSame(st: State, st1: State, f: Frame, length: int, n: nat, bytes: seq<Byte>)
    requires st1 == st.(arith := st1.arith, frame := st1.frame)
    ensures SofComps(st1, st1.arith, f, length, n, bytes) == SofComps(st, st1.arith, f, length, n, bytes)
  {
    hide ReadFrameComps;
  }

  lemma CompStep(q: seq<FrameComp>, k: nat, bytes: seq<Byte>)
    requires k > 0
    ensures Joined(q, ReadFrameComps(k, bytes)) ==
            if |bytes| < 3 then None
            else Joined(q + [FrameComp(bytes[0], bytes[1] / 16, bytes[1] % 16, bytes[2])], ReadFrameComps(k - 1, bytes[3..]))
  {
    if |bytes| >= 3 {
      match ReadFrameComps(k - 1, bytes[3..])
      case None =>
      case Some((q1, rest)) =>
        var x := FrameComp(bytes[0], bytes[1] / 16, bytes[1] % 16, bytes[2]);
        assert q + ([x] + q1) == q + [x] + q1;
    }
  }

  lemma NoMoreComps(bytes: seq<Byte>)
    ensures ReadFrameComps(0, bytes) == Some(([], bytes))
  {
  }

  lemma SofCompsAre(st: State, arith: bool, f: Frame, length: int, n: nat, bytes: seq<Byte>)
    ensures var r := SofComps(st, arith, f, length, n, bytes);
            if st.sawSof then r == Bad(SofDuplicate)
            else if f.height <= 0 || f.width <= 0 || n <= 0 then r == Bad(EmptyImage)
            else if length != n * 3 then r == Bad(BadLength)
            else
              match ReadFrameComps(n, bytes)
              case None => r == Short
              case Some((comps, rest)) =>
                r == Got(st.(arith := arith, frame := f.(comps := comps), sawSof := true,
                             dcTbl := NoTables(n), acTbl := NoTables(n)), rest)
  {
  }

  lemma SofHead(st: State, progressive: bool, arith: bool, input: seq<Byte>, coming: seq<Byte>)
    ensures |input| >= 8 ==>
      GetSof(st, progressive, arith, input + coming)
        == SofComps(st, arith, Frame(progressive, input[2], Word(input[3..]), Word(input[5..]), []),
                    Word(input) - 8, input[7], input[8..] + coming)
    ensures |input| < 8 && coming == [] ==> GetSof(st, progressive, arith, input + coming) == Short
  {
    hide SofComps;
    var whole := input + coming;
    if |input| >= 8 {
      assert Word(whole) == Word(input) && Word(whole[3..]) == Word(input[3..]) && Word(whole[5..]) == Word(input[5..]);
      assert whole[8..] == input[8..] + coming;
    }
  }

  lemma SofAgain(st: State, st1: State, progressive: bool, arith: bool, bytes: seq<Byte>)
    requires st1 == st.(arith := st1.arith, frame := st1.frame, dcTbl := st1.dcTbl, acTbl := st1.acTbl)
    ensures GetSof(st1, progressive, arith, bytes) == GetSof(st, progressive, arith, bytes)
  {
    hide ReadFrameComps;
  }

  /** The band does not matter to the component list. */
  lemma {:induction false} BandAside(st: State, st1: State, k: nat, bytes: seq<Byte>)
    requires |st.dcTbl| == |st.acTbl| == |st.frame.comps| && st1 == st.(Ss := st1.Ss, Se := st1.Se, Ah := st1.Ah, Al := st1.Al)
    ensures var r, r1 := SosComps(st, k, bytes), SosComps(st1, k, bytes);
            if r.Got? then r1.Got? && r1.rest == r.rest && r1.st == r.st.(Ss := st1.Ss, Se := st1.Se, Ah := st1.Ah, Al := st1.Al)
            else r1 == r
    decreases k
  {
    if k > 0 && |bytes| >= 2 && FindComp(st.frame.comps, bytes[0], 0).Some? {
      var ci := FindComp(st.frame.comps, bytes[0], 0).value;
      var td, ta := bytes[1] / 16, bytes[1] % 16;
      BandAside(st.(cur := st.cur + [ci], dcTbl := st.dcTbl[ci := td], acTbl := st.acTbl[ci := ta]),
              st1.(cur := st1.cur + [ci], dcTbl := st1.dcTbl[ci := td], acTbl := st1.acTbl[ci := ta]), k - 1, bytes[2..]);
    }
  }

  lemma SosAgainAll(st: State, st1: State, bytes: seq<Byte>)
    requires StateOk(st) && st.sawSof && |bytes| >= 3
    requires st1 == st.(cur := st1.cur, dcTbl := st1.dcTbl, acTbl := st1.acTbl, Ss := st1.Ss, Se := st1.Se, Ah := st1.Ah, Al := st1.Al)
    requires NumbersBut(st, st1, SosSlots(st.frame.comps, bytes[2], bytes[3..]))
    ensures StateOk(st1) && GetSos(st1, bytes) == GetSos(st, bytes)
  {
    hide SosComps, SosSlots, Word;
    var a, b := st.(cur := []), st1.(cur := [], Ss := st.Ss, Se := st.Se, Ah := st.Ah, Al := st.Al);
    SosAgain(a, b, bytes[2], bytes[3..]);
    BandAside(b, st1.(cur := []), bytes[2], bytes[3..]);
  }

  lemma SameAtFirst<K(!new), V>(a: map<K, V>, ks: set<K>)
    ensures SameBut(a, a, ks)
  {
  }

  lemma SameButOne<K(!new), V>(a: map<K, V>, k: K, v: V, ks: set<K>)
    requires k in ks
    ensures SameBut(a, a[k := v], ks)
  {
  }

  lemma SameStill<K(!new), V>(a: map<K, V>, b: map<K, V>, c: map<K, V>, ks: set<K>, all: set<K>)
    requires SameBut(a, b, all) && SameBut(b, c, ks) && ks <= all
    ensures SameBut(a, c, all)
  {
  }

  /** The first table of a DQT segment. */
  lemma DqtStep(st: State, length: int, bytes: seq<Byte>)
    requires length > 0
    ensures bytes == [] ==> DqtTables(st, length, bytes) == Short
    ensures bytes != [] && bytes[0] % 16 >= NUM_QUANT_TBLS ==> DqtTables(st, length, bytes) == Bad(DqtIndex)
    ensures bytes != [] && bytes[0] % 16 < NUM_QUANT_TBLS ==>
      var wide, n := bytes[0] / 16 != 0, bytes[0] % 16;
      n in DqtSlots(length, bytes) &&
      match ReadQuant(64, wide, bytes[1..])
      case None => DqtTables(st, length, bytes) == Short
      case Some((q, rest)) =>
        var length1 := length - 65 - if wide then 64 else 0;
        DqtTables(st, length, bytes) == DqtTables(st.(quant := st.quant[n := q]), length1, rest) &&
        DqtSlots(length1, rest) <= DqtSlots(length, bytes)
  {
  }

  lemma DhtDone(st: State, length: int, bytes: seq<Byte>)
    requires length <= 16
    ensures DhtTables(st, length, bytes) == if length != 0 then Bad(BadLength) else Got(st, bytes)
  {
  }

  lemma DqtDone(st: State, length: int, bytes: seq<Byte>)
    requires length <= 0
    ensures DqtTables(st, length, bytes) == if length != 0 then Bad(BadLength) else Got(st, bytes)
  {
  }

  lemma JoinedNone<X>(r: Option<(seq<X>, seq<Byte>)>)
    ensures Joined([], r) == r
  {
    if r.Some? {
      assert [] + r.value.0 == r.value.0;
    }
  }

  lemma NoMore(wide: bool, bytes: seq<Byte>)
    ensures ReadQuant(0, wide, bytes) == Some(([], bytes))
  {
  }

  method AddCounts(counts: seq<Byte>) returns (count: nat)
    ensures count == Sum(counts)
  {
    count := 0;
    for i := 0 to |counts|
      invariant count == Sum(counts[..i])
    {
      assert counts[..i + 1][..i] == counts[..i];
      count := count + counts[i];
    }
    assert counts[..|counts|] == counts;
  }
}
