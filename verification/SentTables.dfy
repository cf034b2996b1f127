/** Which tables the headers contain: those of the frame or scan that have not been sent
    before, each once (the sent_table flags of jcmarker.c). */
module SentTables {
  import opened Tokens
  import opened Markers
  import opened HeaderSync

  /** The members of a list that are not in old, each at its first place. */
  function NewIn<T(==)>(list: seq<T>, seen: set<T>): seq<T> {
    if list == [] then []
    else
      var n := |list| - 1;
      NewIn(list[..n], seen) + if list[n] in seen || list[n] in list[..n] then [] else [list[n]]
  }

  /** The first place of a member. */
  function Place<T(==)>(list: seq<T>, x: T): (i: nat)
    requires x in list
    ensures i < |list| && list[i] == x && x !in list[..i]
  {
    if list[0] == x then 0 else 1 + Place(list[1..], x)
  }

  /** Every new member once, in the order of the first places. */
  lemma {:induction false} NewOnes<T>(list: seq<T>, seen: set<T>)
    ensures forall x :: x in NewIn(list, seen) <==> x in list && x !in seen
    ensures var r := NewIn(list, seen); forall i, k :: 0 <= i < k < |r| ==> Place(list, r[i]) < Place(list, r[k])
  {
    if list != [] {
      var n := |list| - 1;
      var pre := list[..n];
      NewOnes(pre, seen);
      assert list == pre + [list[n]];
      var r0, r := NewIn(pre, seen), NewIn(list, seen);
      forall i, k | 0 <= i < k < |r| ensures Place(list, r[i]) < Place(list, r[k]) {
        assert r[i] == r0[i] && r0[i] in NewIn(pre, seen);
        assert Place(pre, r[i]) < n;
        SamePlace(pre, [list[n]], r[i]);
        if k < |r0| {
          assert r0[k] in NewIn(pre, seen);
          SamePlace(pre, [list[n]], r[k]);
        } else {
          assert r[k] == list[n];
        }
      }
    }
  }

  lemma {:induction false} SamePlace<T>(a: seq<T>, b: seq<T>, x: T)
    requires x in a
    ensures Place(a + b, x) == Place(a, x)
  {
    if a[0] != x {
      assert (a + b)[1..] == a[1..] + b;
      SamePlace(a[1..], b, x);
    }
  }

  function SentHuff(w: Sender): set<TableId> {
    set id | id in w.huff && w.huff[id].sent
  }

  function SentQuant(w: Sender): set<nat> {
    set n | n in w.quant && w.quant[n].sent
  }

  /** The DHT markers for a list of tables. */
  ghost function DhtsBytes(w: Sender, ids: seq<TableId>): seq<Byte>
    requires SenderOk(w) && forall i :: 0 <= i < |ids| ==> ids[i] in w.huff
  {
    if ids == [] then []
    else var n := |ids| - 1; DhtsBytes(w, ids[..n]) + DhtBytes(ids[n], w.huff[ids[n]].tbl)
  }

  /** The DQT markers for a list of tables. */
  ghost function DqtsBytes(w: Sender, ns: seq<nat>): seq<Byte>
    requires SenderOk(w) && forall i :: 0 <= i < |ns| ==> ns[i] in w.quant
  {
    if ns == [] then []
    else var n := |ns| - 1; DqtsBytes(w, ns[..n]) + DqtBytes(ns[n], w.quant[ns[n]].tbl)
  }

  /** The encoder once the tables ids have been sent. */
  ghost function AfterHuffs(w: Sender, ids: seq<TableId>): Sender {
    w.(huff := map id | id in w.huff :: w.huff[id].(sent := w.huff[id].sent || id in ids))
  }

  ghost function AfterQuants(w: Sender, ns: seq<nat>): Sender {
    w.(quant := map n | n in w.quant :: w.quant[n].(sent := w.quant[n].sent || n in ns))
  }

  lemma AfterOneHuff(w: Sender, ids: seq<TableId>, id: TableId)
    requires id in w.huff
    ensures id in SentHuff(w) || id in ids ==> AfterHuffs(w, ids + [id]) == AfterHuffs(w, ids)
    ensures AfterHuffs(w, ids + [id]) == AfterHuffs(w, ids).(huff := AfterHuffs(w, ids).huff[id := w.huff[id].(sent := true)])
    ensures AfterHuffs(w, ids).huff[id].sent <==> id in SentHuff(w) || id in ids
  {
    var w1, w2 := AfterHuffs(w, ids), AfterHuffs(w, ids + [id]);
    assert id in ids + [id];
    assert w2.huff == w1.huff[id := w.huff[id].(sent := true)];
    if id in SentHuff(w) || id in ids {
      assert w2.huff == w1.huff;
    }
  }

  /** One more member. */
  lemma NewInSnoc<T>(list: seq<T>, x: T, seen: set<T>)
    ensures NewIn(list + [x], seen) == NewIn(list, seen) + if x in seen || x in list then [] else [x]
  {
    assert (list + [x])[..|list|] == list;
  }

  lemma DhtsSnoc(w: Sender, ids: seq<TableId>, id: TableId)
    requires SenderOk(w) && AllIn(w, ids, |ids|) && id in w.huff
    ensures AllIn(w, ids + [id], |ids| + 1)
    ensures DhtsBytes(w, ids + [id]) == DhtsBytes(w, ids) + DhtBytes(id, w.huff[id].tbl)
  {
    hide DhtBytes, SenderOk;
    assert (ids + [id])[..|ids|] == ids;
  }

  /** One table, after others have been sent. */
  lemma OneHuffWritten(w: Sender, ids: seq<TableId>, id: TableId)
    requires SenderOk(w) && SenderOk(AfterHuffs(w, ids)) && id in w.huff
    ensures SendHuff(AfterHuffs(w, ids), id) ==
      (AfterHuffs(w, ids + [id]), if id in SentHuff(w) || id in ids then [] else DhtBytes(id, w.huff[id].tbl))
  {
    hide DhtBytes, SenderOk, SentHuff;
    AfterOneHuff(w, ids, id);
  }

  /** The tables written are those that had not been sent, each once. */
  lemma {:induction false} HuffsWritten(w: Sender, ids: seq<TableId>, k: nat)
    requires SenderOk(w) && AllIn(w, ids, k)
    ensures var news := NewIn(ids[..k], SentHuff(w)); AllIn(w, news, |news|)
    ensures SendHuffs(w, ids, k) == (AfterHuffs(w, ids[..k]), DhtsBytes(w, NewIn(ids[..k], SentHuff(w))))
  {
    hide SenderOk, DhtBytes, SentHuff, NewIn, SendHuff, DhtsBytes, AfterHuffs;
    if k == 0 {
      NothingSent(w);
      assert ids[..k] == [];
    } else {
      var pre, id := ids[..k - 1], ids[k - 1];
      HuffsWritten(w, ids, k - 1);
      assert ids[..k] == pre + [id];
      OneHuffWritten(w, pre, id);
      NewInSnoc(pre, id, SentHuff(w));
      var news := NewIn(pre, SentHuff(w));
      DhtsSnoc(w, news, id);
      assert news + [] == news && DhtsBytes(w, news) + [] == DhtsBytes(w, news);
    }
  }

  lemma NothingSent(w: Sender)
    requires SenderOk(w)
    ensures AfterHuffs(w, []) == w && NewIn([], SentHuff(w)) == [] && DhtsBytes(w, []) == []
    ensures AfterQuants(w, []) == w && NewIn([], SentQuant(w)) == [] && DqtsBytes(w, []) == []
  {
    hide SenderOk;
    assert w.huff == AfterHuffs(w, []).huff && w.quant == AfterQuants(w, []).quant;
  }

  lemma AfterOneQuant(w: Sender, ns: seq<nat>, n: nat)
    requires n in w.quant
    ensures n in SentQuant(w) || n in ns ==> AfterQuants(w, ns + [n]) == AfterQuants(w, ns)
    ensures AfterQuants(w, ns + [n]) == AfterQuants(w, ns).(quant := AfterQuants(w, ns).quant[n := w.quant[n].(sent := true)])
    ensures AfterQuants(w, ns).quant[n].sent <==> n in SentQuant(w) || n in ns
  {
    var w1, w2 := AfterQuants(w, ns), AfterQuants(w, ns + [n]);
    assert n in ns + [n];
    assert w2.quant == w1.quant[n := w.quant[n].(sent := true)];
    if n in SentQuant(w) || n in ns {
      assert w2.quant == w1.quant;
    }
  }

  /** The quantization tables of the components. */
  function QuantList(comps: seq<FrameComp>): (ns: seq<nat>)
    ensures |ns| == |comps| && forall i :: 0 <= i < |comps| ==> ns[i] == comps[i].quant
  {
    seq(|comps|, i requires 0 <= i < |comps| => comps[i].quant)
  }

  ghost predicate QuantsIn(w: Sender, ns: seq<nat>) {
    forall i :: 0 <= i < |ns| ==> ns[i] in w.quant
  }

  lemma DqtsSnoc(w: Sender, ns: seq<nat>, n: nat)
    requires SenderOk(w) && QuantsIn(w, ns) && n in w.quant
    ensures QuantsIn(w, ns + [n])
    ensures DqtsBytes(w, ns + [n]) == DqtsBytes(w, ns) + DqtBytes(n, w.quant[n].tbl)
  {
    hide DqtBytes, SenderOk;
    assert (ns + [n])[..|ns|] == ns;
  }

  lemma OneQuantWritten(w: Sender, ns: seq<nat>, n: nat)
    requires SenderOk(w) && SenderOk(AfterQuants(w, ns)) && n in w.quant
    ensures n < NUM_QUANT_TBLS
    ensures SendQuant(AfterQuants(w, ns), n) ==
      (AfterQuants(w, ns + [n]), if n in SentQuant(w) || n in ns then [] else DqtBytes(n, w.quant[n].tbl))
  {
    hide DqtBytes, SentQuant;
    AfterOneQuant(w, ns, n);
  }

  lemma {:induction false} QuantsWritten(w: Sender, comps: seq<FrameComp>, k: nat)
    requires SenderOk(w) && k <= |comps| && forall i :: 0 <= i < k ==> comps[i].quant in w.quant
    ensures QuantsIn(w, NewIn(QuantList(comps)[..k], SentQuant(w)))
    ensures SendQuants(w, comps, k) == (AfterQuants(w, QuantList(comps)[..k]), DqtsBytes(w, NewIn(QuantList(comps)[..k], SentQuant(w))))
  {
    hide SenderOk, DqtBytes, SentQuant, NewIn, SendQuant, DqtsBytes, AfterQuants, QuantList;
    var ns := QuantList(comps);
    if k == 0 {
      NothingSent(w);
      assert ns[..k] == [];
    } else {
      var pre, n := ns[..k - 1], ns[k - 1];
      QuantsWritten(w, comps, k - 1);
      assert ns[..k] == pre + [n];
      OneQuantWritten(w, pre, n);
      NewInSnoc(pre, n, SentQuant(w));
      var news := NewIn(pre, SentQuant(w));
      DqtsSnoc(w, news, n);
      assert news + [] == news && DqtsBytes(w, news) + [] == DqtsBytes(w, news);
    }
  }

  // ----- whole headers -----

  /** A scan header: the new tables, the restart interval if it differs, and SOS. */
  ghost function ScanHeaderBytes(w: Sender, f: Frame, s: Scanning, ri: nat): seq<Byte>
    requires ScanReady(w, f, s)
  {
    HuffsWritten(w, TableList(f, s), |TableList(f, s)|);
    assert TableList(f, s)[..|TableList(f, s)|] == TableList(f, s);
    DhtsBytes(w, NewIn(TableList(f, s), SentHuff(w))) + (if ri != w.ri then DriBytes(ri) else []) + SosBytes(f, s)
  }

  lemma ScanHeaderIs(w: Sender, f: Frame, s: Scanning, ri: nat)
    requires ScanReady(w, f, s)
    ensures ScanHeader(w, f, s, ri) == (AfterHuffs(w, TableList(f, s)).(ri := ri), ScanHeaderBytes(w, f, s, ri))
  {
    hide SenderOk, AllIn, SosBytes, DriBytes, AfterHuffs, NewIn, TableList, DhtsBytes, SendHuffs;
    var ids := TableList(f, s);
    HuffsWritten(w, ids, |ids|);
    assert ids[..|ids|] == ids;
  }

  ghost predicate AllSent(w: Sender, ids: seq<TableId>) {
    forall i :: 0 <= i < |ids| ==> ids[i] in w.huff && w.huff[ids[i]].sent
  }

  lemma {:induction false} NoneNew<T>(list: seq<T>, seen: set<T>)
    requires forall i :: 0 <= i < |list| ==> list[i] in seen
    ensures NewIn(list, seen) == []
  {
    if list != [] { NoneNew(list[..|list| - 1], seen); }
  }

  /** Once all its tables have been sent, a scan has its SOS marker alone. */
  lemma NothingNew(w: Sender, f: Frame, s: Scanning, ri: nat)
    requires ScanReady(w, f, s) && ri == w.ri && AllSent(w, TableList(f, s))
    ensures ScanHeaderBytes(w, f, s, ri) == SosBytes(f, s)
  {
    hide SenderOk, SosBytes, TableList, DhtBytes;
    NoneNew(TableList(f, s), SentHuff(w));
    assert [] + [] + SosBytes(f, s) == SosBytes(f, s);
  }

  /** A frame header: the new quantization tables and SOF. */
  ghost function FrameHeaderBytes(w: Sender, f: Frame, code: Byte): seq<Byte>
    requires FrameReady(w, f)
  {
    QuantsWritten(w, f.comps, |f.comps|);
    assert QuantList(f.comps)[..|f.comps|] == QuantList(f.comps);
    DqtsBytes(w, NewIn(QuantList(f.comps), SentQuant(w))) + SofBytes(code, f)
  }

  lemma FrameHeaderIs(w: Sender, f: Frame, code: Byte)
    requires FrameReady(w, f)
    ensures FrameHeader(w, f, code) == (AfterQuants(w, QuantList(f.comps)), FrameHeaderBytes(w, f, code))
  {
    hide SenderOk, SofBytes, AfterQuants, NewIn, DqtsBytes, SendQuants;
    QuantsWritten(w, f.comps, |f.comps|);
    assert QuantList(f.comps)[..|f.comps|] == QuantList(f.comps);
  }
}
