/** How the blocks of a segment share end-of-band symbols: a run goes on until a block
    emits something, until it has 32767 blocks or more than 937 correction bits, or
    until the segment ends (jcphuff.c counts in EOBRUN and BE). */
module EobRuns {
  import opened Bits
  import opened Tokens
  import opened AcCoding
  import opened AcRuns

  /** A run of blocks: after the first one none emits anything of its own, all leave
      something to the end-of-band, and neither limit is reached before the last. */
  ghost predicate IsRun(p: Band, g: seq<Block>)
    requires AcBand(p)
  {
    1 <= |g| <= 32767 && (forall i :: 1 <= i < |g| ==> AcCode(p, g[i]).toks == []) &&
    (|g| > 1 ==> forall i :: 0 <= i < |g| ==> Trailing(AcCode(p, g[i]))) && |Tails(p, g[..|g| - 1])| <= 937
  }

  /** The run may go on with another block. */
  ghost predicate Open(p: Band, g: seq<Block>)
    requires AcBand(p)
  {
    IsRun(p, g) && Trailing(AcCode(p, g[0])) && |g| < 32767 && |Tails(p, g)| <= 937
  }

  /** What a run emits: the first block's tokens and one end-of-band symbol for all. */
  function RunTokens(p: Band, g: seq<Block>): seq<Token>
    requires AcBand(p) && g != []
  {
    AcCode(p, g[0]).toks +
    (if Trailing(AcCode(p, g[0])) then EobTokens(p.id, |g|) + CorrectionTokens(Tails(p, g)) else [])
  }

  function RunsTokens(p: Band, gs: seq<seq<Block>>): seq<Token>
    requires AcBand(p) && forall k :: 0 <= k < |gs| ==> gs[k] != []
  {
    if gs == [] then [] else RunTokens(p, gs[0]) + RunsTokens(p, gs[1..])
  }

  function Joined(gs: seq<seq<Block>>): seq<Block> {
    if gs == [] then [] else gs[0] + Joined(gs[1..])
  }

  /** The runs of a segment: an open run is followed by a block that emits something, or
      by nothing. */
  ghost predicate Runs(p: Band, gs: seq<seq<Block>>)
    requires AcBand(p)
  {
    (forall k :: 0 <= k < |gs| ==> IsRun(p, gs[k])) &&
    (forall k :: 0 <= k < |gs| - 1 ==> Open(p, gs[k]) ==> AcCode(p, gs[k + 1][0]).toks != [])
  }

  /** A block that emits nothing leaves something to the end-of-band. */
  lemma SomethingSent(p: Band, c: Block)
    requires AcBand(p)
    ensures AcCode(p, c).toks == [] ==> Trailing(AcCode(p, c))
  {
    if p.Ah == 0 {
      FirstSends(p, c, p.Ss, 0);
    } else {
      RefineSends(p, c, p.Ss, 0, [], LastNew(p, c, p.Ss, 0));
    }
  }

  lemma {:induction false} FirstSends(p: Band, c: Block, k: nat, r: nat)
    requires p.Se <= 63 && (k <= p.Se || r > 0)
    ensures FirstFrom(p, c, k, r).toks == [] ==> FirstFrom(p, c, k, r).r > 0
    decreases 64 - k
  {
    hide Mag, Zrls;
    if k <= p.Se && Mag(c[k], p.Al) == 0 { FirstSends(p, c, k + 1, r + 1); }
  }

  lemma {:induction false} RefineSends(p: Band, c: Block, k: nat, r: nat, br: seq<bool>, eob: nat)
    requires p.Se <= 63 && (k <= p.Se || r > 0 || br != [])
    ensures var code := RefineFrom(p, c, k, r, br, eob); code.toks == [] ==> code.r > 0 || code.br != []
    decreases 64 - k
  {
    hide Mag, Zrls, CorrectionTokens;
    if k <= p.Se {
      var a := Mag(c[k], p.Al);
      if a == 0 {
        RefineSends(p, c, k + 1, r + 1, br, eob);
      } else if a > 1 && !(k <= eob && r > 15) {
        RefineSends(p, c, k + 1, r, br + [a % 2 == 1], eob);
      }
    }
  }

  // ----- gathering -----

  lemma RunsCons(p: Band, g: seq<Block>, gs: seq<seq<Block>>)
    requires AcBand(p) && IsRun(p, g) && Runs(p, gs) && (gs != [] && Open(p, g) ==> AcCode(p, gs[0][0]).toks != [])
    ensures Runs(p, [g] + gs) && RunsTokens(p, [g] + gs) == RunTokens(p, g) + RunsTokens(p, gs)
    ensures Joined([g] + gs) == g + Joined(gs)
  {
    hide IsRun, Open, RunTokens, AcCode;
    var all := [g] + gs;
    assert all[1..] == gs;
    forall k | 0 <= k < |all| ensures IsRun(p, all[k]) && all[k] != [] {
      if k > 0 { assert all[k] == gs[k - 1]; RunNotEmpty(p, gs[k - 1]); } else { RunNotEmpty(p, g); }
    }
    forall k | 0 <= k < |all| - 1 && Open(p, all[k]) ensures AcCode(p, all[k + 1][0]).toks != [] {
      if k > 0 { assert all[k] == gs[k - 1] && all[k + 1] == gs[k]; }
    }
  }

  lemma RunNotEmpty(p: Band, g: seq<Block>)
    requires AcBand(p) && IsRun(p, g)
    ensures g != []
  {
  }

  lemma NoRuns(p: Band)
    requires AcBand(p)
    ensures Runs(p, []) && RunsTokens(p, []) == [] && Joined([]) == [] && Future(p, 0, [], []) == []
  {
  }

  lemma LastRun(p: Band, g: seq<Block>)
    requires AcBand(p) && IsRun(p, g)
    ensures Runs(p, [g]) && RunsTokens(p, [g]) == RunTokens(p, g) && Joined([g]) == g
  {
    hide IsRun, RunTokens, AcCode;
    RunNotEmpty(p, g);
    var gs := [g];
    assert gs[1..] == [];
    assert RunTokens(p, g) + [] == RunTokens(p, g);
    assert g + [] == g;
  }

  lemma FutureEnds(p: Band, n: nat, be: seq<bool>)
    requires AcBand(p)
    ensures Future(p, n, be, []) == FlushTokens(p.id, n, be)
  {
    hide EobTokens, CorrectionTokens;
    var fl := FlushTokens(p.id, n, be);
    assert [] + fl == fl;
  }

  lemma OneBlock(p: Band, c: Block)
    requires AcBand(p)
    ensures IsRun(p, [c]) && Tails(p, [c]) == AcCode(p, c).br
    ensures RunTokens(p, [c]) == AcCode(p, c).toks +
      (if Trailing(AcCode(p, c)) then FlushTokens(p.id, 1, AcCode(p, c).br) else [])
  {
    hide AcCode, EobTokens, CorrectionTokens;
    var cs := [c];
    assert cs[1..] == [] && cs[..0] == [];
    assert Tails(p, []) == [];
    assert AcCode(p, c).br + [] == AcCode(p, c).br;
  }

  lemma RunGrows(p: Band, g: seq<Block>, c: Block)
    requires AcBand(p) && Open(p, g) && AcCode(p, c).toks == []
    ensures IsRun(p, g + [c]) && (g + [c])[0] == g[0] && Tails(p, g + [c]) == Tails(p, g) + AcCode(p, c).br
  {
    hide AcCode;
    SomethingSent(p, c);
    TailsSnoc(p, g, c);
    assert (g + [c])[..|g|] == g;
  }

  /** From a block boundary outside any run. */
  lemma {:induction false} GatherNone(p: Band, cs: seq<Block>) returns (gs: seq<seq<Block>>)
    requires AcBand(p)
    ensures Runs(p, gs) && RunsTokens(p, gs) == Future(p, 0, [], cs) && Joined(gs) == cs
    decreases |cs|, 0
  {
    hide AcCode, Future, Runs, RunsTokens, RunTokens, Joined, IsRun, Open, Settled, FlushTokens, Tails, Trailing;
    if cs == [] {
      gs := [];
      NoRuns(p);
    } else {
      var c, more := cs[0], cs[1..];
      var code := AcCode(p, c);
      FutureCases(p, 0, [], cs);
      NothingFlushed(p.id);
      SomethingSent(p, c);
      OneBlock(p, c);
      assert cs == [c] + more;
      assert [] + code.br == code.br;
      if Trailing(code) {
        gs := GatherSettled(p, [c], more);
        var tail := Settled(p, 1, code.br, more);
        assert [] + (code.toks + tail) == code.toks + tail;
        assert [] + tail == tail;
      } else {
        var gs1 := GatherNone(p, more);
        gs := [[c]] + gs1;
        NotOpen(p, [c]);
        RunsCons(p, [c], gs1);
        assert code.toks + [] == code.toks;
        var tail := code.toks + Future(p, 0, [], more);
        assert [] + tail == tail;
      }
    }
  }

  lemma NothingFlushed(id: TableId)
    ensures FlushTokens(id, 0, []) == []
  {
  }

  lemma NotOpen(p: Band, g: seq<Block>)
    requires AcBand(p) && g != [] && !Trailing(AcCode(p, g[0]))
    ensures !Open(p, g)
  {
  }

  /** With a run whose last end-of-band has just been counted. */
  lemma {:induction false} GatherSettled(p: Band, g: seq<Block>, cs: seq<Block>) returns (gs: seq<seq<Block>>)
    requires AcBand(p) && IsRun(p, g) && Trailing(AcCode(p, g[0]))
    ensures Runs(p, gs) && Joined(gs) == g + cs
    ensures RunsTokens(p, gs) == AcCode(p, g[0]).toks + Settled(p, |g|, Tails(p, g), cs)
    decreases |cs|, 2
  {
    hide AcCode, Future, Runs, RunsTokens, Joined, Tails, Trailing, EobTokens, CorrectionTokens;
    if Open(p, g) {
      gs := GatherOpen(p, g, cs);
    } else {
      var gs1 := GatherNone(p, cs);
      gs := [g] + gs1;
      RunsCons(p, g, gs1);
      SeqAssoc(AcCode(p, g[0]).toks, FlushTokens(p.id, |g|, Tails(p, g)), Future(p, 0, [], cs));
    }
  }

  /** With a run that may go on. */
  lemma {:induction false} GatherOpen(p: Band, g: seq<Block>, cs: seq<Block>) returns (gs: seq<seq<Block>>)
    requires AcBand(p) && Open(p, g)
    ensures Runs(p, gs) && Joined(gs) == g + cs
    ensures RunsTokens(p, gs) == AcCode(p, g[0]).toks + Future(p, |g|, Tails(p, g), cs)
    decreases |cs|, 1
  {
    hide AcCode, Future, Runs, RunsTokens, Tails, Settled, FlushTokens, IsRun, Joined;
    RunNotEmpty(p, g);
    var toks, n, be := AcCode(p, g[0]).toks, |g|, Tails(p, g);
    FlushedRun(p, g);
    if cs == [] {
      gs := [g];
      LastRun(p, g);
      FutureEnds(p, n, be);
      assert g + [] == g;
    } else {
      var c, more := cs[0], cs[1..];
      FutureCases(p, n, be, cs);
      FutureCases(p, 0, [], cs);
      SomethingSent(p, c);
      if AcCode(p, c).toks == [] {
        RunGrows(p, g, c);
        gs := GatherSettled(p, g + [c], more);
        assert g + [c] + more == g + cs;
      } else {
        var gs1 := GatherNone(p, cs);
        FirstOfRuns(p, gs1, cs);
        gs := [g] + gs1;
        RunsCons(p, g, gs1);
        NothingFlushed(p.id);
        var fl, x := FlushTokens(p.id, n, be), Future(p, 0, [], cs);
        NoPrefix(p, cs);
        assert Future(p, n, be, cs) == fl + x;
        SeqAssoc(toks, fl, x);
      }
    }
  }

  lemma NoPrefix(p: Band, cs: seq<Block>)
    requires AcBand(p) && cs != [] && AcCode(p, cs[0]).toks != []
    ensures var code := AcCode(p, cs[0]);
            Future(p, 0, [], cs) == code.toks + (if Trailing(code) then Settled(p, 1, code.br, cs[1..]) else Future(p, 0, [], cs[1..]))
  {
    hide AcCode, Future, Settled;
    FutureCases(p, 0, [], cs);
    var code := AcCode(p, cs[0]);
    var tail := code.toks + (if Trailing(code) then Settled(p, 1, code.br, cs[1..]) else Future(p, 0, [], cs[1..]));
    assert [] + tail == tail;
  }

  lemma FlushedRun(p: Band, g: seq<Block>)
    requires AcBand(p) && Open(p, g)
    ensures RunTokens(p, g) == AcCode(p, g[0]).toks + FlushTokens(p.id, |g|, Tails(p, g))
  {
    hide AcCode, EobTokens, CorrectionTokens;
  }

  lemma FirstOfRuns(p: Band, gs: seq<seq<Block>>, cs: seq<Block>)
    requires AcBand(p) && Runs(p, gs) && Joined(gs) == cs && cs != []
    ensures gs != [] && gs[0] != [] && gs[0][0] == cs[0]
  {
    hide AcCode;
    assert IsRun(p, gs[0]);
  }

  /** A segment of an AC scan is the tokens of its runs. */
  lemma SegmentIsRuns(p: Band, cs: seq<Block>) returns (gs: seq<seq<Block>>)
    requires AcBand(p)
    ensures Runs(p, gs) && Joined(gs) == cs
    ensures Flush(p.id, AcFold(p, AcState([], 0, []), cs)).toks == RunsTokens(p, gs)
  {
    gs := GatherNone(p, cs);
  }

  lemma RunsRest(p: Band, gs: seq<seq<Block>>)
    requires AcBand(p) && Runs(p, gs) && gs != []
    ensures IsRun(p, gs[0]) && gs[0] != [] && Runs(p, gs[1..]) && Joined(gs) == gs[0] + Joined(gs[1..])
    ensures gs[1..] != [] ==> Open(p, gs[0]) ==> AcCode(p, gs[1][0]).toks != []
  {
    hide IsRun, Open, AcCode;
    RunNotEmpty(p, gs[0]);
    forall k | 0 <= k < |gs| - 1 ensures IsRun(p, gs[1..][k]) {
      assert gs[1..][k] == gs[k + 1];
    }
  }

  /** A proper part of a run may go on. */
  lemma PartIsOpen(p: Band, g: seq<Block>, n: nat)
    requires AcBand(p) && IsRun(p, g) && 1 <= n < |g|
    ensures Trailing(AcCode(p, g[..n][0])) && |Tails(p, g[..n])| <= 937
  {
    hide AcCode;
    TailsGrow(p, g[..|g| - 1], n);
    assert g[..|g| - 1][..n] == g[..n];
  }

  lemma {:induction false} TailsGrow(p: Band, g: seq<Block>, n: nat)
    requires AcBand(p) && n <= |g|
    ensures |Tails(p, g[..n])| <= |Tails(p, g)|
    decreases |g|
  {
    hide AcCode;
    if n < |g| {
      var g1 := g[..|g| - 1];
      assert g == g1 + [g[|g| - 1]] && g1[..n] == g[..n];
      TailsSnoc(p, g1, g[|g| - 1]);
      TailsGrow(p, g1, n);
    } else {
      assert g[..n] == g;
    }
  }

  /** The block after the first run. */
  lemma NextRun(p: Band, gs: seq<seq<Block>>)
    requires AcBand(p) && Runs(p, gs) && gs != [] && |gs[0]| < |Joined(gs)|
    ensures Open(p, gs[0]) ==> AcCode(p, Joined(gs)[|gs[0]|]).toks != []
  {
    hide AcCode, Runs, IsRun, Joined, Open;
    RunsRest(p, gs);
    JoinedNothing();
    if gs[1..] != [] {
      RunsRest(p, gs[1..]);
      assert Joined(gs)[|gs[0]|] == Joined(gs[1..])[0] == gs[1][0];
    }
  }

  lemma NoShorterRun(p: Band, gs: seq<seq<Block>>, hs: seq<seq<Block>>)
    requires AcBand(p) && Runs(p, gs) && Runs(p, hs) && Joined(gs) == Joined(hs) && gs != [] && hs != []
    ensures |gs[0]| >= |hs[0]|
  {
    hide AcCode, Runs, Tails, Trailing, Joined;
    RunsRest(p, gs);
    RunsRest(p, hs);
    var g, h := gs[0], hs[0];
    var all := Joined(gs);
    assert all[..|g|] == g && all[..|h|] == h;
    if |g| < |h| {
      assert h[..|g|] == g && all[|g|] == h[|g|];
      PartIsOpen(p, h, |g|);
      NextRun(p, gs);
    }
  }

  lemma JoinedNothing()
    ensures Joined([]) == []
  {
  }

  /** The runs of a segment are determined by its blocks. */
  lemma {:induction false} RunsUnique(p: Band, gs: seq<seq<Block>>, hs: seq<seq<Block>>)
    requires AcBand(p) && Runs(p, gs) && Runs(p, hs) && Joined(gs) == Joined(hs)
    ensures gs == hs
    decreases |gs|
  {
    hide AcCode, Runs, IsRun, Joined, Open;
    if gs != [] { RunsRest(p, gs); }
    if hs != [] { RunsRest(p, hs); }
    JoinedNothing();
    if gs != [] && hs != [] {
      NoShorterRun(p, gs, hs);
      NoShorterRun(p, hs, gs);
      var n := |gs[0]|;
      assert Joined(gs)[..n] == gs[0] && Joined(hs)[..n] == hs[0];
      assert Joined(gs)[n..] == Joined(gs[1..]) && Joined(hs)[n..] == Joined(hs[1..]);
      RunsUnique(p, gs[1..], hs[1..]);
      assert gs == [gs[0]] + gs[1..] && hs == [hs[0]] + hs[1..];
    }
  }

  // ----- quiet segments -----

  /** Number of Huffman symbols among tokens. */
  function Symbols(toks: seq<Token>): nat {
    if toks == [] then 0 else (if toks[0].Sym? then 1 else 0) + Symbols(toks[1..])
  }

  lemma {:induction false} SymbolsConcat(a: seq<Token>, b: seq<Token>)
    ensures Symbols(a + b) == Symbols(a) + Symbols(b)
  {
    if a == [] {
      assert a + b == b;
    } else {
      assert (a + b)[1..] == a[1..] + b;
      SymbolsConcat(a[1..], b);
    }
  }

  lemma {:induction false} NoSymbols(br: seq<bool>)
    ensures Symbols(CorrectionTokens(br)) == 0
  {
    if br != [] {
      var toks := CorrectionTokens(br);
      assert toks[1..] == CorrectionTokens(br[1..]);
      NoSymbols(br[1..]);
    }
  }

  /** Blocks that emit nothing join the pending run as long as the limits allow. */
  lemma {:induction false} AllInOne(p: Band, n: nat, be: seq<bool>, cs: seq<Block>)
    requires AcBand(p) && Empty(p, cs) && n + |cs| <= 32767 && |be| + |Tails(p, cs)| <= 937 && (n == 0 ==> be == [])
    requires cs == [] ==> n < 32767
    ensures Future(p, n, be, cs) == FlushTokens(p.id, n + |cs|, be + Tails(p, cs))
    decreases |cs|
  {
    hide AcCode, Future, FlushTokens;
    if cs == [] {
      FutureEnds(p, n, be);
      assert be + Tails(p, cs) == be;
    } else {
      var br, more := AcCode(p, cs[0]).br, cs[1..];
      FutureCases(p, n, be, cs);
      SomethingSent(p, cs[0]);
      SeqAssoc(be, br, Tails(p, more));
      if n + 1 < 32767 {
        AllInOne(p, n + 1, be + br, more);
      } else {
        assert more == [] && Tails(p, more) == [];
        FutureEnds(p, 0, []);
        NothingFlushed(p.id);
        assert be + br + [] == be + br;
        var fl := FlushTokens(p.id, n + 1, be + br);
        assert fl + [] == fl;
      }
    }
  }

  /** Up to 32767 blocks that leave everything to the end-of-band, with up to 937
      correction bits, take one symbol. */
  lemma OneSymbol(p: Band, cs: seq<Block>)
    requires AcBand(p) && Empty(p, cs) && 1 <= |cs| <= 32767 && |Tails(p, cs)| <= 937
    ensures var toks := Flush(p.id, AcFold(p, AcState([], 0, []), cs)).toks;
            Symbols(toks) == 1 && toks == EobTokens(p.id, |cs|) + CorrectionTokens(Tails(p, cs))
  {
    hide AcCode, AcFold, Flush;
    AllInOne(p, 0, [], cs);
    assert [] + Tails(p, cs) == Tails(p, cs);
    var eob, br := EobTokens(p.id, |cs|), CorrectionTokens(Tails(p, cs));
    SymbolsConcat(eob, br);
    NoSymbols(Tails(p, cs));
    if |eob| > 1 { assert eob[1..] == [Raw(|cs|, BitLen(|cs|) - 1)]; }
  }

  /** A block that emits nothing makes the pending run longer, unless a limit is reached. */
  lemma JoinsRun(p: Band, st: AcState, c: Block)
    requires AcBand(p) && AcCode(p, c).toks == [] && st.eobrun < 32766 && |st.be| + |AcCode(p, c).br| <= 937
    ensures AcStep(p, st, c) == AcState(st.toks, st.eobrun + 1, st.be + AcCode(p, c).br)
  {
    hide AcCode;
    SomethingSent(p, c);
  }

  /** However a segment is divided into runs, its tokens are those of the runs. */
  lemma SegmentOfRuns(p: Band, gs: seq<seq<Block>>)
    requires AcBand(p) && Runs(p, gs)
    ensures Flush(p.id, AcFold(p, AcState([], 0, []), Joined(gs))).toks == RunsTokens(p, gs)
  {
    hide Runs, Joined, AcFold, Flush;
    var hs := SegmentIsRuns(p, Joined(gs));
    RunsUnique(p, gs, hs);
  }
}
