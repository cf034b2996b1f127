/** Huffman's algorithm is optimal: no assignment of code lengths that fills the code
    space makes the counted data shorter. */
module HuffmanOptimal {
  import opened Bits
  import opened HuffmanMerge

  /** The lengths of the counted symbols are those of a full binary prefix code: they
      fill the code space of words of m bits. */
  ghost predicate Fills(f: Counts, len: Counts, m: nat) {
    (forall i :: 0 <= i < 257 && f[i] > 0 ==> len[i] <= m) && Kraft(f, len, m, 257) == Pow2(m)
  }

  ghost predicate Complete(f: Counts, len: Counts) {
    exists m: nat :: Fills(f, len, m)
  }

  // ----- the longest codes come in pairs -----

  /** Number of counted symbols with code length d. */
  function Deepest(f: Counts, len: Counts, d: nat, n: nat): nat
    requires n <= 257
  {
    if n == 0 then 0 else Deepest(f, len, d, n - 1) + (if f[n - 1] > 0 && len[n - 1] == d then 1 else 0)
  }

  lemma {:induction false} KraftParity(f: Counts, len: Counts, d: nat, n: nat)
    requires n <= 257 && forall i :: 0 <= i < n && f[i] > 0 ==> len[i] <= d
    ensures Kraft(f, len, d, n) % 2 == Deepest(f, len, d, n) % 2
  {
    if n > 0 {
      KraftParity(f, len, d, n - 1);
    }
  }

  lemma {:induction false} DeepestAt(f: Counts, len: Counts, d: nat, i: nat, n: nat)
    requires i < n <= 257 && f[i] > 0 && len[i] == d
    ensures Deepest(f, len, d, n) >= 1
  {
    if i < n - 1 { DeepestAt(f, len, d, i, n - 1); }
  }

  lemma {:induction false} FindDeepest(f: Counts, len: Counts, d: nat, c: nat, n: nat) returns (y: nat)
    requires n <= 257 && Deepest(f, len, d, n) >= if c < n && f[c] > 0 && len[c] == d then 2 else 1
    ensures y < n && y != c && f[y] > 0 && len[y] == d
  {
    if n - 1 != c && f[n - 1] > 0 && len[n - 1] == d {
      y := n - 1;
    } else {
      y := FindDeepest(f, len, d, c, n - 1);
    }
  }

  /** Besides c, some other symbol has the greatest length. */
  lemma Another(f: Counts, len: Counts, d: nat, a: nat, c: nat) returns (y: nat)
    requires Fills(f, len, d) && d >= 1 && a < 257 && f[a] > 0 && len[a] == d
    ensures y < 257 && y != c && f[y] > 0 && len[y] == d
  {
    hide Kraft;
    KraftParity(f, len, d, 257);
    DeepestAt(f, len, d, a, 257);
    assert Pow2(d) == 2 * Pow2(d - 1);
    y := FindDeepest(f, len, d, c, 257);
  }

  // ----- tightening the bound -----

  lemma {:induction false} KraftScale(f: Counts, len: Counts, m: nat, d: nat, n: nat)
    requires n <= 257 && d <= m && forall i :: 0 <= i < n && f[i] > 0 ==> len[i] <= d
    ensures Kraft(f, len, m, n) == Kraft(f, len, d, n) * Pow2(m - d)
  {
    hide Pow2;
    if n > 0 {
      KraftScale(f, len, m, d, n - 1);
      if f[n - 1] > 0 {
        Pow2Add(d - len[n - 1], m - d);
      }
      Spread(Kraft(f, len, d, n - 1), Term(f[n - 1], len[n - 1], d), Pow2(m - d));
    }
  }

  lemma Spread(a: int, b: int, p: int)
    ensures (a + b) * p == a * p + b * p
  {
  }

  lemma Cancel(x: nat, y: nat, p: nat)
    requires p > 0 && x * p == y * p
    ensures x == y
  {
    if x < y { MulLe(x + 1, y, p); MulSucc(x, p); }
    if y < x { MulLe(y + 1, x, p); MulSucc(y, p); }
  }

  lemma {:induction false} LongestUpTo(f: Counts, len: Counts, n: nat) returns (a: nat)
    requires n <= 257 && Live(f, n) > 0
    ensures a < n && f[a] > 0 && forall i :: 0 <= i < n && f[i] > 0 ==> len[i] <= len[a]
  {
    if Live(f, n - 1) > 0 {
      a := LongestUpTo(f, len, n - 1);
      if f[n - 1] > 0 && len[n - 1] > len[a] { a := n - 1; }
    } else {
      a := n - 1;
      forall i | 0 <= i < n - 1 ensures f[i] == 0 {
        if f[i] > 0 { LiveTwo(f, i, i, n - 1); }
      }
    }
  }

  /** The code space of words as long as the longest code is filled. */
  lemma Tight(f: Counts, len: Counts, m: nat) returns (a: nat)
    requires Fills(f, len, m) && Live(f, 257) > 0
    ensures a < 257 && f[a] > 0 && Fills(f, len, len[a])
  {
    hide Kraft, Pow2, Live;
    a := LongestUpTo(f, len, 257);
    KraftScale(f, len, m, len[a], 257);
    Pow2Add(len[a], m - len[a]);
    Cancel(Kraft(f, len, len[a], 257), Pow2(len[a]), Pow2(m - len[a]));
  }

  lemma {:induction false} KraftFlat(f: Counts, len: Counts, n: nat)
    requires n <= 257 && forall i :: 0 <= i < n && f[i] > 0 ==> len[i] == 0
    ensures Kraft(f, len, 0, n) == Live(f, n)
  {
    if n > 0 { KraftFlat(f, len, n - 1); }
  }

  // ----- exchanges -----

  /** Giving the longer code to the rarer symbol. */
  lemma Exchange(f: Counts, len: Counts, d: nat, c: nat, x: nat)
    requires Fills(f, len, d) && c < 257 && x < 257 && c != x && f[c] > 0 && f[x] > 0 && len[x] == d && f[c] <= f[x]
    ensures var len1 := len[c := d][x := len[c]];
            Fills(f, len1, d) && Cost(f, len1, 257) <= Cost(f, len, 257)
  {
    hide Kraft, Pow2, Cost;
    var lenA := len[c := d];
    KraftUpdate(f, len, d, c, f[c], d, 257);
    KraftUpdate(f, lenA, d, x, f[x], len[c], 257);
    assert f[c := f[c]] == f && f[x := f[x]] == f;
    CostUpdate(f, len, c, d, 257);
    CostUpdate(f, lenA, x, len[c], 257);
    Rearrange(f[c], f[x], len[c], d);
    SameTerm(f[c], f[x], d, d);
    SameTerm(f[c], f[x], len[c], d);
  }

  lemma SameTerm(v: nat, w: nat, l: nat, m: nat)
    requires v > 0 && w > 0
    ensures Term(v, l, m) == Term(w, l, m)
  {
  }

  lemma Rearrange(v: nat, w: nat, l: nat, d: nat)
    requires v <= w && l <= d
    ensures v * d - v * l + w * l - w * d <= 0
  {
    var g, h := w - v, d - l;
    assert v * d == v * l + v * h;
    assert w * d == w * l + w * h;
    MulLe(v, w, h);
  }

  /** Dropping a deepest pair: its weight is saved, and the code space stays full. */
  lemma DropPair(f: Counts, len: Counts, d: nat, c1: nat, c2: nat)
    requires Fills(f, len, d) && d >= 1 && c1 < 257 && c2 < 257 && c1 != c2 && f[c1] > 0 && f[c2] > 0
    requires len[c1] == d && len[c2] == d
    ensures var f1, len1 := Merged(f, c1, c2), len[c1 := d - 1];
            Fills(f1, len1, d) && Cost(f1, len1, 257) + f[c1] + f[c2] == Cost(f, len, 257)
  {
    hide Kraft, Cost;
    var w := f[c1] + f[c2];
    var fA, len1 := f[c1 := w], len[c1 := d - 1];
    KraftUpdate(f, len, d, c1, w, d - 1, 257);
    KraftUpdate(fA, len1, d, c2, 0, d, 257);
    assert len1[c2 := d] == len1;
    CostUpdate(f, len, c1, d - 1, 257);
    CostWeight(f, len1, c1, w, 257);
    CostWeight(fA, len1, c2, 0, 257);
    Saved(f[c1], f[c2], d);
  }

  lemma Saved(v: nat, w: nat, d: nat)
    requires d >= 1
    ensures v * (d - 1) == v * d - v && (v + w) * (d - 1) == v * d + w * d - v - w
  {
    Spread(v, w, d - 1);
    MulSucc(d - 1, v);
    MulSucc(d - 1, w);
  }

  /** Any full code can be turned into one for the merged counts, saving at least
      the weight of the two rarest symbols. */
  lemma Rival(f: Counts, len: Counts, c1: nat, c2: nat) returns (len1: Counts)
    requires Complete(f, len) && c1 < 257 && c2 < 257 && c1 != c2 && f[c1] > 0 && f[c2] > 0
    requires forall i :: 0 <= i < 257 && f[i] > 0 ==> f[c1] <= f[i] && (i != c1 ==> f[c2] <= f[i])
    ensures Complete(Merged(f, c1, c2), len1)
    ensures Cost(Merged(f, c1, c2), len1, 257) + f[c1] + f[c2] <= Cost(f, len, 257)
  {
    hide Kraft, Cost, Live, Pow2;
    var m: nat :| Fills(f, len, m);
    LiveTwo(f, c1, c2, 257);
    var a := Tight(f, len, m);
    var d := len[a];
    DeepEnough(f, len, d);
    var x := Another(f, len, d, a, c2);
    var lenA := len;
    if len[c1] != d {
      Exchange(f, len, d, c1, x);
      lenA := len[c1 := d][x := len[c1]];
    }
    var y := Another(f, lenA, d, c1, c1);
    var lenB := lenA;
    if lenA[c2] != d {
      Exchange(f, lenA, d, c2, y);
      lenB := lenA[c2 := d][y := lenA[c2]];
    }
    DropPair(f, lenB, d, c1, c2);
    len1 := lenB[c1 := d - 1];
  }

  /** With two symbols, codes are at least a bit long. */
  lemma DeepEnough(f: Counts, len: Counts, d: nat)
    requires Fills(f, len, d) && Live(f, 257) >= 2
    ensures d >= 1
  {
    hide Live;
    if d == 0 {
      KraftFlat(f, len, 257);
    }
  }

  // ----- the lead of the algorithm -----

  /** What the merges have cost so far, and what the rival needs at least for the
      merged counts, is no more than what the rival costs. */
  ghost predicate Ahead(f0: Counts, f: Counts, len: Counts, rival: Counts) {
    exists cur: Counts :: Complete(f, cur) && Cost(f, cur, 257) + Cost(f0, len, 257) <= Cost(f0, rival, 257)
  }

  ghost predicate Leads(f0: Counts, f: Counts, len: Counts) {
    forall rival: Counts :: Complete(f0, rival) ==> Ahead(f0, f, len, rival)
  }

  lemma LeadsStart(f0: Counts, len: Counts)
    requires forall i :: 0 <= i < 257 ==> len[i] == 0
    ensures Leads(f0, f0, len)
  {
    hide Cost, Complete;
    KraftStart(f0, len, 0, 257);
    forall rival: Counts | Complete(f0, rival) ensures Ahead(f0, f0, len, rival) {
      assert Cost(f0, rival, 257) + Cost(f0, len, 257) <= Cost(f0, rival, 257);
    }
  }

  lemma LeadsStep(f0: Counts, f: Counts, len: Counts, len1: Counts, c1: nat, c2: nat)
    requires Leads(f0, f, len) && c1 < 257 && c2 < 257 && c1 != c2 && f[c1] > 0 && f[c2] > 0
    requires forall i :: 0 <= i < 257 && f[i] > 0 ==> f[c1] <= f[i] && (i != c1 ==> f[c2] <= f[i])
    requires Cost(f0, len1, 257) == Cost(f0, len, 257) + f[c1] + f[c2]
    ensures Leads(f0, Merged(f, c1, c2), len1)
  {
    hide Cost, Complete, Merged;
    forall rival: Counts | Complete(f0, rival) ensures Ahead(f0, Merged(f, c1, c2), len1, rival) {
      assert Ahead(f0, f, len, rival);
      var cur: Counts :| Complete(f, cur) && Cost(f, cur, 257) + Cost(f0, len, 257) <= Cost(f0, rival, 257);
      var cur1 := Rival(f, cur, c1, c2);
    }
  }

  /** No full code makes the counted data shorter. */
  ghost predicate Optimal(f0: Counts, len: Counts) {
    Complete(f0, len) && forall rival: Counts :: Complete(f0, rival) ==> Cost(f0, len, 257) <= Cost(f0, rival, 257)
  }

  lemma LeadsEnd(f0: Counts, f: Counts, len: Counts)
    requires Leads(f0, f, len) && Complete(f0, len)
    ensures Optimal(f0, len)
  {
    hide Cost, Complete;
    forall rival: Counts | Complete(f0, rival) ensures Cost(f0, len, 257) <= Cost(f0, rival, 257) {
      assert Ahead(f0, f, len, rival);
    }
  }

  // ----- which lengths the algorithm finds -----

  /** The smallest nonzero count among the first n symbols, leaving out one of them; the
      larger symbol in case of a tie, -1 if there is none. */
  function Smallest(f: Counts, except: int, n: nat): (c: int)
    requires n <= 257
    ensures -1 <= c < n
  {
    if n == 0 then -1
    else
      var c := Smallest(f, except, n - 1);
      if 0 < f[n - 1] <= (if c < 0 then MAX_COUNT else f[c]) && n - 1 != except then n - 1 else c
  }

  lemma {:induction false} SmallestIs(f: Counts, except: int, n: nat)
    requires n <= 257 && forall i :: 0 <= i < n ==> f[i] <= MAX_COUNT
    ensures var c := Smallest(f, except, n); c == -1 ==> forall i :: 0 <= i < n && f[i] > 0 ==> i == except
    ensures var c := Smallest(f, except, n); c >= 0 ==> f[c] > 0 && c != except
    ensures var c := Smallest(f, except, n);
            c >= 0 ==> forall i :: 0 <= i < n && f[i] > 0 && i != except ==> f[c] <= f[i] && (f[i] == f[c] ==> i <= c)
  {
    if n > 0 { SmallestIs(f, except, n - 1); }
  }

  lemma {:induction false} SmallestLive(f: Counts, except: int, n: nat)
    requires n <= 257
    ensures var c := Smallest(f, except, n); c >= 0 ==> f[c] > 0 && c != except
  {
    if n > 0 { SmallestLive(f, except, n - 1); }
  }

  ghost predicate ChainsOk(chains: seq<seq<nat>>) {
    |chains| == 257 && forall r :: 0 <= r < 257 ==> InRange(chains[r])
  }

  /** The code lengths when all trees have been merged: always the two smallest. */
  function Sizes(f: Counts, len: Counts, chains: seq<seq<nat>>): Counts
    requires ChainsOk(chains)
    decreases Live(f, 257)
  {
    var c1 := Smallest(f, -1, 257);
    if c1 < 0 then len
    else
      var c2 := Smallest(f, c1, 257);
      if c2 < 0 then len
      else
        SmallestLive(f, -1, 257);
        SmallestLive(f, c1, 257);
        MergedSums(f, c1, c2);
        ChainsJoin(chains, c1, c2);
        Sizes(Merged(f, c1, c2), Deeper(len, chains[c1], chains[c2]), chains[c1 := chains[c1] + chains[c2]])
  }

  lemma ChainsJoin(chains: seq<seq<nat>>, c1: nat, c2: nat)
    requires ChainsOk(chains) && c1 < 257 && c2 < 257
    ensures ChainsOk(chains[c1 := chains[c1] + chains[c2]])
  {
    var ch := chains[c1] + chains[c2];
    forall k | 0 <= k < |ch| ensures ch[k] < 257 {
      if k >= |chains[c1]| { assert ch[k] == chains[c2][k - |chains[c1]|]; }
    }
  }

  function Singles(): (r: seq<seq<nat>>)
    ensures |r| == 257 && forall i :: 0 <= i < 257 ==> r[i] == [i]
  {
    seq(257, i requires 0 <= i < 257 => [i])
  }

  /** The code lengths of jpeg_gen_optimal_table before they are limited. */
  function HuffmanSizes(f: Counts): Counts {
    Sizes(f, seq(257, _ => 0), Singles())
  }

  // ----- long codes need large counts -----

  function Fib(n: nat): nat {
    if n < 2 then n else Fib(n - 1) + Fib(n - 2)
  }

  lemma {:induction false} FibGrows(n: nat, m: nat)
    requires n <= m && n >= 1
    ensures 1 <= Fib(n) <= Fib(m)
    decreases m
  {
    if m == n {
      if n > 2 { FibGrows(n - 1, n - 1); FibGrows(n - 2, n - 2); }
    } else {
      FibGrows(n, m - 1);
    }
  }

  /** A symbol of depth d is in a tree of count at least Fib(d + 2), and every other tree
      has at least the count Fib(d + 1). */
  ghost predicate SymbolGrown(f: Counts, d: nat, root: nat) {
    root < 257 && f[root] > 0 && f[root] >= Fib(d + 2) && forall q :: 0 <= q < 257 && q != root && f[q] > 0 ==> f[q] >= Fib(d + 1)
  }

  ghost predicate Grown(f0: Counts, f: Counts, len: Counts, owner: seq<nat>)
    requires |owner| == 257
  {
    forall s :: 0 <= s < 257 && f0[s] > 0 ==> SymbolGrown(f, len[s], owner[s])
  }

  /** Merging the two smallest trees makes their symbols one deeper. */
  lemma DeeperGrown(f: Counts, d: nat, c1: nat, c2: nat, root: nat)
    requires SymbolGrown(f, d, root) && c1 < 257 && c2 < 257 && c1 != c2 && f[c1] > 0 && f[c2] > 0 && (root == c1 || root == c2)
    requires forall i :: 0 <= i < 257 && f[i] > 0 ==> f[c1] <= f[i] && (i != c1 ==> f[c2] <= f[i])
    ensures SymbolGrown(Merged(f, c1, c2), d + 1, c1)
  {
    assert Fib(d + 3) == Fib(d + 2) + Fib(d + 1);
  }

  lemma AsideGrown(f: Counts, d: nat, c1: nat, c2: nat, root: nat)
    requires SymbolGrown(f, d, root) && c1 < 257 && c2 < 257 && c1 != c2 && f[c1] > 0 && f[c2] > 0 && root != c1 && root != c2
    ensures SymbolGrown(Merged(f, c1, c2), d, root)
  {
    hide Fib;
  }

  lemma GrownAt(f0: Counts, f: Counts, len: Counts, others: seq<int>, chains: seq<seq<nat>>, owner: seq<nat>, m: nat, c1: nat, c2: nat, s: nat)
    requires Pair(f0, f, len, others, chains, owner, m, c1, c2) && Grown(f0, f, len, owner) && Owned(f0, chains, owner)
    requires InRange(chains[c1]) && InRange(chains[c2]) && s < 257 && f0[s] > 0
    requires forall i :: 0 <= i < 257 && f[i] > 0 ==> f[c1] <= f[i] && (i != c1 ==> f[c2] <= f[i])
    ensures SymbolGrown(Merged(f, c1, c2), Deeper(len, chains[c1], chains[c2])[s], NewOwner(owner, c1, c2)[s])
    ensures NewOwner(owner, c1, c2)[s] < 257 && s in chains[c1 := chains[c1] + chains[c2]][NewOwner(owner, c1, c2)[s]]
  {
    hide Fib, Kraft, Total, Live, Pow2, Deeper, Merged, Weight, ChainKraft, SymbolGrown;
    PairFacts(f0, f, len, others, chains, owner, m, c1, c2);
    DeeperAt(len, chains[c1], chains[c2], s);
    var root := owner[s];
    if root == c1 || root == c2 {
      DeeperGrown(f, len[s], c1, c2, root);
    } else {
      AsideGrown(f, len[s], c1, c2, root);
    }
  }

  lemma GrownStep(f0: Counts, f: Counts, len: Counts, others: seq<int>, chains: seq<seq<nat>>, owner: seq<nat>, m: nat, c1: nat, c2: nat)
    requires Pair(f0, f, len, others, chains, owner, m, c1, c2) && Grown(f0, f, len, owner) && Owned(f0, chains, owner)
    requires InRange(chains[c1]) && InRange(chains[c2])
    requires forall i :: 0 <= i < 257 && f[i] > 0 ==> f[c1] <= f[i] && (i != c1 ==> f[c2] <= f[i])
    ensures Grown(f0, Merged(f, c1, c2), Deeper(len, chains[c1], chains[c2]), NewOwner(owner, c1, c2))
    ensures Owned(f0, chains[c1 := chains[c1] + chains[c2]], NewOwner(owner, c1, c2))
  {
    hide Fib, Kraft, Total, Live, Pow2, Deeper, Merged, Weight, ChainKraft, SymbolGrown;
    PairFacts(f0, f, len, others, chains, owner, m, c1, c2);
    forall s | 0 <= s < 257 && f0[s] > 0
      ensures SymbolGrown(Merged(f, c1, c2), Deeper(len, chains[c1], chains[c2])[s], NewOwner(owner, c1, c2)[s])
      ensures NewOwner(owner, c1, c2)[s] < 257 && s in chains[c1 := chains[c1] + chains[c2]][NewOwner(owner, c1, c2)[s]]
    {
      GrownAt(f0, f, len, others, chains, owner, m, c1, c2, s);
    }
  }

  /** Every counted symbol is on the chain of its root. */
  ghost predicate Owned(f0: Counts, chains: seq<seq<nat>>, owner: seq<nat>) {
    |chains| == |owner| == 257 && forall s :: 0 <= s < 257 && f0[s] > 0 ==> owner[s] < 257 && s in chains[owner[s]]
  }

  // ----- the merge loop -----

  /** One search of the source: the smallest nonzero count, leaving out one symbol; the
      larger symbol in case of a tie. */
  method FindSmallest(freq: array<nat>, except: int) returns (c: int)
    requires freq.Length == 257
    ensures c == Smallest(freq[..], except, 257)
  {
    c := -1;
    var v := MAX_COUNT;
    for i := 0 to 257
      invariant c == Smallest(freq[..], except, i) && v == if c < 0 then MAX_COUNT else freq[c]
    {
      if freq[i] != 0 && freq[i] <= v && i != except {
        v := freq[i];
        c := i;
      }
    }
  }

  /** Lengthens the codes along the chain from c0 on, and returns its last symbol. */
  method Lengthen(codesize: array<nat>, others: array<int>, c0: nat, ghost chain: seq<nat>) returns (last: nat)
    requires codesize.Length == others.Length == 257
    requires Linked(others[..], chain) && chain[0] == c0
    modifies codesize
    ensures codesize[..] == Bump(old(codesize[..]), chain) && last == chain[|chain| - 1]
  {
    hide Bump;
    var c := c0;
    ghost var k := 0;
    assert chain[0..] == chain;
    BumpStep(codesize[..], chain[0..]);
    codesize[c] := codesize[c] + 1;
    while others[c] >= 0
      invariant 0 <= k < |chain| && c == chain[k]
      invariant Bump(codesize[..], chain[k + 1..]) == Bump(old(codesize[..]), chain)
      decreases |chain| - k
    {
      c := others[c];
      BumpStep(codesize[..], chain[k + 1..]);
      assert chain[k + 1..][1..] == chain[k + 2..];
      codesize[c] := codesize[c] + 1;
      k := k + 1;
    }
    BumpStep(codesize[..], chain[k + 1..]);
    last := c;
  }

  lemma BumpStep(len: Counts, chain: seq<nat>)
    requires forall k :: 0 <= k < |chain| ==> chain[k] < 257
    ensures Bump(len, chain) == if chain == [] then len else Bump(len[chain[0] := len[chain[0]] + 1], chain[1..])
  {
  }

  lemma ForestStart(f0: Counts, len: Counts, others: seq<int>, chains: seq<seq<nat>>, owner: seq<nat>, m: nat)
    requires |others| == |chains| == |owner| == 257 && m >= 257
    requires forall i :: 0 <= i < 257 ==> len[i] == 0 && others[i] == -1 && chains[i] == [i] && owner[i] == i
    ensures Forest(f0, f0, len, others, chains, owner, m)
  {
    hide Pow2, Total, Live, Kraft;
    KraftStart(f0, len, m, 257);
    forall r: nat | r < 257 && f0[r] > 0 ensures IsTree(f0, f0[r], len, others, chains[r], owner, m, r) {
      SingleTree(f0, len, m, r, [r]);
    }
  }

  lemma SingleTree(f0: Counts, len: Counts, m: nat, r: nat, chain: seq<nat>)
    requires r < 257 && len[r] == 0 && chain == [r]
    ensures Weight(f0, chain) == f0[r] && ChainKraft(len, m, chain) == Pow2(m)
  {
    assert chain[1..] == [];
  }

  /** When one tree is left, its codes are complete. */
  lemma ForestEnd(f0: Counts, f: Counts, len: Counts, others: seq<int>, chains: seq<seq<nat>>, owner: seq<nat>, m: nat, c: nat)
    requires Forest(f0, f, len, others, chains, owner, m) && c < 257 && f[c] > 0
    requires forall i :: 0 <= i < 257 && f[i] > 0 ==> i == c
    ensures Fills(f0, len, m) && forall i :: 0 <= i < 257 ==> len[i] <= 256
  {
    hide Pow2, Total, Live, Kraft, IsTree;
    LiveOne(f, 257);
    LiveTwo(f, c, c, 257);
    LiveBound(f0, 257);
  }

  /** One merge of the source, on the trees of c1 and c2. */
  method MergeTrees(freq: array<nat>, codesize: array<nat>, others: array<int>, c1: nat, c2: nat,
                    ghost f0: Counts, ghost chains: seq<seq<nat>>, ghost owner: seq<nat>, ghost m: nat)
    requires freq.Length == codesize.Length == others.Length == 257 && freq != codesize
    requires Pair(f0, freq[..], codesize[..], others[..], chains, owner, m, c1, c2)
    requires InRange(chains[c1]) && InRange(chains[c2]) && chains[c1] != []
    modifies freq, codesize, others
    ensures freq[..] == Merged(old(freq[..]), c1, c2)
    ensures codesize[..] == Deeper(old(codesize[..]), chains[c1], chains[c2])
    ensures others[..] == old(others[..])[chains[c1][|chains[c1]| - 1] := c2]
  {
    hide Bump, Weight, ChainKraft, Kraft, Total, Live, Pow2, NewOwner;
    ghost var f := freq[..];
    ghost var ch1, ch2 := chains[c1], chains[c2];
    PairFacts(f0, freq[..], codesize[..], others[..], chains, owner, m, c1, c2);
    freq[c1] := freq[c1] + freq[c2];
    freq[c2] := 0;
    assert freq[..] == Merged(f, c1, c2);
    var last := Lengthen(codesize, others, c1, ch1);
    ghost var o := others[..];
    others[last] := c2;
    assert others[..] == o[last := c2];
    StillLinked(o, ch2, last, c2);
    last := Lengthen(codesize, others, c2, ch2);
  }

  lemma StillLinked(others: seq<int>, chain: seq<nat>, s: nat, v: int)
    requires Linked(others, chain) && s < 257 && s !in chain
    ensures Linked(others[s := v], chain)
  {
  }

  /** From any stage of the merging on, the lengths found in the end are those of an
      optimal full prefix code, and a length of d takes counts of at least Fib(d + 2). */
  lemma {:induction false} SizesFound(f0: Counts, f: Counts, len: Counts, others: seq<int>, chains: seq<seq<nat>>, owner: seq<nat>, m: nat)
    requires Forest(f0, f, len, others, chains, owner, m) && Live(f, 257) > 0 && Total(f0, 257) <= MAX_COUNT
    requires Leads(f0, f, len) && Grown(f0, f, len, owner) && Owned(f0, chains, owner) && ChainsOk(chains)
    ensures Optimal(f0, Sizes(f, len, chains))
    ensures forall s :: 0 <= s < 257 ==> Sizes(f, len, chains)[s] <= 256 && (f0[s] == 0 ==> Sizes(f, len, chains)[s] == 0)
    ensures forall s :: 0 <= s < 257 && f0[s] > 0 ==> Fib(Sizes(f, len, chains)[s] + 2) <= Total(f0, 257)
    decreases Live(f, 257)
  {
    hide Total, Live, Kraft, Pow2, Cost, Leads, Complete, Optimal, IsTree, Deeper, Merged, NewOwner, Fib, Smallest;
    CountsBounded(f);
    SmallestIs(f, -1, 257);
    var c1 := Smallest(f, -1, 257);
    var live := LiveAt(f, 257);
    SmallestIs(f, c1, 257);
    var c2 := Smallest(f, c1, 257);
    if c2 < 0 {
      ForestEnd(f0, f, len, others, chains, owner, m, c1);
      IsComplete(f0, len, m);
      LeadsEnd(f0, f, len);
      TotalBounds(f, c1, 257);
    } else {
      PairFacts(f0, f, len, others, chains, owner, m, c1, c2);
      ForestStep(f0, f, len, others, chains, owner, m, c1, c2);
      LeadsStep(f0, f, len, Deeper(len, chains[c1], chains[c2]), c1, c2);
      GrownStep(f0, f, len, others, chains, owner, m, c1, c2);
      MergedSums(f, c1, c2);
      LiveTwo(f, c1, c2, 257);
      ChainsJoin(chains, c1, c2);
      SizesFound(f0, Merged(f, c1, c2), Deeper(len, chains[c1], chains[c2]), others[chains[c1][|chains[c1]| - 1] := c2],
                 chains[c1 := chains[c1] + chains[c2]], NewOwner(owner, c1, c2), m);
    }
  }

  lemma GrownStart(f0: Counts, len: Counts, chains: seq<seq<nat>>, owner: seq<nat>)
    requires |chains| == |owner| == 257
    requires forall i :: 0 <= i < 257 ==> len[i] == 0 && chains[i] == [i] && owner[i] == i
    ensures Grown(f0, f0, len, owner) && Owned(f0, chains, owner) && ChainsOk(chains)
  {
    assert Fib(2) == 1 && Fib(1) == 1;
  }

  /** Huffman's algorithm is optimal; and a code of d bits takes a total count of at
      least the Fibonacci number d + 2. */
  lemma HuffmanSizesOptimal(f: Counts)
    requires Total(f, 257) <= MAX_COUNT && Live(f, 257) > 0
    ensures Optimal(f, HuffmanSizes(f))
    ensures forall s :: 0 <= s < 257 ==> HuffmanSizes(f)[s] <= 256 && (f[s] == 0 ==> HuffmanSizes(f)[s] == 0)
    ensures forall s :: 0 <= s < 257 && f[s] > 0 ==> Fib(HuffmanSizes(f)[s] + 2) <= Total(f, 257)
  {
    hide Total, Live, Fib, Leads, Optimal, Forest, Sizes;
    var len: Counts := seq(257, _ => 0);
    var others := seq(257, _ => -1);
    var owner := seq(257, i requires 0 <= i < 257 => i);
    ForestStart(f, len, others, Singles(), owner, SYMBOLS);
    LeadsStart(f, len);
    GrownStart(f, len, Singles(), owner);
    SizesFound(f, f, len, others, Singles(), owner, SYMBOLS);
  }

  lemma SizesStep(f: Counts, len: Counts, chains: seq<seq<nat>>, c1: nat, c2: int)
    requires ChainsOk(chains) && c1 == Smallest(f, -1, 257) && c2 == Smallest(f, c1, 257)
    ensures c2 < 0 ==> Sizes(f, len, chains) == len
    ensures c2 >= 0 ==>
      ChainsOk(chains[c1 := chains[c1] + chains[c2]]) &&
      Sizes(f, len, chains) == Sizes(Merged(f, c1, c2), Deeper(len, chains[c1], chains[c2]), chains[c1 := chains[c1] + chains[c2]])
  {
    hide Smallest, Merged, Deeper;
    if c2 >= 0 { ChainsJoin(chains, c1, c2); }
  }

  /** The merge loop of jpeg_gen_optimal_table, which uses up the counts. */
  method CodeSizes(freq: array<nat>) returns (codesize: array<nat>)
    requires freq.Length == 257 && Total(freq[..], 257) <= MAX_COUNT && Live(freq[..], 257) > 0
    modifies freq
    ensures fresh(codesize) && codesize.Length == 257
    ensures codesize[..] == HuffmanSizes(old(freq[..]))
  {
    hide Total, Live, Kraft, Pow2, Cost, IsTree, Deeper, Merged, NewOwner, Smallest, Sizes;
    ghost var f0 := freq[..];
    codesize := new nat[257](_ => 0);
    var others := new int[257](_ => -1);
    ghost var m := SYMBOLS;
    ghost var chains := Singles();
    ghost var owner: seq<nat> := seq(257, i requires 0 <= i < 257 => i);
    ForestStart(f0, codesize[..], others[..], chains, owner, m);
    GrownStart(f0, codesize[..], chains, owner);
    assert codesize[..] == seq(257, _ => 0);
    while true
      invariant Forest(f0, freq[..], codesize[..], others[..], chains, owner, m) && Live(freq[..], 257) > 0
      invariant ChainsOk(chains) && Sizes(freq[..], codesize[..], chains) == HuffmanSizes(f0)
      decreases Live(freq[..], 257)
    {
      ghost var f, len := freq[..], codesize[..];
      CountsBounded(f);
      SmallestIs(f, -1, 257);
      var c1 := FindSmallest(freq, -1);
      ghost var live := LiveAt(f, 257);
      SmallestIs(f, c1, 257);
      var c2 := FindSmallest(freq, c1);
      SizesStep(f, len, chains, c1, c2);
      if c2 < 0 {
        return;
      }
      PairFacts(f0, f, len, others[..], chains, owner, m, c1, c2);
      ForestStep(f0, f, len, others[..], chains, owner, m, c1, c2);
      MergedSums(f, c1, c2);
      LiveTwo(f, c1, c2, 257);
      MergeTrees(freq, codesize, others, c1, c2, f0, chains, owner, m);
      chains, owner := chains[c1 := chains[c1] + chains[c2]], NewOwner(owner, c1, c2);
    }
  }

  lemma IsComplete(f: Counts, len: Counts, m: nat)
    requires Fills(f, len, m)
    ensures Complete(f, len)
  {
  }

  lemma CountsBounded(f: Counts)
    requires Total(f, 257) <= MAX_COUNT
    ensures forall i :: 0 <= i < 257 ==> f[i] <= MAX_COUNT
  {
    hide Total;
    forall i: nat | i < 257 ensures f[i] <= MAX_COUNT {
      TotalBounds(f, i, 257);
    }
  }
}
