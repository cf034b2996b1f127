/** Huffman's algorithm as jpeg_gen_optimal_table runs it: trees are chains of symbols
    linked through others[], and merging two trees lengthens the codes along both. */
module HuffmanMerge {
  import opened Bits

  /** Symbols 0..255 and the pseudo-symbol 256. */
  const SYMBOLS: nat := 257
  /** The largest count the searches consider. */
  const MAX_COUNT: nat := 1_000_000_000

  type Counts = f: seq<nat> | |f| == 257 witness seq(257, _ => 0)

  // ----- sums over symbols -----

  function Total(f: Counts, n: nat): nat
    requires n <= 257
  {
    if n == 0 then 0 else Total(f, n - 1) + f[n - 1]
  }

  /** Number of symbols with a nonzero count. */
  function Live(f: Counts, n: nat): nat
    requires n <= 257
  {
    if n == 0 then 0 else Live(f, n - 1) + (if f[n - 1] > 0 then 1 else 0)
  }

  /** Total length of what is counted, under the given code lengths. */
  function Cost(f: Counts, len: Counts, n: nat): nat
    requires n <= 257
  {
    if n == 0 then 0 else Cost(f, len, n - 1) + f[n - 1] * len[n - 1]
  }

  /** 2^m times the Kraft sum of the counted symbols. */
  function Kraft(f: Counts, len: Counts, m: nat, n: nat): nat
    requires n <= 257
  {
    if n == 0 then 0 else Kraft(f, len, m, n - 1) + Term(f[n - 1], len[n - 1], m)
  }

  function Term(w: nat, l: nat, m: nat): nat {
    if w > 0 && l <= m then Pow2(m - l) else 0
  }

  lemma {:induction false} TotalUpdate(f: Counts, i: nat, v: nat, n: nat)
    requires i < 257 && n <= 257
    ensures Total(f[i := v], n) == Total(f, n) + (if i < n then v - f[i] else 0)
  {
    if n > 0 { TotalUpdate(f, i, v, n - 1); }
  }

  lemma {:induction false} TotalBounds(f: Counts, i: nat, n: nat)
    requires i < n <= 257
    ensures f[i] <= Total(f, n)
  {
    if i < n - 1 { TotalBounds(f, i, n - 1); }
  }

  lemma {:induction false} LiveUpdate(f: Counts, i: nat, v: nat, n: nat)
    requires i < 257 && n <= 257
    ensures Live(f[i := v], n) == Live(f, n) + (if i < n then (if v > 0 then 1 else 0) - (if f[i] > 0 then 1 else 0) else 0)
  {
    if n > 0 { LiveUpdate(f, i, v, n - 1); }
  }

  lemma {:induction false} LiveTwo(f: Counts, i: nat, j: nat, n: nat)
    requires i < n <= 257 && j < n && f[i] > 0
    ensures Live(f, n) >= 1 && (i != j && f[j] > 0 ==> Live(f, n) >= 2)
  {
    if i == n - 1 {
      if j < n - 1 && f[j] > 0 { LiveTwo(f, j, j, n - 1); }
    } else if j == n - 1 {
      LiveTwo(f, i, i, n - 1);
    } else {
      LiveTwo(f, i, j, n - 1);
    }
  }

  /** With one symbol left, it is the only one. */
  lemma {:induction false} LiveOne(f: Counts, n: nat)
    requires n <= 257
    requires forall i, j :: 0 <= i < n && 0 <= j < n && f[i] > 0 && f[j] > 0 ==> i == j
    ensures Live(f, n) <= 1
  {
    if n > 0 {
      LiveOne(f, n - 1);
      if f[n - 1] > 0 && Live(f, n - 1) > 0 {
        var i := LiveAt(f, n - 1);
      }
    }
  }

  lemma {:induction false} LiveAt(f: Counts, n: nat) returns (i: nat)
    requires n <= 257 && Live(f, n) > 0
    ensures i < n && f[i] > 0
  {
    if f[n - 1] > 0 {
      i := n - 1;
    } else {
      i := LiveAt(f, n - 1);
    }
  }

  lemma {:induction false} CostUpdate(f: Counts, len: Counts, i: nat, v: nat, n: nat)
    requires i < 257 && n <= 257
    ensures Cost(f, len[i := v], n) == Cost(f, len, n) + (if i < n then f[i] * v - f[i] * len[i] else 0)
  {
    if n > 0 { CostUpdate(f, len, i, v, n - 1); }
  }

  lemma {:induction false} CostWeight(f: Counts, len: Counts, i: nat, w: nat, n: nat)
    requires i < 257 && n <= 257
    ensures Cost(f[i := w], len, n) == Cost(f, len, n) + (if i < n then w * len[i] - f[i] * len[i] else 0)
  {
    if n > 0 { CostWeight(f, len, i, w, n - 1); }
  }

  lemma {:induction false} KraftUpdate(f: Counts, len: Counts, m: nat, i: nat, w: nat, v: nat, n: nat)
    requires i < 257 && n <= 257
    ensures Kraft(f[i := w], len[i := v], m, n)
         == Kraft(f, len, m, n) + (if i < n then Term(w, v, m) - Term(f[i], len[i], m) else 0)
  {
    if n > 0 { KraftUpdate(f, len, m, i, w, v, n - 1); }
  }

  /** Before any merge, every symbol is a tree of its own. */
  lemma {:induction false} KraftStart(f: Counts, len: Counts, m: nat, n: nat)
    requires n <= 257 && forall i :: 0 <= i < 257 ==> len[i] == 0
    ensures Kraft(f, len, m, n) == Live(f, n) * Pow2(m) && Cost(f, len, n) == 0
  {
    hide Pow2;
    if n > 0 {
      KraftStart(f, len, m, n - 1);
      MulSucc(Live(f, n - 1), Pow2(m));
    }
  }

  // ----- chains -----

  /** Walking from the first symbol of the chain through others visits all of it. */
  ghost predicate Linked(others: seq<int>, chain: seq<nat>) {
    |others| == 257 && chain != [] && (forall k :: 0 <= k < |chain| ==> chain[k] < 257) &&
    (forall k :: 0 <= k < |chain| - 1 ==> others[chain[k]] == chain[k + 1]) && others[chain[|chain| - 1]] == -1
  }

  ghost predicate DistinctIn(chain: seq<nat>) {
    forall i, j :: 0 <= i < j < |chain| ==> chain[i] != chain[j]
  }

  function Weight(f: Counts, chain: seq<nat>): nat
    requires forall k :: 0 <= k < |chain| ==> chain[k] < 257
  {
    if chain == [] then 0 else f[chain[0]] + Weight(f, chain[1..])
  }

  /** 2^m times the Kraft sum along a chain. */
  function ChainKraft(len: Counts, m: nat, chain: seq<nat>): nat
    requires forall k :: 0 <= k < |chain| ==> chain[k] < 257
  {
    if chain == [] then 0 else Term(1, len[chain[0]], m) + ChainKraft(len, m, chain[1..])
  }

  /** All codes along the chain grow by one bit. */
  function Bump(len: Counts, chain: seq<nat>): Counts
    requires forall k :: 0 <= k < |chain| ==> chain[k] < 257
    decreases |chain|
  {
    if chain == [] then len else Bump(len[chain[0] := len[chain[0]] + 1], chain[1..])
  }

  lemma {:induction false} BumpAt(len: Counts, chain: seq<nat>, s: nat)
    requires s < 257 && (forall k :: 0 <= k < |chain| ==> chain[k] < 257) && DistinctIn(chain)
    ensures Bump(len, chain)[s] == len[s] + (if s in chain then 1 else 0)
    decreases |chain|
  {
    if chain != [] {
      BumpAt(len[chain[0] := len[chain[0]] + 1], chain[1..], s);
    }
  }

  /** Only lengths on the chain matter to its Kraft sum. */
  lemma {:induction false} ChainKraftSame(len: Counts, len1: Counts, m: nat, chain: seq<nat>)
    requires forall k :: 0 <= k < |chain| ==> chain[k] < 257 && len[chain[k]] == len1[chain[k]]
    ensures ChainKraft(len, m, chain) == ChainKraft(len1, m, chain)
    decreases |chain|
  {
    hide Term;
    if chain != [] { ChainKraftSame(len, len1, m, chain[1..]); }
  }

  lemma {:induction false} ChainKraftConcat(len: Counts, m: nat, a: seq<nat>, b: seq<nat>)
    requires forall k :: 0 <= k < |a + b| ==> (a + b)[k] < 257
    ensures forall k :: 0 <= k < |a| ==> a[k] == (a + b)[k]
    ensures forall k :: 0 <= k < |b| ==> b[k] == (a + b)[|a| + k]
    ensures ChainKraft(len, m, a + b) == ChainKraft(len, m, a) + ChainKraft(len, m, b)
    decreases |a|
  {
    hide Term;
    if a == [] {
      assert a + b == b;
    } else {
      assert (a + b)[1..] == a[1..] + b;
      ChainKraftConcat(len, m, a[1..], b);
    }
  }

  lemma {:induction false} WeightConcat(f: Counts, a: seq<nat>, b: seq<nat>)
    requires forall k :: 0 <= k < |a + b| ==> (a + b)[k] < 257
    ensures forall k :: 0 <= k < |a| ==> a[k] == (a + b)[k]
    ensures forall k :: 0 <= k < |b| ==> b[k] == (a + b)[|a| + k]
    ensures Weight(f, a + b) == Weight(f, a) + Weight(f, b)
    decreases |a|
  {
    if a == [] {
      assert a + b == b;
    } else {
      assert (a + b)[1..] == a[1..] + b;
      WeightConcat(f, a[1..], b);
    }
  }

  lemma TermHalves(l: nat, m: nat)
    requires l + 1 <= m
    ensures 2 * Term(1, l + 1, m) == Term(1, l, m)
  {
  }

  /** Lengthening a chain's codes halves its Kraft sum and costs its weight. */
  lemma {:induction false} BumpSums(f: Counts, len: Counts, m: nat, chain: seq<nat>)
    requires (forall k :: 0 <= k < |chain| ==> chain[k] < 257 && f[chain[k]] > 0 && len[chain[k]] + 1 <= m) && DistinctIn(chain)
    ensures Cost(f, Bump(len, chain), 257) == Cost(f, len, 257) + Weight(f, chain)
    ensures 2 * Kraft(f, Bump(len, chain), m, 257) == 2 * Kraft(f, len, m, 257) - ChainKraft(len, m, chain)
    ensures 2 * ChainKraft(Bump(len, chain), m, chain) == ChainKraft(len, m, chain)
    decreases |chain|
  {
    hide Cost, Kraft, Term;
    if chain != [] {
      var s, rest := chain[0], chain[1..];
      var len1 := len[s := len[s] + 1];
      BumpSums(f, len1, m, rest);
      BumpAt(len1, rest, s);
      ChainKraftSame(len, len1, m, rest);
      CostUpdate(f, len, s, len[s] + 1, 257);
      MulSucc(len[s], f[s]);
      KraftUpdate(f, len, m, s, f[s], len[s] + 1, 257);
      assert f[s := f[s]] == f;
      TermHalves(len[s], m);
      TermPositive(f[s], len[s], m);
      TermPositive(f[s], len[s] + 1, m);
    }
  }

  lemma TermPositive(w: nat, l: nat, m: nat)
    requires w > 0
    ensures Term(w, l, m) == Term(1, l, m)
  {
  }

  // ----- the forest -----

  /** The tree with root r: a chain of counted symbols that starts at r. Its count is
      the sum of theirs, and their codes fill the code space under r. */
  ghost predicate IsTree(f0: Counts, count: nat, len: Counts, others: seq<int>, chain: seq<nat>, owner: seq<nat>, m: nat, r: nat)
    requires |owner| == 257
  {
    Linked(others, chain) && chain[0] == r && DistinctIn(chain) &&
    (forall k :: 0 <= k < |chain| ==> f0[chain[k]] > 0 && owner[chain[k]] == r) &&
    Weight(f0, chain) == count && ChainKraft(len, m, chain) == Pow2(m)
  }

  /** The state of the merge loop. chains[r] is the chain of root r, owner[s] the root
      of symbol s; m bounds all code lengths. */
  ghost predicate Forest(f0: Counts, f: Counts, len: Counts, others: seq<int>, chains: seq<seq<nat>>, owner: seq<nat>, m: nat) {
    |others| == |chains| == |owner| == 257 && m >= 257 &&
    (forall r :: 0 <= r < 257 && f[r] > 0 ==> IsTree(f0, f[r], len, others, chains[r], owner, m, r)) &&
    Total(f, 257) == Total(f0, 257) &&
    Kraft(f0, len, m, 257) == Live(f, 257) * Pow2(m) &&
    Live(f, 257) <= Live(f0, 257) &&
    (forall s :: 0 <= s < 257 ==> len[s] + Live(f, 257) <= Live(f0, 257) && (f0[s] == 0 ==> len[s] == 0))
  }

  /** Merging the trees c1 and c2. */
  function Merged(f: Counts, c1: nat, c2: nat): Counts
    requires c1 < 257 && c2 < 257
  {
    f[c1 := f[c1] + f[c2]][c2 := 0]
  }

  /** All code lengths of the two chains grow. */
  function Deeper(len: Counts, ch1: seq<nat>, ch2: seq<nat>): Counts
    requires (forall k :: 0 <= k < |ch1| ==> ch1[k] < 257) && (forall k :: 0 <= k < |ch2| ==> ch2[k] < 257)
  {
    Bump(Bump(len, ch1), ch2)
  }

  lemma MergedSums(f: Counts, c1: nat, c2: nat)
    requires c1 < 257 && c2 < 257 && c1 != c2 && f[c1] > 0 && f[c2] > 0
    ensures Total(Merged(f, c1, c2), 257) == Total(f, 257) && Live(Merged(f, c1, c2), 257) == Live(f, 257) - 1
  {
    TotalUpdate(f, c1, f[c1] + f[c2], 257);
    TotalUpdate(f[c1 := f[c1] + f[c2]], c2, 0, 257);
    LiveUpdate(f, c1, f[c1] + f[c2], 257);
    LiveUpdate(f[c1 := f[c1] + f[c2]], c2, 0, 257);
  }

  ghost predicate Apart(ch1: seq<nat>, ch2: seq<nat>) {
    forall i, j :: 0 <= i < |ch1| && 0 <= j < |ch2| ==> ch1[i] != ch2[j]
  }

  ghost predicate InRange(chain: seq<nat>) {
    forall k :: 0 <= k < |chain| ==> chain[k] < 257
  }

  /** Both chains fill half of the code space under the new root. */
  lemma DeeperKraft(f0: Counts, len: Counts, m: nat, ch1: seq<nat>, ch2: seq<nat>)
    requires InRange(ch1) && InRange(ch2) && DistinctIn(ch1) && DistinctIn(ch2) && Apart(ch1, ch2) && InRange(ch1 + ch2)
    requires forall s :: 0 <= s < 257 ==> len[s] + 1 <= m
    requires (forall k :: 0 <= k < |ch1| ==> f0[ch1[k]] > 0) && (forall k :: 0 <= k < |ch2| ==> f0[ch2[k]] > 0)
    requires ChainKraft(len, m, ch1) == ChainKraft(len, m, ch2) == Pow2(m)
    ensures var len2 := Deeper(len, ch1, ch2);
            ChainKraft(len2, m, ch1 + ch2) == Pow2(m) && Kraft(f0, len2, m, 257) == Kraft(f0, len, m, 257) - Pow2(m)
    ensures Cost(f0, Deeper(len, ch1, ch2), 257) == Cost(f0, len, 257) + Weight(f0, ch1) + Weight(f0, ch2)
  {
    hide Cost, Kraft, Term, ChainKraft, Bump, Weight, Pow2;
    var len1 := Bump(len, ch1);
    var len2 := Bump(len1, ch2);
    BumpSums(f0, len, m, ch1);
    forall k | 0 <= k < |ch2| ensures len1[ch2[k]] == len[ch2[k]] {
      BumpAt(len, ch1, ch2[k]);
    }
    ChainKraftSame(len, len1, m, ch2);
    BumpSums(f0, len1, m, ch2);
    forall k | 0 <= k < |ch1| ensures len2[ch1[k]] == len1[ch1[k]] {
      BumpAt(len1, ch2, ch1[k]);
    }
    ChainKraftSame(len1, len2, m, ch1);
    ChainKraftConcat(len2, m, ch1, ch2);
  }

  /** Trees that take no part in a merge stay as they are. */
  lemma TreeKept(f0: Counts, count: nat, len: Counts, others: seq<int>, chain: seq<nat>, owner: seq<nat>, m: nat, r: nat,
                 len1: Counts, others1: seq<int>, owner1: seq<nat>)
    requires |owner| == |owner1| == |others1| == 257 && IsTree(f0, count, len, others, chain, owner, m, r)
    requires forall s :: 0 <= s < 257 && owner[s] == r ==> len1[s] == len[s] && others1[s] == others[s] && owner1[s] == r
    ensures IsTree(f0, count, len1, others1, chain, owner1, m, r)
  {
    hide Term, Pow2, Weight, ChainKraft;
    ChainKraftSame(len, len1, m, chain);
  }

  /** The merged chain is linked up. */
  lemma LinkedConcat(others: seq<int>, ch1: seq<nat>, ch2: seq<nat>)
    requires Linked(others, ch1) && Linked(others, ch2) && DistinctIn(ch1) && DistinctIn(ch2) && Apart(ch1, ch2)
    ensures Linked(others[ch1[|ch1| - 1] := ch2[0]], ch1 + ch2) && DistinctIn(ch1 + ch2)
  {
    var ch, last := ch1 + ch2, ch1[|ch1| - 1];
    var o := others[last := ch2[0]];
    forall k | 0 <= k < |ch| - 1 ensures o[ch[k]] == ch[k + 1] {
      if k < |ch1| - 1 {
        assert ch[k] == ch1[k] != last;
      } else if k >= |ch1| {
        assert ch[k] == ch2[k - |ch1|];
      }
    }
  }

  lemma {:induction false} LiveBound(f: Counts, n: nat)
    requires n <= 257
    ensures Live(f, n) <= n
  {
    if n > 0 { LiveBound(f, n - 1); }
  }

  /** Owners after c2's symbols have moved to c1. */
  function NewOwner(owner: seq<nat>, c1: nat, c2: nat): (r: seq<nat>)
    requires |owner| == 257
    ensures |r| == 257
  {
    seq(257, s requires 0 <= s < 257 => if owner[s] == c2 then c1 else owner[s])
  }

  /** What the merge does to each code length. */
  lemma DeeperAt(len: Counts, ch1: seq<nat>, ch2: seq<nat>, s: nat)
    requires InRange(ch1) && InRange(ch2) && DistinctIn(ch1) && DistinctIn(ch2) && Apart(ch1, ch2) && s < 257
    ensures Deeper(len, ch1, ch2)[s] == len[s] + (if s in ch1 || s in ch2 then 1 else 0)
  {
    hide Bump;
    BumpAt(len, ch1, s);
    BumpAt(Bump(len, ch1), ch2, s);
  }

  /** Two live roots whose trees are about to be merged. */
  ghost predicate Pair(f0: Counts, f: Counts, len: Counts, others: seq<int>, chains: seq<seq<nat>>, owner: seq<nat>, m: nat, c1: nat, c2: nat) {
    Forest(f0, f, len, others, chains, owner, m) && c1 < 257 && c2 < 257 && c1 != c2 && f[c1] > 0 && f[c2] > 0
  }

  lemma PairFacts(f0: Counts, f: Counts, len: Counts, others: seq<int>, chains: seq<seq<nat>>, owner: seq<nat>, m: nat, c1: nat, c2: nat)
    requires Pair(f0, f, len, others, chains, owner, m, c1, c2)
    ensures IsTree(f0, f[c1], len, others, chains[c1], owner, m, c1) && IsTree(f0, f[c2], len, others, chains[c2], owner, m, c2)
    ensures InRange(chains[c1]) && InRange(chains[c2]) && Apart(chains[c1], chains[c2]) && chains[c1] != []
    ensures forall s :: 0 <= s < 257 ==> len[s] + 1 <= m
  {
    hide Term, Pow2, Weight, ChainKraft, Kraft, Total, Live;
    LiveTwo(f, c1, c2, 257);
    LiveBound(f0, 257);
  }

  /** Trees other than c1 and c2 survive a merge. */
  lemma OthersSurvive(f0: Counts, f: Counts, len: Counts, others: seq<int>, chains: seq<seq<nat>>, owner: seq<nat>, m: nat,
                      c1: nat, c2: nat, r: nat)
    requires Pair(f0, f, len, others, chains, owner, m, c1, c2) && r < 257 && r != c1 && r != c2 && f[r] > 0
    requires InRange(chains[c1]) && InRange(chains[c2]) && chains[c1] != []
    ensures IsTree(f0, f[r], Deeper(len, chains[c1], chains[c2]), others[chains[c1][|chains[c1]| - 1] := c2], chains[r],
                   NewOwner(owner, c1, c2), m, r)
  {
    hide Term, Pow2, Weight, ChainKraft, Kraft, Total, Live, Deeper;
    PairFacts(f0, f, len, others, chains, owner, m, c1, c2);
    var ch1, ch2 := chains[c1], chains[c2];
    forall s | 0 <= s < 257 && owner[s] == r ensures Deeper(len, ch1, ch2)[s] == len[s] {
      DeeperAt(len, ch1, ch2, s);
    }
    TreeKept(f0, f[r], len, others, chains[r], owner, m, r, Deeper(len, ch1, ch2), others[ch1[|ch1| - 1] := c2], NewOwner(owner, c1, c2));
  }

  /** The merged tree. */
  lemma NewTree(f0: Counts, f: Counts, len: Counts, others: seq<int>, chains: seq<seq<nat>>, owner: seq<nat>, m: nat, c1: nat, c2: nat)
    requires Pair(f0, f, len, others, chains, owner, m, c1, c2)
    requires InRange(chains[c1]) && InRange(chains[c2]) && chains[c1] != []
    ensures IsTree(f0, f[c1] + f[c2], Deeper(len, chains[c1], chains[c2]), others[chains[c1][|chains[c1]| - 1] := c2],
                   chains[c1] + chains[c2], NewOwner(owner, c1, c2), m, c1)
  {
    hide Term, Pow2, Weight, ChainKraft, Kraft, Total, Live, Deeper;
    PairFacts(f0, f, len, others, chains, owner, m, c1, c2);
    var ch1, ch2 := chains[c1], chains[c2];
    LinkedConcat(others, ch1, ch2);
    DeeperKraft(f0, len, m, ch1, ch2);
    WeightConcat(f0, ch1, ch2);
  }

  lemma ForestStep(f0: Counts, f: Counts, len: Counts, others: seq<int>, chains: seq<seq<nat>>, owner: seq<nat>, m: nat, c1: nat, c2: nat)
    requires Pair(f0, f, len, others, chains, owner, m, c1, c2)
    requires InRange(chains[c1]) && InRange(chains[c2]) && chains[c1] != []
    ensures Forest(f0, Merged(f, c1, c2), Deeper(len, chains[c1], chains[c2]), others[chains[c1][|chains[c1]| - 1] := c2],
                   chains[c1 := chains[c1] + chains[c2]], NewOwner(owner, c1, c2), m)
    ensures Cost(f0, Deeper(len, chains[c1], chains[c2]), 257) == Cost(f0, len, 257) + f[c1] + f[c2]
  {
    hide Term, Pow2, Weight, ChainKraft, Kraft, Total, Live, Deeper, NewOwner, Cost;
    PairFacts(f0, f, len, others, chains, owner, m, c1, c2);
    var ch1, ch2 := chains[c1], chains[c2];
    MergedSums(f, c1, c2);
    DeeperKraft(f0, len, m, ch1, ch2);
    OneTreeLess(Live(f, 257), Pow2(m));
    var f1 := Merged(f, c1, c2);
    forall r: nat | r < 257 && f1[r] > 0
      ensures IsTree(f0, f1[r], Deeper(len, ch1, ch2), others[ch1[|ch1| - 1] := c2], chains[c1 := ch1 + ch2][r], NewOwner(owner, c1, c2), m, r)
    {
      if r == c1 {
        NewTree(f0, f, len, others, chains, owner, m, c1, c2);
      } else {
        OthersSurvive(f0, f, len, others, chains, owner, m, c1, c2, r);
      }
    }
    forall s: nat | s < 257
      ensures Deeper(len, ch1, ch2)[s] + Live(f1, 257) <= Live(f0, 257) && (f0[s] == 0 ==> Deeper(len, ch1, ch2)[s] == 0)
    {
      DeeperAt(len, ch1, ch2, s);
    }
  }

  lemma OneTreeLess(n: int, p: int)
    ensures (n - 1) * p == n * p - p
  {
  }
}
