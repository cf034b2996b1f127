/** Counts that grow like the Fibonacci numbers make Huffman's codes as long as they can
    get: table generation then gives up although the counts are in range. */
module LongCodes {
  import opened HuffmanMerge
  import opened HuffmanOptimal
  import opened OptimalTable

  /** 33 symbols, with the counts 1, 2, 3, 5, 8 ... */
  function FibCounts(): Counts {
    seq(257, i requires 0 <= i < 257 => if i < 33 then Fib(i + 2) else 0)
  }

  ghost predicate Before(chain: seq<nat>, k: nat) {
    forall j :: 0 <= j < |chain| ==> chain[j] == 256 || chain[j] < k
  }

  /** After k merges: the tree of root k - 1 has the symbols before k and the
      pseudo-symbol 256, which is k levels deep; the others are untouched. */
  ghost predicate Merges(k: nat, f: Counts, len: Counts, chains: seq<seq<nat>>) {
    3 <= k <= 33 && ChainsOk(chains) && len[256] == k &&
    (forall i :: k <= i < 33 ==> f[i] == Fib(i + 2) && chains[i] == [i]) && f[k - 1] == Fib(k + 3) - 1 &&
    (forall i :: 0 <= i < 257 && (i < k - 1 || i >= 33) ==> f[i] == 0) &&
    DistinctIn(chains[k - 1]) && 256 in chains[k - 1] && Before(chains[k - 1], k)
  }

  lemma FibStep(n: nat)
    ensures Fib(n + 2) == Fib(n + 1) + Fib(n)
  {
  }

  /** The two smallest are the next symbol and the tree. */
  lemma NextTwo(k: nat, f: Counts, len: Counts, chains: seq<seq<nat>>)
    requires Merges(k, f, len, chains)
    ensures k < 33 ==> Smallest(f, -1, 257) == k && Smallest(f, k, 257) == k - 1
    ensures k == 33 ==> Smallest(f, -1, 257) == 32 && Smallest(f, 32, 257) == -1
  {
    hide Smallest, Fib;
    Increasing(k, f);
    Range(f, k);
    SmallestIs(f, -1, 257);
    var c1 := Smallest(f, -1, 257);
    assert f[k - 1] > 0;
    SmallestIs(f, c1, 257);
    var c2 := Smallest(f, c1, 257);
    if k < 33 {
      assert f[k] < f[k - 1];
    }
  }

  lemma Range(f: Counts, k: nat)
    requires k <= 33 && k >= 1 && (forall i :: k <= i < 33 ==> f[i] == Fib(i + 2)) && f[k - 1] == Fib(k + 3) - 1
    requires forall i :: 0 <= i < 257 && (i < k - 1 || i >= 33) ==> f[i] == 0
    ensures forall i :: 0 <= i < 257 ==> f[i] <= MAX_COUNT
  {
    hide Fib;
    Fib36();
    forall i | 0 <= i < 257 ensures f[i] <= MAX_COUNT {
      if i >= k && i < 33 { FibGrows(i + 2, 36); }
      if i == k - 1 { FibGrows(k + 3, 36); }
    }
  }

  lemma Fib36()
    ensures Fib(36) == 14_930_352
  {
    Fib35();
    assert Fib(34) == 5_702_887 by { Fib34(); }
  }

  lemma Increasing(k: nat, f: Counts)
    requires 3 <= k <= 33 && forall i :: k <= i < 33 ==> f[i] == Fib(i + 2)
    ensures Fib(k + 3) - 1 > Fib(k + 2) > 0 && forall i :: k < i < 33 ==> f[i] > Fib(k + 3) - 1
  {
    FibStep(k + 1);
    FibGrows(3, k + 1);
    assert Fib(3) == 2;
    FibGrows(1, k + 2);
    hide Fib;
    forall i | k < i < 33 ensures f[i] > Fib(k + 3) - 1 {
      FibGrows(k + 3, i + 2);
    }
  }

  lemma MergesNext(k: nat, f: Counts, len: Counts, chains: seq<seq<nat>>)
    requires Merges(k, f, len, chains) && k < 33
    ensures Merges(k + 1, Merged(f, k, k - 1), Deeper(len, chains[k], chains[k - 1]), chains[k := chains[k] + chains[k - 1]])
  {
    hide Fib, Deeper;
    FibStep(k + 2);
    ChainsJoin(chains, k, k - 1);
    DeeperAt(len, chains[k], chains[k - 1], 256);
    var ch := chains[k] + chains[k - 1];
    assert ch[1..] == chains[k - 1];
    forall i, j | 0 <= i < j < |ch| ensures ch[i] != ch[j] {
      assert ch[j] == chains[k - 1][j - 1];
      if i > 0 { assert ch[i] == chains[k - 1][i - 1]; }
    }
  }

  lemma {:induction false} RunOn(k: nat, f: Counts, len: Counts, chains: seq<seq<nat>>)
    requires Merges(k, f, len, chains)
    ensures Sizes(f, len, chains)[256] == 33
    decreases 33 - k
  {
    hide Fib, Deeper, Merged, Smallest, Sizes;
    NextTwo(k, f, len, chains);
    if k < 33 {
      SizesStep(f, len, chains, k, k - 1);
      MergesNext(k, f, len, chains);
      RunOn(k + 1, Merged(f, k, k - 1), Deeper(len, chains[k], chains[k - 1]), chains[k := chains[k] + chains[k - 1]]);
    } else {
      SizesStep(f, len, chains, 32, -1);
    }
  }

  /** Before any merge, and after one and two merges. */
  ghost predicate Begins(k: nat, f: Counts, len: Counts, chains: seq<seq<nat>>) {
    k <= 2 && ChainsOk(chains) && len[256] == k && f[256] == [1, 2, 4][k] &&
    (forall i :: k <= i < 33 ==> f[i] == Fib(i + 2) && chains[i] == [i]) &&
    (forall i :: 0 <= i < 256 && (i < k || i >= 33) ==> f[i] == 0) &&
    DistinctIn(chains[256]) && 256 in chains[256] && Before(chains[256], k)
  }

  lemma BeginsTwo(k: nat, f: Counts, len: Counts, chains: seq<seq<nat>>)
    requires Begins(k, f, len, chains)
    ensures k < 2 ==> Smallest(f, -1, 257) == 256 && Smallest(f, 256, 257) == k
    ensures k == 2 ==> Smallest(f, -1, 257) == 2 && Smallest(f, 2, 257) == 256
  {
    hide Smallest;
    assert Fib(2) == 1 && Fib(3) == 2 && Fib(4) == 3 && Fib(5) == 5;
    hide Fib;
    InRangeAtFirst(f, k);
    Rising(f, k);
    assert f[k] == k + 1 && f[k + 1] == if k < 1 then 2 else if k < 2 then 3 else 5;
    SmallestIs(f, -1, 257);
    SmallestIs(f, Smallest(f, -1, 257), 257);
  }

  lemma Rising(f: Counts, k: nat)
    requires k <= 2 && forall i :: k <= i < 33 ==> f[i] == Fib(i + 2)
    ensures forall i :: k < i < 33 ==> f[i] >= Fib(k + 3)
    ensures forall i :: 3 <= i < 33 ==> f[i] >= Fib(5)
  {
    hide Fib;
    forall i | k < i < 33 ensures f[i] >= Fib(k + 3) {
      FibGrows(k + 3, i + 2);
    }
    forall i | 3 <= i < 33 ensures f[i] >= Fib(5) {
      FibGrows(5, i + 2);
    }
  }

  lemma InRangeAtFirst(f: Counts, k: nat)
    requires k <= 2 && f[256] <= 4 && (forall i :: k <= i < 33 ==> f[i] == Fib(i + 2))
    requires forall i :: 0 <= i < 256 && (i < k || i >= 33) ==> f[i] == 0
    ensures forall i :: 0 <= i < 257 ==> f[i] <= MAX_COUNT
  {
    hide Fib;
    Fib36();
    forall i | 0 <= i < 257 ensures f[i] <= MAX_COUNT {
      if i >= k && i < 33 { FibGrows(i + 2, 36); }
    }
  }

  lemma BeginsNext(k: nat, f: Counts, len: Counts, chains: seq<seq<nat>>)
    requires Begins(k, f, len, chains) && k < 2
    ensures Begins(k + 1, Merged(f, 256, k), Deeper(len, chains[256], chains[k]), chains[256 := chains[256] + chains[k]])
  {
    hide Deeper;
    assert Fib(2) == 1 && Fib(3) == 2;
    hide Fib;
    ChainsJoin(chains, 256, k);
    DeeperAt(len, chains[256], chains[k], 256);
    var ch := chains[256] + [k];
    forall i, j | 0 <= i < j < |ch| ensures ch[i] != ch[j] {
      assert ch[i] == chains[256][i];
      if j < |ch| - 1 { assert ch[j] == chains[256][j]; }
    }
    var x :| 0 <= x < |chains[256]| && chains[256][x] == 256;
    assert ch[x] == 256;
  }

  lemma ThirdMerge(f: Counts, len: Counts, chains: seq<seq<nat>>)
    requires Begins(2, f, len, chains)
    ensures Merges(3, Merged(f, 2, 256), Deeper(len, chains[2], chains[256]), chains[2 := chains[2] + chains[256]])
  {
    hide Deeper;
    assert Fib(4) == 3 && Fib(6) == 8;
    hide Fib;
    ChainsJoin(chains, 2, 256);
    DeeperAt(len, chains[2], chains[256], 256);
    var ch := [2] + chains[256];
    assert ch[1..] == chains[256];
    forall i, j | 0 <= i < j < |ch| ensures ch[i] != ch[j] {
      assert ch[j] == chains[256][j - 1];
      if i > 0 { assert ch[i] == chains[256][i - 1]; }
    }
  }

  lemma RunFromStart(f: Counts, len: Counts, chains: seq<seq<nat>>)
    requires Begins(0, f, len, chains)
    ensures Sizes(f, len, chains)[256] == 33
  {
    hide Fib, Deeper, Merged, Smallest, Sizes, Begins, Merges;
    BeginsChains(0, f, len, chains);
    BeginsTwo(0, f, len, chains);
    SizesStep(f, len, chains, 256, 0);
    BeginsNext(0, f, len, chains);
    var f1, len1, ch1 := Merged(f, 256, 0), Deeper(len, chains[256], chains[0]), chains[256 := chains[256] + chains[0]];
    BeginsChains(1, f1, len1, ch1);
    BeginsTwo(1, f1, len1, ch1);
    SizesStep(f1, len1, ch1, 256, 1);
    BeginsNext(1, f1, len1, ch1);
    var f2, len2, ch2 := Merged(f1, 256, 1), Deeper(len1, ch1[256], ch1[1]), ch1[256 := ch1[256] + ch1[1]];
    BeginsChains(2, f2, len2, ch2);
    BeginsTwo(2, f2, len2, ch2);
    SizesStep(f2, len2, ch2, 2, 256);
    ThirdMerge(f2, len2, ch2);
    RunOn(3, Merged(f2, 2, 256), Deeper(len2, ch2[2], ch2[256]), ch2[2 := ch2[2] + ch2[256]]);
  }

  lemma BeginsChains(k: nat, f: Counts, len: Counts, chains: seq<seq<nat>>)
    requires Begins(k, f, len, chains)
    ensures ChainsOk(chains)
  {
  }

  // ----- the counts are legal -----

  lemma {:induction false} SumOfFib(n: nat)
    requires n <= 33
    ensures Total(FibCounts(), n) + 2 == Fib(n + 3) && Live(FibCounts(), n) == n
  {
    if n > 0 {
      SumOfFib(n - 1);
      FibStep(n + 1);
      FibGrows(1, n + 1);
    } else {
      assert Fib(3) == 2;
    }
  }

  lemma {:induction false} NothingMore(f: Counts, n: nat)
    requires 33 <= n <= 256 && forall i :: 33 <= i < 256 ==> f[i] == 0
    ensures Total(f, n) == Total(f, 33) && Live(f, n) == Live(f, 33)
  {
    if n > 33 { NothingMore(f, n - 1); }
  }

  /** Fifteen million counted symbols of 33 kinds for which table generation gives up. */
  lemma FibCountsTooLong()
    ensures 1 <= Live(FibCounts(), 256) <= 254 && Total(FibCounts(), 256) == 14_930_350 < MAX_COUNT
    ensures TooLong(FibCounts())
  {
    hide Fib, Live, Total, Sizes;
    SumOfFib(33);
    NothingMore(FibCounts(), 256);
    Fib36();
    var f := FibCounts()[256 := 1];
    RunFromStart(f, seq(257, _ => 0), Singles());
    assert HuffmanSizes(f)[256] == 33;
  }
}
