/** The pseudo-symbol 256 gets one of the longest of Huffman's codes, because the search
    for the smallest count takes the larger symbol in case of a tie. */
module ReservedSymbol {
  import opened HuffmanMerge
  import opened HuffmanOptimal

  /** The order in which the searches take the roots: by count, the larger symbol first. */
  function Rank(f: Counts, r: nat): int
    requires r < 257
  {
    257 * f[r] + 256 - r
  }

  ghost predicate Root(f: Counts, r: nat) {
    r < 257 && f[r] > 0
  }

  /** a and b, merged under a, would be taken after root. */
  ghost predicate PairAfter(f: Counts, root: nat, a: nat, b: nat)
    requires root < 257 && a < 257 && b < 257
  {
    Rank(f, a) < Rank(f, b) ==> Rank(f, a) + 257 * f[b] > Rank(f, root)
  }

  /** The tree of symbol s is not deeper at s than that of 256 at 256; if it is another
      tree and as deep, then it is taken later. */
  ghost predicate NotDeeper(f: Counts, len: Counts, owner: seq<nat>, root: nat, s: nat)
    requires |owner| == 257 && s < 257
  {
    Root(f, owner[s]) && root < 257 && len[s] <= len[256] &&
    (owner[s] != root && len[s] == len[256] ==> Rank(f, owner[s]) > Rank(f, root))
  }

  /** No tree is deeper than the tree of 256 is at 256, nor can become so first. */
  ghost predicate Deep(f0: Counts, f: Counts, len: Counts, owner: seq<nat>) {
    |owner| == 257 && Root(f, owner[256]) &&
    (forall s :: 0 <= s < 257 && f0[s] > 0 ==> NotDeeper(f, len, owner, owner[256], s)) &&
    (forall a: nat, b: nat :: Root(f, a) && Root(f, b) && a != owner[256] && b != owner[256] ==> PairAfter(f, owner[256], a, b))
  }

  /** c1 and c2 are the first two roots. */
  ghost predicate FirstTwo(f: Counts, c1: nat, c2: nat) {
    Root(f, c1) && Root(f, c2) && c1 != c2 &&
    forall r: nat :: Root(f, r) && r != c1 ==> Rank(f, c1) < Rank(f, r) && (r != c2 ==> Rank(f, c2) < Rank(f, r))
  }

  lemma SearchesTakeFirst(f: Counts, c1: nat, c2: nat)
    requires forall i :: 0 <= i < 257 ==> f[i] <= MAX_COUNT
    requires c1 == Smallest(f, -1, 257) && c2 == Smallest(f, c1, 257)
    ensures FirstTwo(f, c1, c2)
  {
    hide Smallest;
    SmallestIs(f, -1, 257);
    SmallestIs(f, c1, 257);
  }

  lemma DeepStart(f: Counts, len: Counts, owner: seq<nat>)
    requires f[256] == 1 && |owner| == 257 && forall i :: 0 <= i < 257 ==> len[i] == 0 && owner[i] == i
    ensures Deep(f, f, len, owner)
  {
  }

  /** A pair of other roots is behind the first two. */
  lemma PairsBehind(f: Counts, c1: nat, c2: nat, a: nat, b: nat)
    requires FirstTwo(f, c1, c2) && a != c1 && a != c2 && b != c1 && b != c2 && Root(f, a) && Root(f, b)
    ensures PairAfter(Merged(f, c1, c2), c1, a, b)
  {
    assert Rank(f, c1) < Rank(f, a) && Rank(f, c2) < Rank(f, b);
  }

  /** Merging two trees does not bring them forward. */
  lemma PairsLater(f: Counts, root: nat, c1: nat, c2: nat, a: nat, b: nat)
    requires c1 < 257 && c2 < 257 && Root(f, root) && root != c1 && root != c2 && f[c2] > 0
    requires a != c2 && b != c2 && Root(f, a) && Root(f, b) && PairAfter(f, root, a, b)
    requires b == c1 ==> PairAfter(f, root, c1, a)
    ensures PairAfter(Merged(f, c1, c2), root, a, b)
  {
  }

  /** Pairs of roots stay behind the tree of 256. */
  lemma PairsStep(f: Counts, root: nat, c1: nat, c2: nat, a: nat, b: nat)
    requires FirstTwo(f, c1, c2) && Root(f, root)
    requires a < 257 && b < 257 && a != c2 && b != c2 && Root(f, a) && Root(f, b)
    requires forall x: nat, y: nat :: Root(f, x) && Root(f, y) && x != root && y != root ==> PairAfter(f, root, x, y)
    requires var root1 := if root == c2 then c1 else root; a != root1 && b != root1
    ensures PairAfter(Merged(f, c1, c2), if root == c2 then c1 else root, a, b)
  {
    hide Merged, PairAfter;
    if root == c1 || root == c2 {
      PairsBehind(f, c1, c2, a, b);
    } else {
      PairsLater(f, root, c1, c2, a, b);
    }
  }

  /** What a merge does to the tree of one symbol. */
  lemma NotDeeperStep(f: Counts, len: Counts, owner: seq<nat>, len1: Counts, c1: nat, c2: nat, root: nat, s: nat)
    requires FirstTwo(f, c1, c2) && |owner| == 257 && s < 257 && root == owner[256] && Root(f, root)
    requires NotDeeper(f, len, owner, root, s)
    requires root != c1 && root != c2 ==> PairAfter(f, root, c1, c2)
    requires len1[s] == len[s] + (if owner[s] == c1 || owner[s] == c2 then 1 else 0)
    requires len1[256] == len[256] + (if root == c1 || root == c2 then 1 else 0)
    ensures NotDeeper(Merged(f, c1, c2), len1, NewOwner(owner, c1, c2), if root == c2 then c1 else root, s)
  {
  }

  /** The merged tree has the root c1. */
  lemma RootKept(f: Counts, owner: seq<nat>, c1: nat, c2: nat)
    requires FirstTwo(f, c1, c2) && |owner| == 257 && Root(f, owner[256])
    ensures Root(f, c1) && Root(f, c2) && NewOwner(owner, c1, c2)[256] == (if owner[256] == c2 then c1 else owner[256])
    ensures Root(Merged(f, c1, c2), NewOwner(owner, c1, c2)[256])
  {
  }

  lemma RootBefore(f: Counts, c1: nat, c2: nat, r: nat)
    requires FirstTwo(f, c1, c2) && Root(Merged(f, c1, c2), r)
    ensures Root(f, r) && r != c2
  {
  }

  lemma OneDeeper(f0: Counts, f: Counts, len: Counts, others: seq<int>, chains: seq<seq<nat>>, owner: seq<nat>, m: nat, c1: nat, c2: nat, s: nat)
    requires Pair(f0, f, len, others, chains, owner, m, c1, c2) && Owned(f0, chains, owner)
    requires InRange(chains[c1]) && InRange(chains[c2]) && s < 257 && f0[s] > 0
    ensures Deeper(len, chains[c1], chains[c2])[s] == len[s] + (if owner[s] == c1 || owner[s] == c2 then 1 else 0)
  {
    hide Kraft, Total, Live, Deeper, Merged, Weight, ChainKraft;
    PairFacts(f0, f, len, others, chains, owner, m, c1, c2);
    DeeperAt(len, chains[c1], chains[c2], s);
  }

  lemma DeepStep(f0: Counts, f: Counts, len: Counts, others: seq<int>, chains: seq<seq<nat>>, owner: seq<nat>, m: nat, c1: nat, c2: nat)
    requires Pair(f0, f, len, others, chains, owner, m, c1, c2) && Owned(f0, chains, owner) && Deep(f0, f, len, owner)
    requires InRange(chains[c1]) && InRange(chains[c2]) && FirstTwo(f, c1, c2) && f0[256] > 0
    ensures Deep(f0, Merged(f, c1, c2), Deeper(len, chains[c1], chains[c2]), NewOwner(owner, c1, c2))
  {
    hide Forest, Deeper, Merged, NotDeeper, PairAfter, FirstTwo, NewOwner;
    var root := owner[256];
    var root1 := if root == c2 then c1 else root;
    var f1, len1, owner1 := Merged(f, c1, c2), Deeper(len, chains[c1], chains[c2]), NewOwner(owner, c1, c2);
    RootKept(f, owner, c1, c2);
    OneDeeper(f0, f, len, others, chains, owner, m, c1, c2, 256);
    forall s | 0 <= s < 257 && f0[s] > 0 ensures NotDeeper(f1, len1, owner1, root1, s) {
      OneDeeper(f0, f, len, others, chains, owner, m, c1, c2, s);
      NotDeeperStep(f, len, owner, len1, c1, c2, root, s);
    }
    forall a: nat, b: nat | Root(f1, a) && Root(f1, b) && a != root1 && b != root1 ensures PairAfter(f1, root1, a, b) {
      RootBefore(f, c1, c2, a);
      RootBefore(f, c1, c2, b);
      PairsStep(f, root, c1, c2, a, b);
    }
  }

  /** The pseudo-symbol stays deepest until all trees are merged. */
  lemma {:induction false} DeepToTheEnd(f0: Counts, f: Counts, len: Counts, others: seq<int>, chains: seq<seq<nat>>, owner: seq<nat>, m: nat)
    requires Forest(f0, f, len, others, chains, owner, m) && Live(f, 257) > 0 && Total(f0, 257) <= MAX_COUNT
    requires Grown(f0, f, len, owner) && Owned(f0, chains, owner) && ChainsOk(chains) && Deep(f0, f, len, owner) && f0[256] > 0
    ensures forall s :: 0 <= s < 257 && f0[s] > 0 ==> Sizes(f, len, chains)[s] <= Sizes(f, len, chains)[256]
    decreases Live(f, 257)
  {
    hide Total, Live, Kraft, IsTree, Deeper, Merged, NewOwner, Smallest, Grown, Owned, FirstTwo, Root, PairAfter, Sizes;
    CountsBounded(f);
    SmallestIs(f, -1, 257);
    var c1 := Smallest(f, -1, 257);
    var live := LiveAt(f, 257);
    SmallestIs(f, c1, 257);
    var c2 := Smallest(f, c1, 257);
    SizesStep(f, len, chains, c1, c2);
    if c2 >= 0 {
      SearchesTakeFirst(f, c1, c2);
      PairFacts(f0, f, len, others, chains, owner, m, c1, c2);
      ForestStep(f0, f, len, others, chains, owner, m, c1, c2);
      GrownStep(f0, f, len, others, chains, owner, m, c1, c2);
      DeepStep(f0, f, len, others, chains, owner, m, c1, c2);
      MergedSums(f, c1, c2);
      LiveTwo(f, c1, c2, 257);
      DeepToTheEnd(f0, Merged(f, c1, c2), Deeper(len, chains[c1], chains[c2]), others[chains[c1][|chains[c1]| - 1] := c2],
                   chains[c1 := chains[c1] + chains[c2]], NewOwner(owner, c1, c2), m);
    }
  }

  /** No symbol has a longer code than the pseudo-symbol. */
  lemma ReservedIsLongest(f: Counts)
    requires Total(f, 257) <= MAX_COUNT && Live(f, 257) > 0 && f[256] == 1
    ensures forall s :: 0 <= s < 257 ==> HuffmanSizes(f)[s] <= HuffmanSizes(f)[256]
  {
    hide Total, Live, Forest, Sizes, Deep;
    var len: Counts := seq(257, _ => 0);
    var others := seq(257, _ => -1);
    var owner := seq(257, i requires 0 <= i < 257 => i);
    ForestStart(f, len, others, Singles(), owner, SYMBOLS);
    GrownStart(f, len, Singles(), owner);
    DeepStart(f, len, owner);
    DeepToTheEnd(f, f, len, others, Singles(), owner, SYMBOLS);
    HuffmanSizesOptimal(f);
  }
}
