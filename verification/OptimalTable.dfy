/** jpeg_gen_optimal_table: a Huffman table for given symbol counts. After Huffman's
    algorithm, codes are limited to 16 bits as section K.2 of ITU-T T.81 explains, and
    a reserved symbol keeps the all-ones code free. */
module OptimalTable {
  import opened Bits
  import opened Wrappers
  import opened Tokens
  import opened HuffmanCode
  import opened HuffmanMerge
  import opened HuffmanOptimal
  import opened ReservedSymbol

  const MAX_CLEN: nat := 32

  /** Number of codes of each length up to MAX_CLEN. */
  type Lengths = b: seq<nat> | |b| == 33 witness seq(33, _ => 0)

  /** The code space taken by codes of up to n bits, in words of n bits. */
  function Taken(b: Lengths, n: nat): nat
    requires n <= 32
  {
    if n == 0 then 0 else 2 * Taken(b, n - 1) + b[n]
  }

  /** Number of codes of up to n bits. */
  function Codes(b: Lengths, n: nat): nat
    requires n <= 32
  {
    if n == 0 then 0 else Codes(b, n - 1) + b[n]
  }

  lemma {:induction false} TakenUpdate(b: Lengths, l: nat, v: nat, n: nat)
    requires 1 <= l <= 32 && n <= 32
    ensures Taken(b[l := v], n) == Taken(b, n) + (if l <= n then (v - b[l]) * Pow2(n - l) else 0)
  {
    if n > 0 {
      TakenUpdate(b, l, v, n - 1);
      if l < n {
        MulDouble(v - b[l], Pow2(n - 1 - l));
      }
    }
  }

  lemma {:induction false} CodesUpdate(b: Lengths, l: nat, v: nat, n: nat)
    requires 1 <= l <= 32 && n <= 32
    ensures Codes(b[l := v], n) == Codes(b, n) + (if l <= n then v - b[l] else 0)
  {
    if n > 0 { CodesUpdate(b, l, v, n - 1); }
  }

  lemma {:induction false} CodesBound(b: Lengths, l: nat, n: nat)
    requires 1 <= l <= n <= 32
    ensures b[l] <= Codes(b, n)
  {
    if l < n { CodesBound(b, l, n - 1); }
  }

  lemma {:induction false} NothingTaken(b: Lengths, n: nat)
    requires n <= 32 && forall l :: 1 <= l <= n ==> b[l] == 0
    ensures Taken(b, n) == 0 && Codes(b, n) == 0
  {
    if n > 0 { NothingTaken(b, n - 1); }
  }

  // ----- limiting code lengths -----

  /** n codes of up to i bits fill the code space. */
  ghost predicate Full(b: Lengths, i: nat, n: nat) {
    1 <= i <= 32 && (forall l :: i < l <= 32 ==> b[l] == 0) && Taken(b, i) == Pow2(i) && Codes(b, 32) == n
  }

  /** Long codes come in pairs, and some code is shorter by two bits at least. */
  lemma ShorterCode(b: Lengths, i: nat, n: nat) returns (w: nat)
    requires Full(b, i, n) && i >= 17 && n <= 255 && b[i] > 0
    ensures b[i] >= 2 && 1 <= w <= i - 2 && b[w] > 0
  {
    hide Codes;
    assert Taken(b, i) == 2 * Taken(b, i - 1) + b[i] && Pow2(i) == 2 * Pow2(i - 1);
    if forall l :: 1 <= l <= i - 2 ==> b[l] == 0 {
      NothingTaken(b, i - 2);
      CodesBound(b, i, 32);
      CodesBound(b, i - 1, 32);
      ManyWords(i);
      assert false;
    }
    w :| 1 <= w <= i - 2 && b[w] > 0;
  }

  lemma ManyWords(i: nat)
    requires i >= 17
    ensures Pow2(i) > 1000
  {
    Pow2Mono(10, i);
    assert Pow2(10) == 1024;
  }

  /** One step of the adjustment. */
  function Adjust(b: Lengths, i: nat, j: nat): Lengths
    requires 17 <= i <= 32 && 1 <= j <= i - 2 && b[i] >= 2 && b[j] > 0
  {
    var b1 := b[i := b[i] - 2];
    var b2 := b1[i - 1 := b1[i - 1] + 1];
    var b3 := b2[j + 1 := b2[j + 1] + 2];
    b3[j := b3[j] - 1]
  }

  /** One step of the adjustment in section K.2, on the greatest length in use: two of its
      codes go, their prefix becomes a code, and the next shorter code, of length j,
      becomes the prefix of two. */
  ghost predicate LimitStep(b: Lengths, c: Lengths, i: nat, j: nat) {
    17 <= i <= 32 && b[i] >= 2 && (forall l :: i < l <= 32 ==> b[l] == 0) &&
    NextShorter(b, i, j) && c == Adjust(b, i, j)
  }

  /** j is the greatest length in use up to i - 2. */
  ghost predicate NextShorter(b: Lengths, i: nat, j: nat) {
    2 <= i <= 32 && 1 <= j <= i - 2 && b[j] > 0 && forall l :: j < l <= i - 2 ==> b[l] == 0
  }

  ghost predicate AnyStep(b: Lengths, c: Lengths) {
    exists i: nat, j: nat :: LimitStep(b, c, i, j)
  }

  /** The stages of the adjustment. */
  ghost predicate LimitRun(run: seq<Lengths>) {
    run != [] && forall k :: 0 <= k < |run| - 1 ==> AnyStep(run[k], run[k + 1])
  }

  /** The adjustment of b ends with c. */
  ghost predicate LimitsTo(b: Lengths, c: Lengths) {
    (forall l :: 16 < l <= 32 ==> c[l] == 0) && exists run: seq<Lengths> :: LimitRun(run) && run[0] == b && run[|run| - 1] == c
  }

  lemma RunStep(run: seq<Lengths>, c: Lengths, i: nat, j: nat)
    requires LimitRun(run) && LimitStep(run[|run| - 1], c, i, j)
    ensures LimitRun(run + [c])
  {
    hide LimitStep;
    var run1 := run + [c];
    forall k | 0 <= k < |run1| - 1 ensures AnyStep(run1[k], run1[k + 1]) {
      if k < |run| - 1 {
        assert AnyStep(run[k], run[k + 1]);
      }
    }
  }

  lemma StepMade(b: Lengths, i: nat, j: nat, n: nat)
    requires Full(b, i, n) && i >= 17 && b[i] >= 2
    requires 1 <= j <= i - 2 && b[j] > 0 && forall l :: j < l <= i - 2 ==> b[l] == 0
    ensures LimitStep(b, Adjust(b, i, j), i, j)
  {
    hide Taken, Codes, Pow2;
  }

  /** What one step does to each count. */
  lemma AdjustAt(b: Lengths, i: nat, j: nat)
    requires 17 <= i <= 32 && 1 <= j <= i - 2 && b[i] >= 2 && b[j] > 0
    ensures forall l :: 0 <= l <= 32 ==>
      Adjust(b, i, j)[l] == b[l] - (if l == i then 2 else 0) + (if l == i - 1 then 1 else 0) +
                            (if l == j + 1 then 2 else 0) - (if l == j then 1 else 0)
  {
  }

  lemma AdjustKeeps(b: Lengths, i: nat, j: nat, n: nat)
    requires Full(b, i, n) && i >= 17 && 1 <= j <= i - 2 && b[i] >= 2 && b[j] > 0
    ensures Full(Adjust(b, i, j), i, n)
  {
    hide Taken, Codes, Pow2;
    var b1 := b[i := b[i] - 2];
    var b2 := b1[i - 1 := b1[i - 1] + 1];
    var b3 := b2[j + 1 := b2[j + 1] + 2];
    TakenUpdate(b, i, b[i] - 2, i);
    TakenUpdate(b1, i - 1, b1[i - 1] + 1, i);
    TakenUpdate(b2, j + 1, b2[j + 1] + 2, i);
    TakenUpdate(b3, j, b3[j] - 1, i);
    CodesUpdate(b, i, b[i] - 2, 32);
    CodesUpdate(b1, i - 1, b1[i - 1] + 1, 32);
    CodesUpdate(b2, j + 1, b2[j + 1] + 2, 32);
    CodesUpdate(b3, j, b3[j] - 1, 32);
    SmallPowers();
    NextPower(i - j - 1);
  }

  lemma SmallPowers()
    ensures Pow2(0) == 1 && Pow2(1) == 2
  {
  }

  lemma NextPower(n: nat)
    ensures Pow2(n + 1) == 2 * Pow2(n)
  {
  }

  /** Dropping an unused greatest length. */
  lemma FullShorter(b: Lengths, i: nat, n: nat)
    requires Full(b, i, n) && b[i] == 0 && i >= 2
    ensures Full(b, i - 1, n)
  {
    hide Codes;
    NextPower(i - 1);
  }

  /** UINT8 arithmetic. */
  function U8(v: int): nat {
    v % 256
  }

  /** Moves two codes of length i to shorter lengths: one to length i - 1; the other shares
      the place of a code of length j, the greatest length in use up to i - 2. */
  method AdjustOne(bits: array<nat>, i: nat, ghost n: nat) returns (ghost k: nat)
    requires bits.Length == 33 && Full(bits[..], i, n) && 17 <= i <= 32 && n <= 255 && bits[i] > 0
    modifies bits
    ensures Full(bits[..], i, n) && LimitStep(old(bits[..]), bits[..], i, k)
    ensures 1 <= k <= i - 2 && old(bits[k]) > 0 && forall l :: k < l <= i - 2 ==> old(bits[l]) == 0
    ensures forall l :: 0 <= l <= 32 ==>
      bits[l] == old(bits[l]) - (if l == i then 2 else 0) + (if l == i - 1 then 1 else 0) +
                 (if l == k + 1 then 2 else 0) - (if l == k then 1 else 0)
  {
    hide Full, LimitStep, NextShorter, Adjust;
    ghost var b := bits[..];
    ghost var w := ShorterCode(b, i, n);
    var j: nat := i - 2;
    while bits[j] == 0
      invariant w <= j <= i - 2 && forall l :: j < l <= i - 2 ==> bits[l] == 0
      decreases j
    {
      j := j - 1;
    }
    k := j;
    AdjustKeeps(b, i, j, n);
    AdjustFits(b, i, j, n);
    AdjustAt(b, i, j);
    StepMade(b, i, j, n);
    bits[i] := U8(bits[i] - 2);
    bits[i - 1] := U8(bits[i - 1] + 1);
    bits[j + 1] := U8(bits[j + 1] + 2);
    bits[j] := U8(bits[j] - 1);
    assert bits[..] == Adjust(b, i, j);
  }

  /** No count leaves the range of a UINT8. */
  lemma AdjustFits(b: Lengths, i: nat, j: nat, n: nat)
    requires Full(b, i, n) && i >= 17 && 1 <= j <= i - 2 && b[i] >= 2 && b[j] > 0 && n <= 255
    ensures b[i] <= 255 && b[j] <= 255 && b[i - 1] + 1 <= 255
    ensures b[j + 1] + 2 + (if j + 1 == i - 1 then 1 else 0) <= 255
  {
    hide Taken, Codes, Pow2;
    var b1 := b[i := b[i] - 2];
    var b2 := b1[i - 1 := b1[i - 1] + 1];
    var b3 := b2[j + 1 := b2[j + 1] + 2];
    CodesUpdate(b, i, b[i] - 2, 32);
    CodesUpdate(b1, i - 1, b1[i - 1] + 1, 32);
    CodesUpdate(b2, j + 1, b2[j + 1] + 2, 32);
    CodesUpdate(b3, j, b3[j] - 1, 32);
    CodesBound(b, i, 32);
    CodesBound(b, j, 32);
    CodesBound(b2, i - 1, 32);
    CodesBound(b3[j := b3[j] - 1], j + 1, 32);
  }

  /** The length-limiting loop. Lengths of up to 16 bits are left alone; others are
      adjusted as in section K.2, step by step from the greatest length in use. */
  method LimitLengths(bits: array<nat>, ghost n: nat)
    requires bits.Length == 33 && Full(bits[..], 32, n) && n <= 255
    modifies bits
    ensures Full(bits[..], 16, n) && LimitsTo(old(bits[..]), bits[..])
    ensures (forall l :: 17 <= l <= 32 ==> old(bits[l]) == 0) ==> bits[..] == old(bits[..])
  {
    hide Taken, Codes, Pow2, LimitRun, LimitStep;
    var i := MAX_CLEN;
    ghost var run: seq<Lengths> := [bits[..]];
    OneStage(run);
    while i > 16
      invariant 16 <= i <= 32 && Full(bits[..], i, n)
      invariant run != [] && LimitRun(run) && run[0] == old(bits[..]) && run[|run| - 1] == bits[..]
      invariant (forall l :: 17 <= l <= 32 ==> old(bits[l]) == 0) ==> bits[..] == old(bits[..])
    {
      while bits[i] > 0
        invariant Full(bits[..], i, n)
        invariant run != [] && LimitRun(run) && run[0] == old(bits[..]) && run[|run| - 1] == bits[..]
        invariant (forall l :: 17 <= l <= 32 ==> old(bits[l]) == 0) ==> bits[..] == old(bits[..])
        decreases bits[i]
      {
        ghost var k := AdjustOne(bits, i, n);
        RunStep(run, bits[..], i, k);
        run := run + [bits[..]];
      }
      FullShorter(bits[..], i, n);
      i := i - 1;
    }
  }

  lemma OneStage(run: seq<Lengths>)
    requires |run| == 1
    ensures LimitRun(run)
  {
  }

  // ----- counting code lengths -----

  /** Number of symbols among the first n that have a code of exactly, or of up
      to, l bits. */
  function OfSize(size: Counts, l: nat, n: nat): nat
    requires n <= 257
  {
    if n == 0 then 0 else OfSize(size, l, n - 1) + (if size[n - 1] == l then 1 else 0)
  }

  function UpToSize(size: Counts, l: nat, n: nat): nat
    requires n <= 257
  {
    if n == 0 then 0 else UpToSize(size, l, n - 1) + (if 1 <= size[n - 1] <= l then 1 else 0)
  }

  /** The number of symbols of each code length. */
  function Histogram(size: Counts): (b: Lengths)
    ensures b[0] == 0 && forall l :: 1 <= l <= 32 ==> b[l] == OfSize(size, l, 257)
  {
    seq(33, l requires 0 <= l < 33 => if l == 0 then 0 else OfSize(size, l, 257))
  }

  /** The lengths of the first n symbols have been counted, length by length. */
  ghost predicate CountedAt(size: Counts, b: Lengths, n: nat)
    requires n <= 257
  {
    b[0] == 0 && forall l :: 1 <= l <= 32 ==> b[l] == OfSize(size, l, n)
  }

  lemma CountOneAt(size: Counts, b: Lengths, n: nat)
    requires n < 257 && size[n] <= 32 && CountedAt(size, b, n)
    ensures size[n] == 0 ==> CountedAt(size, b, n + 1)
    ensures size[n] > 0 ==> CountedAt(size, b[size[n] := b[size[n]] + 1], n + 1)
  {
  }

  lemma CountNoneAt(size: Counts, b: Lengths)
    requires forall l :: 0 <= l <= 32 ==> b[l] == 0
    ensures CountedAt(size, b, 0)
  {
  }

  lemma CountedAll(size: Counts, b: Lengths)
    requires CountedAt(size, b, 257)
    ensures b == Histogram(size)
  {
    hide OfSize;
  }

  /** The counted symbols are exactly those with a code. */
  ghost predicate SizesFor(f: Counts, size: Counts) {
    forall s :: 0 <= s < 257 ==> (f[s] > 0 <==> size[s] > 0)
  }

  lemma {:induction false} LongPrefix(f: Counts, len: Counts, m: nat, s: nat, t: nat, n: nat)
    requires s < n <= 257 && t < n && s != t && f[s] > 0 && f[t] > 0 && len[s] == 0 && len[t] <= m
    ensures Kraft(f, len, m, n) > Pow2(m)
    decreases n
  {
    hide Pow2;
    if s == n - 1 {
      KraftAtLeast(f, len, m, t, n - 1);
    } else if t == n - 1 {
      KraftAtLeast(f, len, m, s, n - 1);
    } else {
      LongPrefix(f, len, m, s, t, n - 1);
    }
  }

  lemma {:induction false} KraftAtLeast(f: Counts, len: Counts, m: nat, s: nat, n: nat)
    requires s < n <= 257
    ensures Kraft(f, len, m, n) >= Term(f[s], len[s], m)
  {
    if s < n - 1 { KraftAtLeast(f, len, m, s, n - 1); }
  }

  /** With two symbols or more, all have codes of at least a bit. */
  lemma CodesNotEmpty(f: Counts, size: Counts)
    requires Complete(f, size) && Live(f, 257) >= 2 && forall s :: 0 <= s < 257 ==> f[s] == 0 ==> size[s] == 0
    ensures SizesFor(f, size)
  {
    hide Kraft, Live, Pow2;
    var m: nat :| Fills(f, size, m);
    forall s | 0 <= s < 257 && f[s] > 0 ensures size[s] > 0 {
      if size[s] == 0 {
        var t := AnotherLive(f, s, 257);
        LongPrefix(f, size, m, s, t, 257);
      }
    }
  }

  lemma {:induction false} AnotherLive(f: Counts, s: nat, n: nat) returns (t: nat)
    requires n <= 257 && Live(f, n) >= (if s < n && f[s] > 0 then 2 else 1)
    ensures t < n && t != s && f[t] > 0
  {
    if f[n - 1] > 0 && n - 1 != s {
      t := n - 1;
    } else {
      t := AnotherLive(f, s, n - 1);
    }
  }

  /** Lengths of up to 32 bits fill the code space of 32-bit words. */
  lemma FillsWords(f: Counts, size: Counts)
    requires Complete(f, size) && Live(f, 257) > 0 && forall s :: 0 <= s < 257 ==> size[s] <= 32
    ensures Fills(f, size, 32)
  {
    hide Kraft, Live, Pow2;
    var m: nat :| Fills(f, size, m);
    var a := Tight(f, size, m);
    KraftScale(f, size, 32, size[a], 257);
    Pow2Add(size[a], 32 - size[a]);
  }

  /** The lengths of the first n symbols have been counted. */
  ghost predicate Counted(f: Counts, size: Counts, b: Lengths, n: nat)
    requires n <= 257
  {
    Taken(b, 32) == Kraft(f, size, 32, n) && Codes(b, 32) == Live(f, n)
  }

  lemma CountOne(f: Counts, size: Counts, b: Lengths, n: nat)
    requires n < 257 && SizesFor(f, size) && size[n] <= 32 && Counted(f, size, b, n)
    ensures size[n] == 0 ==> Counted(f, size, b, n + 1)
    ensures size[n] > 0 ==> Counted(f, size, b[size[n] := b[size[n]] + 1], n + 1) && b[size[n]] < Live(f, n + 1)
  {
    hide Taken, Codes, Pow2;
    if size[n] > 0 {
      TakenUpdate(b, size[n], b[size[n]] + 1, 32);
      CodesUpdate(b, size[n], b[size[n]] + 1, 32);
      CodesBound(b, size[n], 32);
    }
  }

  lemma {:induction false} LiveMono(f: Counts, n: nat, m: nat)
    requires n <= m <= 257
    ensures Live(f, n) <= Live(f, m)
    decreases m
  {
    if n < m { LiveMono(f, n, m - 1); }
  }

  /** Counts the symbols of each code length. Lengths beyond 32 bits are an error. */
  method CountLengths(codesize: array<nat>, ghost f: Counts) returns (ok: bool, bits: array<nat>)
    requires codesize.Length == 257 && Live(f, 257) <= 255 && SizesFor(f, codesize[..])
    ensures ok <==> forall s :: 0 <= s < 257 ==> codesize[s] <= 32
    ensures ok ==> fresh(bits) && bits.Length == 33 && Counted(f, codesize[..], bits[..], 257)
    ensures ok ==> bits[..] == Histogram(codesize[..])
  {
    hide Taken, Codes, Pow2, Live, Kraft, CountedAt, Counted, Histogram;
    bits := new nat[33](_ => 0);
    NothingTaken(bits[..], 32);
    CountNone(f, codesize[..], bits[..]);
    CountNoneAt(codesize[..], bits[..]);
    for i := 0 to 257
      invariant bits.Length == 33 && Counted(f, codesize[..], bits[..], i) && CountedAt(codesize[..], bits[..], i)
      invariant forall s :: 0 <= s < i ==> codesize[s] <= 32
    {
      if codesize[i] != 0 {
        if codesize[i] > MAX_CLEN {
          ok := false;
          return;
        }
        CountOne(f, codesize[..], bits[..], i);
        CountOneAt(codesize[..], bits[..], i);
        LiveMono(f, i + 1, 257);
        ghost var b := bits[..];
        bits[codesize[i]] := U8(bits[codesize[i]] + 1);
        assert bits[..] == b[codesize[i] := b[codesize[i]] + 1];
      } else {
        CountOne(f, codesize[..], bits[..], i);
        CountOneAt(codesize[..], bits[..], i);
      }
    }
    CountedAll(codesize[..], bits[..]);
    ok := true;
  }

  lemma CountNone(f: Counts, size: Counts, b: Lengths)
    requires Taken(b, 32) == 0 && Codes(b, 32) == 0
    ensures Counted(f, size, b, 0)
  {
  }

  // ----- the reserved code -----

  /** The code space that is left to words of l bits by shorter codes. */
  lemma {:induction false} Below(b: Lengths, l: nat, m: nat)
    requires l < m <= 32 && b[m] > 0 && Taken(b, m) <= Pow2(m)
    ensures Taken(b, l) < Pow2(l)
    decreases m - l
  {
    if l + 1 < m {
      BelowOne(b, m);
      BelowAny(b, l, m - 1);
    }
  }

  lemma BelowOne(b: Lengths, m: nat)
    requires 1 <= m <= 32 && b[m] > 0 && Taken(b, m) <= Pow2(m)
    ensures Taken(b, m - 1) < Pow2(m - 1)
  {
  }

  lemma {:induction false} BelowAny(b: Lengths, l: nat, m: nat)
    requires l <= m <= 32 && Taken(b, m) < Pow2(m)
    ensures Taken(b, l) < Pow2(l)
    decreases m
  {
    if l < m { BelowAny(b, l, m - 1); }
  }

  /** Taking back one of the longest codes leaves every length with room to spare. */
  lemma Reserved(b: Lengths, last: nat, n: nat, l: nat)
    requires Full(b, last, n) && last <= 16 && b[last] > 0 && 1 <= l <= 16
    ensures Taken(b[last := b[last] - 1], l) < Pow2(l)
    decreases l
  {
    hide Codes;
    var b1 := b[last := b[last] - 1];
    TakenUpdate(b, last, b[last] - 1, l);
    if l < last {
      Below(b, l, last);
    } else if l == last {
      SmallPowers();
    } else {
      Reserved(b, last, n, l - 1);
    }
  }

  /** The counts of a table are its lengths. */
  lemma {:induction false} TableCounts(t: HuffTbl, b: Lengths, l: nat)
    requires Shaped(t) && (forall i :: 0 <= i <= 16 ==> t.bits[i] == b[i]) && l <= 16
    ensures FirstIdx(t, l + 1) == Codes(b, l) && FirstCode(t, l + 1) == 2 * Taken(b, l)
  {
    if l > 0 { TableCounts(t, b, l - 1); }
  }

  /** The table is legal, and leaves room for the reserved code. */
  lemma LegalTable(t: HuffTbl, b: Lengths, last: nat, n: nat)
    requires Shaped(t) && Full(b, last, n) && last <= 16 && b[last] > 0 && n <= 257
    requires forall i :: 0 <= i <= 16 ==> t.bits[i] == b[last := b[last] - 1][i]
    ensures ValidCounts(t) && NumSymbols(t) == n - 1
  {
    hide FirstIdx, FirstCode, Taken, Codes, Pow2;
    var b1 := b[last := b[last] - 1];
    TableCounts(t, b1, 16);
    CodesUpdate(b, last, b[last] - 1, 32);
    CodesUpTo(b1, 16, 32);
    forall l: nat | 1 <= l <= 16 ensures FitsLength(t, l) {
      TableCounts(t, b1, l - 1);
      Reserved(b, last, n, l);
      TakenStep(b1, l);
    }
  }

  lemma TakenStep(b: Lengths, l: nat)
    requires 1 <= l <= 32
    ensures Taken(b, l) == 2 * Taken(b, l - 1) + b[l]
  {
  }

  lemma {:induction false} CodesUpTo(b: Lengths, i: nat, n: nat)
    requires i <= n <= 32 && forall l :: i < l <= n ==> b[l] == 0
    ensures Codes(b, i) == Codes(b, n)
    decreases n
  {
    if i < n { CodesUpTo(b, i, n - 1); }
  }

  lemma SomethingFull(b: Lengths, i: nat, n: nat)
    requires Full(b, i, n) && b[i] == 0
    ensures i >= 2
  {
    hide Codes;
    if i == 1 {
      assert Taken(b, 1) == 2 * Taken(b, 0) + b[1];
      SmallPowers();
    }
  }

  /** Removes the reserved symbol from the greatest length in use. */
  method DropReserved(bits: array<nat>, ghost n: nat) returns (ghost last: nat)
    requires bits.Length == 33 && Full(bits[..], 16, n) && n <= 255
    modifies bits
    ensures 1 <= last <= 16 && old(bits[last]) > 0 && Full(old(bits[..]), last, n)
    ensures bits[..] == old(bits[..])[last := old(bits[last]) - 1]
  {
    hide Taken, Codes, Pow2;
    var i: nat := 16;
    while bits[i] == 0
      invariant 1 <= i <= 16 && Full(bits[..], i, n) && bits[..] == old(bits[..])
      decreases i
    {
      SomethingFull(bits[..], i, n);
      FullShorter(bits[..], i, n);
      i := i - 1;
    }
    CodesBound(bits[..], i, 32);
    last := i;
    bits[i] := U8(bits[i] - 1);
  }

  // ----- the symbol list -----

  lemma {:induction false} NextSize(size: Counts, l: nat, n: nat)
    requires n <= 256 && l >= 1
    ensures UpToSize(size, l, n) == UpToSize(size, l - 1, n) + OfSize(size, l, n)
  {
    if n > 0 { NextSize(size, l, n - 1); }
  }

  lemma {:induction false} NoSizes(size: Counts, n: nat)
    requires n <= 256
    ensures UpToSize(size, 0, n) == 0
  {
    if n > 0 { NoSizes(size, n - 1); }
  }

  lemma {:induction false} AllSizes(f: Counts, size: Counts, n: nat)
    requires n <= 256 && SizesFor(f, size) && forall s :: 0 <= s < 257 ==> size[s] <= 32
    ensures UpToSize(size, 32, n) == Live(f, n)
  {
    if n > 0 { AllSizes(f, size, n - 1); }
  }

  lemma {:induction false} SizeRoom(size: Counts, l: nat, j: nat, n: nat)
    requires j < n <= 256 && l >= 1 && size[j] == l
    ensures UpToSize(size, l - 1, n) + OfSize(size, l, j) < n
  {
    if j == n - 1 {
      SizeShare(size, l, j);
    } else {
      SizeRoom(size, l, j, n - 1);
    }
  }

  lemma {:induction false} SizeShare(size: Counts, l: nat, n: nat)
    requires n <= 256 && l >= 1
    ensures UpToSize(size, l - 1, n) + OfSize(size, l, n) <= n
  {
    if n > 0 { SizeShare(size, l, n - 1); }
  }

  /** Symbol s comes before the symbols that are listed once (l, j) is reached. */
  predicate Earlier(size: Counts, s: nat, l: nat, j: nat)
    requires s < 256
  {
    1 <= size[s] && (size[s] < l || (size[s] == l && s < j))
  }

  /** The list has exactly the symbols before (l, j), by increasing code size. */
  ghost predicate Listed(size: Counts, list: seq<Byte>, l: nat, j: nat) {
    (forall q :: 0 <= q < |list| ==> Earlier(size, list[q], l, j)) &&
    (forall q, r :: 0 <= q < r < |list| ==> list[q] != list[r] && size[list[q]] <= size[list[r]]) &&
    (forall s :: 0 <= s < 256 ==> Earlier(size, s, l, j) ==> s in list)
  }

  /** Each symbol is listed after those of smaller size and among those of its size. */
  ghost predicate Placed(size: Counts, list: seq<Byte>) {
    forall q :: 0 <= q < |list| ==>
      size[list[q]] >= 1 && UpToSize(size, size[list[q]] - 1, 256) <= q < UpToSize(size, size[list[q]], 256)
  }

  lemma PlaceOne(size: Counts, list: seq<Byte>, l: nat, j: nat)
    requires Placed(size, list) && j < 256 && l >= 1 && size[j] == l
    requires |list| == UpToSize(size, l - 1, 256) + OfSize(size, l, j)
    ensures Placed(size, list + [j])
  {
    hide OfSize, UpToSize;
    NextSize(size, l, 256);
    MoreOfSize(size, l, j, 256);
  }

  lemma {:induction false} MoreOfSize(size: Counts, l: nat, j: nat, n: nat)
    requires j < n <= 256 && size[j] == l
    ensures OfSize(size, l, j) < OfSize(size, l, n)
  {
    if j < n - 1 { MoreOfSize(size, l, j, n - 1); }
  }

  lemma ListOne(size: Counts, list: seq<Byte>, l: nat, j: nat)
    requires Listed(size, list, l, j) && j < 256 && l >= 1
    ensures size[j] == l ==> Listed(size, list + [j], l, j + 1)
    ensures size[j] != l ==> Listed(size, list, l, j + 1)
  {
    if size[j] == l {
      forall s | 0 <= s < 256 && Earlier(size, s, l, j + 1) ensures s in list + [j] {
        if s != j {
          assert Earlier(size, s, l, j);
        } else {
          assert (list + [j])[|list|] == j;
        }
      }
    }
  }

  lemma ListNextSize(size: Counts, list: seq<Byte>, l: nat)
    requires Listed(size, list, l, 256)
    ensures Listed(size, list, l + 1, 0)
  {
    forall s | 0 <= s < 256 && Earlier(size, s, l + 1, 0) ensures s in list {
      assert Earlier(size, s, l, 256);
    }
  }

  /** The symbols sorted by code size; the rest of the table keeps its old contents. */
  method SortSymbols(codesize: array<nat>, huffval: array<Byte>) returns (p: nat)
    requires codesize.Length == 257 && huffval.Length == 256
    modifies huffval
    ensures p == UpToSize(codesize[..], 32, 256) <= 256
    ensures Listed(codesize[..], huffval[..p], 33, 0) && Placed(codesize[..], huffval[..p])
  {
    hide OfSize, UpToSize, Listed, Placed;
    p := 0;
    ghost var size := codesize[..];
    NoSizes(size, 256);
    ListNone(size, huffval[..0]);
    for i := 1 to 33
      invariant p == UpToSize(size, i - 1, 256) && p <= 256 && Listed(size, huffval[..p], i, 0) && codesize[..] == size
      invariant Placed(size, huffval[..p])
    {
      SizeNone(size, i);
      for j := 0 to 256
        invariant p == UpToSize(size, i - 1, 256) + OfSize(size, i, j) && p <= 256
        invariant Listed(size, huffval[..p], i, j) && codesize[..] == size && Placed(size, huffval[..p])
      {
        ListOne(size, huffval[..p], i, j);
        SizeStep(size, i, j);
        if codesize[j] == i {
          SizeRoom(size, i, j, 256);
          ghost var list := huffval[..p];
          PlaceOne(size, list, i, j);
          huffval[p] := j;
          p := p + 1;
          assert huffval[..p] == list + [j];
        }
      }
      NextSize(size, i, 256);
      SizeShare(size, i, 256);
      ListNextSize(size, huffval[..p], i);
    }
  }

  lemma ListNone(size: Counts, list: seq<Byte>)
    requires |list| == 0
    ensures Listed(size, list, 1, 0) && Placed(size, list)
  {
  }

  lemma SizeNone(size: Counts, l: nat)
    ensures OfSize(size, l, 0) == 0
  {
  }

  lemma SizeStep(size: Counts, l: nat, j: nat)
    requires j < 256
    ensures OfSize(size, l, j + 1) == OfSize(size, l, j) + (if size[j] == l then 1 else 0)
  {
  }

  // ----- the whole function -----

  /** Every listed symbol has a code length. */
  lemma {:induction false} FindLength(t: HuffTbl, p: nat, l: nat) returns (len: nat)
    requires Shaped(t) && 1 <= l <= 17 && FirstIdx(t, l) <= p < NumSymbols(t)
    ensures l <= len <= 16 && FirstIdx(t, len) <= p < FirstIdx(t, len + 1)
    decreases 17 - l
  {
    if p < FirstIdx(t, l + 1) {
      len := l;
    } else {
      len := FindLength(t, p, l + 1);
    }
  }

  /** The symbols with a code are those listed. */
  lemma ListedCodes(t: HuffTbl, size: Counts, s: Byte)
    requires ValidCounts(t) && Listed(size, t.huffval[..NumSymbols(t)], 33, 0)
    requires forall x :: 0 <= x < 257 ==> size[x] <= 32
    ensures HasCode(t, s) <==> size[s] > 0
  {
    hide FirstCode;
    var list := t.huffval[..NumSymbols(t)];
    if size[s] > 0 {
      assert Earlier(size, s, 33, 0);
      var p: nat :| p < |list| && list[p] == s;
      var l := FindLength(t, p, 1);
      assert CodedAt(t, s, p, l);
    }
    if HasCode(t, s) {
      var p: nat, l: nat :| CodedAt(t, s, p, l);
      FirstIdxMono(t, l + 1, |t.bits|);
      assert list[p] == s;
    }
  }

  /** The table has codes for exactly the counted symbols. */
  ghost predicate CodesExactly(t: HuffTbl, f: Counts) {
    Valid(t) && forall s: Byte :: HasCode(t, s) <==> f[s] > 0
  }

  lemma TableCodes(t: HuffTbl, f: Counts, size: Counts)
    requires ValidCounts(t) && Listed(size, t.huffval[..NumSymbols(t)], 33, 0) && SizesFor(f, size)
    requires forall x :: 0 <= x < 257 ==> size[x] <= 32
    ensures CodesExactly(t, f)
  {
    hide HasCode, FirstIdx, FitsLength, Listed;
    forall s: Byte ensures HasCode(t, s) <==> f[s] > 0 {
      ListedCodes(t, size, s);
    }
    assert DistinctSymbols(t) by { ListedDistinct(t, size); }
  }

  lemma ListedDistinct(t: HuffTbl, size: Counts)
    requires ValidCounts(t) && Listed(size, t.huffval[..NumSymbols(t)], 33, 0)
    ensures DistinctSymbols(t)
  {
    hide FirstIdx, FitsLength;
    var list := t.huffval[..NumSymbols(t)];
    assert forall p :: 0 <= p < |list| ==> list[p] == t.huffval[p];
  }

  /** The lengths of the table: those found, adjusted if necessary, less one code of the
      greatest length. */
  ghost predicate TableLengths(h: Lengths, bits: seq<nat>) {
    |bits| == 17 && exists b: Lengths, last: nat :: LimitsTo(h, b) && DroppedFrom(b, last, bits)
  }

  /** One code of the greatest length has been taken from b. */
  ghost predicate DroppedFrom(b: Lengths, last: nat, bits: seq<nat>) {
    1 <= last <= 16 && b[last] > 0 && (forall l :: last < l <= 32 ==> b[l] == 0) &&
    |bits| == 17 && forall l :: 0 <= l <= 16 ==> bits[l] == b[l] - (if l == last then 1 else 0)
  }

  /** Without adjustment, the table has as many codes of each length as there are real
      symbols with that size: the reserved code is one of the longest. */
  lemma RealLengths(size: Counts, last: nat, bits: seq<nat>)
    requires DroppedFrom(Histogram(size), last, bits) && 1 <= size[256] <= 32
    requires forall s :: 0 <= s < 257 ==> size[s] <= size[256]
    ensures forall l :: 1 <= l <= 16 ==> bits[l] == OfSize(size, l, 256)
  {
    var h := Histogram(size);
    assert h[size[256]] == OfSize(size, size[256], 256) + 1;
    if size[256] < last {
      NoneLonger(size, last, 257);
      assert false;
    }
    assert size[256] == last;
    assert forall l :: 1 <= l <= 16 ==> h[l] == OfSize(size, l, 256) + (if l == last then 1 else 0);
  }

  lemma {:induction false} NoneLonger(size: Counts, l: nat, n: nat)
    requires n <= 257 && forall s :: 0 <= s < 257 ==> size[s] < l
    ensures OfSize(size, l, n) == 0
  {
    if n > 0 { NoneLonger(size, l, n - 1); }
  }

  lemma {:induction false} TableIndex(t: HuffTbl, size: Counts, l: nat)
    requires Shaped(t) && l <= 16 && forall k :: 1 <= k <= 16 ==> t.bits[k] == OfSize(size, k, 256)
    ensures FirstIdx(t, l + 1) == UpToSize(size, l, 256)
  {
    hide OfSize, UpToSize;
    if l > 0 {
      TableIndex(t, size, l - 1);
      NextSize(size, l, 256);
    } else {
      NoSizes(size, 256);
    }
  }

  /** The code of a symbol is as long as its size. */
  lemma LengthIsSize(t: HuffTbl, size: Counts, s: Byte)
    requires ValidCounts(t) && Placed(size, t.huffval[..NumSymbols(t)]) && HasCode(t, s) && size[s] <= 16
    requires forall k :: 1 <= k <= 16 ==> t.bits[k] == OfSize(size, k, 256)
    ensures |Code(t, s)| == size[s]
  {
    hide FirstIdx, FirstCode, FitsLength, OfSize, UpToSize;
    var list := t.huffval[..NumSymbols(t)];
    forall p: nat, l: nat | CodedAt(t, s, p, l) ensures l == size[s] {
      FirstIdxMono(t, l + 1, |t.bits|);
      assert list[p] == s;
      TableIndex(t, size, size[s] - 1);
      TableIndex(t, size, size[s]);
      if l < size[s] { FirstIdxMono(t, l + 1, size[s]); }
      if l > size[s] { FirstIdxMono(t, size[s] + 1, l); }
    }
  }

  lemma Reserve(f: Counts)
    requires 1 <= Live(f, 256) <= 254 && Total(f, 256) < MAX_COUNT
    ensures var f0 := f[256 := 1];
            2 <= Live(f0, 257) <= 255 && Live(f0, 257) == Live(f, 256) + 1 && Live(f0, 256) == Live(f, 256) &&
            Total(f0, 257) <= MAX_COUNT
  {
    LiveUpdate(f, 256, 1, 256);
    TotalUpdate(f, 256, 1, 256);
  }

  /** Huffman's algorithm, run on the counts and the pseudo-symbol, finds a code of more
      than MAX_CLEN bits. */
  predicate TooLong(f: Counts) {
    Exceeds(HuffmanSizes(f[256 := 1]), MAX_CLEN)
  }

  predicate Exceeds(size: Counts, max: nat) {
    exists s :: 0 <= s < 257 && size[s] > max
  }

  /** Below nine million counted symbols no code gets too long. */
  lemma TooLongNeeds(f: Counts)
    requires 1 <= Live(f, 256) <= 254 && Total(f, 256) < MAX_COUNT && TooLong(f)
    ensures Total(f, 256) + 1 >= Fib(35) == 9_227_465
  {
    hide Total, Live, HuffmanSizes, Fib, Optimal;
    var f0 := f[256 := 1];
    Reserve(f);
    TotalUpdate(f, 256, 1, 257);
    TotalUpdate(f, 256, 1, 256);
    AllBut(f0);
    HuffmanSizesOptimal(f0);
    var s: nat :| s < 257 && HuffmanSizes(f0)[s] > 32;
    FibGrows(35, HuffmanSizes(f0)[s] + 2);
    Fib35();
  }

  lemma AllBut(f: Counts)
    ensures Total(f, 257) == Total(f, 256) + f[256]
  {
  }

  lemma Fib33()
    ensures Fib(33) == 3_524_578 && Fib(32) == 2_178_309
  {
    assert Fib(5) == 5 && Fib(6) == 8;
    assert Fib(7) == 13 && Fib(8) == 21;
    assert Fib(9) == 34 && Fib(10) == 55;
    assert Fib(11) == 89 && Fib(12) == 144;
    assert Fib(13) == 233 && Fib(14) == 377;
    assert Fib(15) == 610 && Fib(16) == 987;
    assert Fib(17) == 1597 && Fib(18) == 2584;
    assert Fib(19) == 4181 && Fib(20) == 6765;
    assert Fib(21) == 10946 && Fib(22) == 17711;
    assert Fib(23) == 28657 && Fib(24) == 46368;
    assert Fib(25) == 75025 && Fib(26) == 121393;
    assert Fib(27) == 196418 && Fib(28) == 317811;
    assert Fib(29) == 514229 && Fib(30) == 832040;
    assert Fib(31) == 1346269 && Fib(32) == 2178309;
  }

  lemma Fib34()
    ensures Fib(34) == 5_702_887
  {
    Fib33();
  }

  lemma Fib35()
    ensures Fib(35) == 9_227_465
  {
    Fib34();
    assert Fib(33) == 3_524_578 by { Fib33(); }
  }

  /** All counted symbols have codes of the given sizes. */
  ghost predicate CodesOfSize(t: HuffTbl, f: Counts, size: Counts)
    requires Shaped(t)
  {
    forall s: Byte :: f[s] > 0 ==> HasCode(t, s) && |Code(t, s)| == size[s]
  }

  lemma NothingLong(size: Counts)
    requires !Exceeds(size, 16)
    ensures forall l :: 17 <= l <= 32 ==> Histogram(size)[l] == 0
  {
    hide OfSize;
    forall l | 17 <= l <= 32 ensures Histogram(size)[l] == 0 {
      NoneLonger(size, l, 257);
    }
  }

  /** If nothing had to be adjusted, all codes are as long as Huffman's. */
  lemma ShortCodesKept(t: HuffTbl, f: Counts, size: Counts, last: nat)
    requires CodesExactly(t, f[256 := 1]) && Placed(size, t.huffval[..NumSymbols(t)]) && !Exceeds(size, 16)
    requires DroppedFrom(Histogram(size), last, t.bits) && 1 <= size[256]
    requires forall s :: 0 <= s < 257 ==> size[s] <= size[256]
    ensures CodesOfSize(t, f, size)
  {
    hide HasCode, FirstIdx, FitsLength, Placed, DroppedFrom, Histogram, Code;
    RealLengths(size, last, t.bits);
    forall s: Byte | f[s] > 0 ensures HasCode(t, s) && |Code(t, s)| == size[s] {
      LengthIsSize(t, size, s);
    }
  }

  lemma LengthsFound(h: Lengths, b: Lengths, last: nat, bits: seq<nat>)
    requires LimitsTo(h, b) && DroppedFrom(b, last, bits)
    ensures TableLengths(h, bits)
  {
  }

  /** jpeg_gen_optimal_table, for counts of 1 to 254 real symbols. It fails exactly if
      one of Huffman's codes exceeds 32 bits; otherwise the table is legal, has codes
      for the counted symbols and no others, and lists them by their optimal lengths.
      If these are 16 bits or less, they are the lengths of the codes; otherwise the
      numbers of codes of each length are adjusted as in section K.2. */
  method GenOptimalTable(freq: array<nat>, huffval0: seq<Byte>) returns (r: Option<HuffTbl>)
    requires freq.Length == 257 && |huffval0| == 256
    requires 1 <= Live(freq[..], 256) <= 254 && Total(freq[..], 256) < MAX_COUNT
    modifies freq
    ensures r.None? <==> TooLong(old(freq[..]))
    ensures r.Some? ==> CodesExactly(r.value, old(freq[..])[256 := 1]) && NumSymbols(r.value) == Live(old(freq[..]), 256)
    ensures r.Some? ==> Listed(HuffmanSizes(old(freq[..])[256 := 1]), r.value.huffval[..NumSymbols(r.value)], 33, 0)
    ensures r.Some? ==> TableLengths(Histogram(HuffmanSizes(old(freq[..])[256 := 1])), r.value.bits)
    ensures r.Some? && !Exceeds(HuffmanSizes(old(freq[..])[256 := 1]), 16) ==>
      CodesOfSize(r.value, old(freq[..]), HuffmanSizes(old(freq[..])[256 := 1]))
  {
    hide Live, Total, Kraft, Taken, Codes, UpToSize, Listed, Optimal, Complete, HuffmanSizes, Fib, LimitsTo, Placed;
    hide FirstIdx, FirstCode, FitsLength, CodesExactly, HasCode, Histogram, CodesOfSize;
    Reserve(freq[..]);
    ghost var f := freq[..];
    freq[256] := 1;
    ghost var f0 := freq[..];
    assert f0 == f[256 := 1];
    HuffmanSizesOptimal(f0);
    ReservedIsLongest(f0);
    var codesize := CodeSizes(freq);
    ghost var size := codesize[..];
    OptimalIsComplete(f0, size);
    CodesNotEmpty(f0, size);
    var ok, bits := CountLengths(codesize, f0);
    if !ok {
      return None;
    }
    FillsWords(f0, size);
    ghost var n := Live(f0, 257);
    assert Full(bits[..], 32, n);
    LimitLengths(bits, n);
    ghost var b := bits[..];
    ghost var last := DropReserved(bits, n);
    var huffval := new Byte[256](i requires 0 <= i < 256 => huffval0[i]);
    var p := SortSymbols(codesize, huffval);
    AllSizes(f0, size, 256);
    var t := HuffTbl(bits[..17], huffval[..]);
    LegalTable(t, b, last, n);
    assert t.huffval[..NumSymbols(t)] == huffval[..p];
    TableCodes(t, f0, size);
    LengthsFound(Histogram(size), b, last, t.bits);
    if !Exceeds(size, 16) {
      NothingLong(size);
      ShortCodesKept(t, f, size, last);
    }
    r := Some(t);
  }

  lemma OptimalIsComplete(f0: Counts, size: Counts)
    requires Optimal(f0, size)
    ensures Complete(f0, size)
  {
  }
}
