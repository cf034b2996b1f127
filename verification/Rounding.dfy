/** Sizes that are rounded up, and rounded up again in larger units. */
module Rounding {
  import opened Bits

  /** jdiv_round_up */
  function CeilDiv(a: nat, b: nat): nat
    requires b > 0
  {
    (a + b - 1) / b
  }

  lemma CeilIs(a: nat, b: nat, q: nat)
    requires b > 0 && a <= q * b < a + b
    ensures CeilDiv(a, b) == q
  {
    MulSucc(q, b);
    DivBounds(a + b - 1, b, q);
  }

  lemma CeilBounds(a: nat, b: nat)
    requires b > 0
    ensures a <= CeilDiv(a, b) * b < a + b
  {
    var q := CeilDiv(a, b);
    assert a + b - 1 == b * q + (a + b - 1) % b;
    assert b * q == q * b;
  }

  lemma Upper(a: nat, h: nat, d: nat, m: nat, w: nat)
    requires a <= m * d && w * d < a * h + d
    ensures w <= m * h
  {
    Scale(a, m * d, h);
    Swap(m, d, h);
    if w > m * h {
      MulLe(m * h + 1, w, d);
      MulSucc(m * h, d);
    }
  }

  lemma Lower(a: nat, h: nat, d: nat, n: nat, w: nat)
    requires n * d < a && a * h <= w * d && h > 0
    ensures n * h < w
  {
    Scale(n * d + 1, a, h);
    MulSucc(n * d, h);
    Swap(n, d, h);
    if w <= n * h {
      MulLe(w, n * h, d);
    }
  }

  lemma Swap(m: nat, d: nat, h: nat)
    ensures m * d * h == m * h * d
  {
  }

  /** Rounding up in blocks and then in MCUs is rounding up in MCUs. */
  lemma NestedCeil(a: nat, h: nat, d: nat)
    requires h > 0 && d > 0
    ensures CeilDiv(CeilDiv(a * h, d), h) == CeilDiv(a, d)
  {
    hide CeilDiv;
    var m, w := CeilDiv(a, d), CeilDiv(a * h, d);
    CeilBounds(a, d);
    CeilBounds(a * h, d);
    Upper(a, h, d, m, w);
    NoneAtAll(a, h, d);
    if a > 0 {
      if m == 0 { assert false; }
      MulSucc(m - 1, d);
      Lower(a, h, d, m - 1, w);
      MulSucc(m - 1, h);
    }
    CeilIs(w, h, m);
  }

  lemma Scale(a: nat, b: nat, h: nat)
    ensures a <= b ==> a * h <= b * h
  {
    if a <= b { MulLe(a, b, h); }
  }

  lemma NoneAtAll(a: nat, h: nat, d: nat)
    requires h > 0 && d > 0
    ensures a == 0 ==> CeilDiv(a * h, d) == 0 && CeilDiv(a, d) == 0
  {
    if a == 0 {
      CeilIs(0, d, 0);
    }
  }

  /** Blocks of the last MCU that are not dummies. */
  function LastPart(n: nat, size: nat): (r: nat)
    requires size > 0
    ensures 0 < r <= size
  {
    if n % size == 0 then size else n % size
  }

  /** All MCUs but the last are full, and the last has what is left. */
  lemma LastPartIs(n: nat, size: nat, mcus: nat)
    requires size > 0 && n > 0 && mcus == CeilDiv(n, size)
    ensures mcus > 0 && (mcus - 1) * size + LastPart(n, size) == n
  {
    hide CeilDiv;
    CeilBounds(n, size);
    if mcus == 0 { assert false; }
    MulSucc(mcus - 1, size);
    var rest := n - (mcus - 1) * size;
    if rest == size {
      DivBounds(n, size, mcus);
      MulSucc(mcus, size);
    } else {
      DivBounds(n, size, mcus - 1);
    }
  }
}
