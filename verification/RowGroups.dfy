/** Sample rows and row groups, for the buffer controllers at both ends. */
module RowGroups {
  import opened Bits

  /** The rows of n groups of the given size. */
  function Rows(n: nat, size: nat): nat {
    n * size
  }

  lemma RowsNext(n: nat, size: nat)
    ensures Rows(n + 1, size) == Rows(n, size) + size && Rows(0, size) == 0
  {
    MulSucc(n, size);
  }

  lemma RowsMono(n: nat, m: nat, size: nat)
    requires n <= m
    ensures Rows(n, size) <= Rows(m, size)
  {
    MulLe(n, m, size);
  }

  /** The image row that stands for row r: rows beyond an edge repeat it. */
  function Nearest(height: nat, r: int): int
    requires height > 0
  {
    if r < 0 then 0 else if r < height then r else height - 1
  }
}
