/**
 * Row-major square matrices stored in flat integer buffers, as the host
 * reference routines use them: cell (r, c) of an n-by-n matrix lives at
 * index r * n + c.
 */
module RowMajor {

  /** Cell (r, c) of an n-by-n row-major matrix lies inside its n * n cells. */
  lemma CellInBounds(r: nat, c: nat, n: nat)
    requires r < n && c < n
    ensures r * n + c < n * n
  {
    calc {
      r * n + c;
    <
      r * n + n;
    ==
      (r + 1) * n;
    <=  { MulLeft(r + 1, n, n); }
      n * n;
    }
  }

  lemma MulLeft(x: nat, y: nat, n: nat)
    requires x <= y
    ensures x * n <= y * n
  {
  }

  /** The flat index of cell (r, c) of an n-by-n row-major matrix. */
  function Cell(r: nat, c: nat, n: nat): (x: nat)
    requires r < n && c < n
    ensures x < n * n
  {
    CellInBounds(r, c, n);
    r * n + c
  }

  /** Rows 0 .. i - 1 lie before row i, which ends where row i + 1 begins. */
  lemma RowsBefore(i: nat, n: nat)
    requires i < n
    ensures forall r, c :: 0 <= r < i && 0 <= c < n ==> Cell(r, c, n) < i * n
    ensures (i + 1) * n == i * n + n
  {
    forall r, c | 0 <= r < i && 0 <= c < n
      ensures Cell(r, c, n) < i * n
    {
      EarlierRowBefore(r, c, i, n);
    }
  }

  /**
   * The state of a reference multiply after its outer loop has handled rows
   * 0 .. i - 1: each of their cells holds its starting value plus its
   * product entry, and every cell from row i on still holds its starting
   * value.
   */
  ghost predicate RowsAccumulated(s: seq<int>, orig: seq<int>, a: seq<int>, b: seq<int>, n: nat, i: nat)
    requires n * n <= |a| && n * n <= |b| && n * n <= |s| == |orig| && i <= n
  {
    && (forall r, c :: 0 <= r < i && 0 <= c < n ==>
          s[Cell(r, c, n)] == orig[Cell(r, c, n)] + Dot(a, b, n, r, c, n))
    && (forall x :: i * n <= x < |s| ==> s[x] == orig[x])
  }

  /**
   * One step of that outer loop: when row i accumulates its product entries
   * and nothing outside row i changes, rows 0 .. i are handled.
   */
  lemma RowDone(before: seq<int>, after: seq<int>, orig: seq<int>, a: seq<int>, b: seq<int>, n: nat, i: nat)
    requires n * n <= |a| && n * n <= |b| && n * n <= |before| == |after| == |orig| && i < n
    requires RowsAccumulated(before, orig, a, b, n, i)
    requires forall c :: 0 <= c < n ==> after[Cell(i, c, n)] == before[Cell(i, c, n)] + Dot(a, b, n, i, c, n)
    requires forall x :: 0 <= x < |after| && (x < i * n || i * n + n <= x) ==> after[x] == before[x]
    ensures RowsAccumulated(after, orig, a, b, n, i + 1)
  {
    RowsBefore(i, n);
    forall r, c | 0 <= r < i + 1 && 0 <= c < n
      ensures after[Cell(r, c, n)] == orig[Cell(r, c, n)] + Dot(a, b, n, r, c, n)
    {
      if r == i {
        assert i * n <= Cell(i, c, n);
      }
    }
  }

  /** Cells of earlier rows come before every cell of row i. */
  lemma EarlierRowBefore(r: nat, c: nat, i: nat, n: nat)
    requires r < i && c < n
    ensures r * n + c < i * n
  {
    calc {
      r * n + c;
    <
      (r + 1) * n;
    <=  { MulLeft(r + 1, i, n); }
      i * n;
    }
  }

  /** Every flat index below n * n is the cell of exactly one (row, column) pair. */
  lemma CellOfIndex(x: nat, n: nat)
    requires x < n * n
    ensures n > 0 && x / n < n && x % n < n && (x / n) * n + x % n == x
  {
    assert x == (x / n) * n + x % n;
    if x / n >= n {
      MulLeft(n, x / n, n);
      assert false;
    }
  }

  /**
   * Dot(a, b, n, i, j, m): the sum over k < m of a[i*n + k] * b[k*n + j],
   * the first m terms of entry (i, j) of the product of the n-by-n
   * row-major matrices stored at the front of a and b.
   */
  function Dot(a: seq<int>, b: seq<int>, n: nat, i: nat, j: nat, m: nat): int
    requires n * n <= |a| && n * n <= |b|
    requires i < n && j < n && m <= n
  {
    if m == 0 then 0
    else
      CellInBounds(i, m - 1, n);
      CellInBounds(m - 1, j, n);
      Dot(a, b, n, i, j, m - 1) + a[i * n + (m - 1)] * b[(m - 1) * n + j]
  }

  /**
   * The innermost loop of the reference multiplies: entry (i, j) of the
   * n-by-n product of a and b is added to its cell of out one term at a
   * time; no other cell changes.
   */
  method AccumulateCell(out: array<int>, a: array<int>, b: array<int>, n: nat, i: nat, j: nat)
    requires n * n <= a.Length && n * n <= b.Length && n * n <= out.Length
    requires out != a && out != b && i < n && j < n
    modifies out
    ensures out[Cell(i, j, n)] == old(out[Cell(i, j, n)]) + Dot(a[..], b[..], n, i, j, n)
    ensures forall x :: 0 <= x < out.Length && x != Cell(i, j, n) ==> out[x] == old(out[x])
  {
    var p := Cell(i, j, n);
    var k := 0;
    while k < n
      invariant 0 <= k <= n
      invariant out[p] == old(out[p]) + Dot(a[..], b[..], n, i, j, k)
      invariant forall x :: 0 <= x < out.Length && x != p ==> out[x] == old(out[x])
    {
      var q1, q2 := Cell(i, k, n), Cell(k, j, n);
      out[p] := out[p] + a[q1] * b[q2];
      k := k + 1;
    }
  }

  /**
   * The middle loop of the reference multiplies: every entry of row i
   * accumulates its terms, in column order; cells outside row i do not
   * change.
   */
  method AccumulateRow(out: array<int>, a: array<int>, b: array<int>, n: nat, i: nat)
    requires n * n <= a.Length && n * n <= b.Length && n * n <= out.Length
    requires out != a && out != b && i < n
    modifies out
    ensures forall c :: 0 <= c < n ==> out[Cell(i, c, n)] == old(out[Cell(i, c, n)]) + Dot(a[..], b[..], n, i, c, n)
    ensures forall x :: 0 <= x < out.Length && (x < i * n || i * n + n <= x) ==> out[x] == old(out[x])
  {
    var j := 0;
    while j < n
      invariant 0 <= j <= n
      invariant forall c :: 0 <= c < j ==> out[Cell(i, c, n)] == old(out[Cell(i, c, n)]) + Dot(a[..], b[..], n, i, c, n)
      invariant forall x :: 0 <= x < out.Length && (x < i * n || i * n + j <= x) ==> out[x] == old(out[x])
    {
      AccumulateCell(out, a, b, n, i, j);
      j := j + 1;
    }
  }

  /** Entry (i, j) of the n-by-n product only reads the first n * n cells of each operand. */
  lemma {:induction false} DotPrefix(a: seq<int>, b: seq<int>, a': seq<int>, b': seq<int>, n: nat, i: nat, j: nat, m: nat)
    requires n * n <= |a| && n * n <= |b| && n * n <= |a'| && n * n <= |b'|
    requires a[..n * n] == a'[..n * n] && b[..n * n] == b'[..n * n]
    requires i < n && j < n && m <= n
    ensures Dot(a, b, n, i, j, m) == Dot(a', b', n, i, j, m)
  {
    if m > 0 {
      DotPrefix(a, b, a', b', n, i, j, m - 1);
      CellInBounds(i, m - 1, n);
      CellInBounds(m - 1, j, n);
      assert a[i * n + (m - 1)] == a[..n * n][i * n + (m - 1)];
      assert b[(m - 1) * n + j] == b[..n * n][(m - 1) * n + j];
    }
  }

  /** When every operand cell lies in [0, hi], every product entry lies in [0, m * hi * hi]. */
  lemma {:induction false} DotBounds(a: seq<int>, b: seq<int>, n: nat, i: nat, j: nat, m: nat, hi: nat)
    requires n * n <= |a| && n * n <= |b|
    requires i < n && j < n && m <= n
    requires forall x :: 0 <= x < n * n ==> 0 <= a[x] <= hi && 0 <= b[x] <= hi
    ensures 0 <= Dot(a, b, n, i, j, m) <= m * (hi * hi)
  {
    if m > 0 {
      DotBounds(a, b, n, i, j, m - 1, hi);
      var term := TermBound(a, b, n, i, j, m - 1, hi);
      SumBound(Dot(a, b, n, i, j, m - 1), term, m - 1, hi * hi);
    }
  }

  /** The k-th term of the dot product of row i and column j lies in [0, hi * hi]. */
  lemma TermBound(a: seq<int>, b: seq<int>, n: nat, i: nat, j: nat, k: nat, hi: nat) returns (term: int)
    requires n * n <= |a| && n * n <= |b|
    requires i < n && j < n && k < n
    requires forall x :: 0 <= x < n * n ==> 0 <= a[x] <= hi && 0 <= b[x] <= hi
    ensures Dot(a, b, n, i, j, k + 1) == Dot(a, b, n, i, j, k) + term
    ensures 0 <= term <= hi * hi
  {
    CellInBounds(i, k, n);
    CellInBounds(k, j, n);
    term := a[i * n + k] * b[k * n + j];
    ProductBound(a[i * n + k], b[k * n + j], hi);
  }

  /** k terms bounded by h and one more are k + 1 terms bounded by h. */
  lemma SumBound(sum: int, term: int, k: nat, h: int)
    requires 0 <= sum <= k * h && 0 <= term <= h
    ensures 0 <= sum + term <= (k + 1) * h
  {
    assert (k + 1) * h == k * h + h;
  }

  lemma ProductBound(x: int, y: int, hi: nat)
    requires 0 <= x <= hi && 0 <= y <= hi
    ensures 0 <= x * y <= hi * hi
  {
    assert x * y <= x * hi;
    assert x * hi <= hi * hi;
  }

  /**
   * c holds, in its first n * n cells, the row-major product of the n-by-n
   * matrices at the front of a and b.
   */
  ghost predicate IsProduct(c: seq<int>, a: seq<int>, b: seq<int>, n: nat)
  {
    n * n <= |a| && n * n <= |b| && n * n <= |c| &&
    forall i, j :: 0 <= i < n && 0 <= j < n ==> c[Cell(i, j, n)] == Dot(a, b, n, i, j, n)
  }

  /**
   * When r holds the product, comparing c with r cell by cell over the
   * first n * n cells succeeds exactly when c holds the product too.
   */
  lemma AgreesWithProduct(c: seq<int>, r: seq<int>, a: seq<int>, b: seq<int>, n: nat)
    requires IsProduct(r, a, b, n) && n * n <= |c|
    ensures (forall x :: 0 <= x < n * n ==> c[x] == r[x]) <==> IsProduct(c, a, b, n)
  {
    if forall x :: 0 <= x < n * n ==> c[x] == r[x] {
      AgreeingIsProduct(c, r, a, b, n);
    }
    if IsProduct(c, a, b, n) {
      ProductsAgree(c, r, a, b, n);
    }
  }

  lemma AgreeingIsProduct(c: seq<int>, r: seq<int>, a: seq<int>, b: seq<int>, n: nat)
    requires IsProduct(r, a, b, n) && n * n <= |c|
    requires forall x :: 0 <= x < n * n ==> c[x] == r[x]
    ensures IsProduct(c, a, b, n)
  {
    forall i, j | 0 <= i < n && 0 <= j < n
      ensures c[Cell(i, j, n)] == Dot(a, b, n, i, j, n)
    {
      assert c[Cell(i, j, n)] == r[Cell(i, j, n)];
    }
  }

  lemma ProductsAgree(c: seq<int>, r: seq<int>, a: seq<int>, b: seq<int>, n: nat)
    requires IsProduct(r, a, b, n) && IsProduct(c, a, b, n)
    ensures forall x :: 0 <= x < n * n ==> c[x] == r[x]
  {
    forall x | 0 <= x < n * n
      ensures c[x] == r[x]
    {
      CellOfIndex(x, n);
      var i, j := x / n, x % n;
      assert Cell(i, j, n) == x;
      assert c[Cell(i, j, n)] == Dot(a, b, n, i, j, n) == r[Cell(i, j, n)];
    }
  }

  /** The product of the matrices at the front of a and b only depends on their first n * n cells. */
  lemma ProductOfPrefix(c: seq<int>, a: seq<int>, b: seq<int>, a': seq<int>, b': seq<int>, n: nat)
    requires IsProduct(c, a, b, n)
    requires n * n <= |a'| && n * n <= |b'| && a[..n * n] == a'[..n * n] && b[..n * n] == b'[..n * n]
    ensures IsProduct(c, a', b', n)
  {
    forall i, j | 0 <= i < n && 0 <= j < n
      ensures c[Cell(i, j, n)] == Dot(a', b', n, i, j, n)
    {
      DotPrefix(a, b, a', b', n, i, j, n);
    }
  }

  /** Whether c holds the product depends only on its first n * n cells. */
  lemma ProductOfSameCells(c: seq<int>, c': seq<int>, a: seq<int>, b: seq<int>, n: nat)
    requires n * n <= |c| && n * n <= |c'| && c[..n * n] == c'[..n * n]
    ensures IsProduct(c, a, b, n) <==> IsProduct(c', a, b, n)
  {
    forall i, j | 0 <= i < n && 0 <= j < n
      ensures c[Cell(i, j, n)] == c'[Cell(i, j, n)]
    {
      assert c[Cell(i, j, n)] == c[..n * n][Cell(i, j, n)];
      assert c'[Cell(i, j, n)] == c'[..n * n][Cell(i, j, n)];
    }
  }
}
