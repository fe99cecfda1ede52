/** Matrices as values: a grid is a sequence of rows, each row a sequence of
    entries. These functions are the specification the `Matrix` class is
    proved against; the lemmas state the algebra of the operations. */
module Grids {

  type Grid = seq<seq<int>>

  /** `g` has exactly `r` rows and every row has exactly `c` entries. */
  predicate IsShape(g: Grid, r: int, c: int)
  {
    |g| == r && forall i :: 0 <= i < |g| ==> |g[i]| == c
  }

  /** `a` and `b` have the same number of rows, row by row of the same length. */
  predicate SameShape(a: Grid, b: Grid)
  {
    |a| == |b| && forall i :: 0 <= i < |a| ==> |a[i]| == |b[i]|
  }

  /** Entry-wise sum. */
  function Sum(a: Grid, b: Grid): (s: Grid)
    requires SameShape(a, b)
    ensures SameShape(s, a)
  {
    seq(|a|, i requires 0 <= i < |a| =>
      seq(|a[i]|, j requires 0 <= j < |a[i]| => a[i][j] + b[i][j]))
  }

  /** Entry-wise difference. */
  function Difference(a: Grid, b: Grid): (d: Grid)
    requires SameShape(a, b)
    ensures SameShape(d, a)
  {
    seq(|a|, i requires 0 <= i < |a| =>
      seq(|a[i]|, j requires 0 <= j < |a[i]| => a[i][j] - b[i][j]))
  }

  /** Every entry multiplied by the scalar `c` (on the right). */
  function Scaled(g: Grid, c: int): (s: Grid)
    ensures SameShape(s, g)
  {
    seq(|g|, i requires 0 <= i < |g| =>
      seq(|g[i]|, j requires 0 <= j < |g[i]| => g[i][j] * c))
  }

  /** The accumulator of entry (i, j) of a product after `n` steps: it starts
      at 0 and adds a[i][k] * b[k][j] for k = 0, 1, ..., n - 1 in that order. */
  function Dot(a: Grid, b: Grid, i: int, j: int, n: nat): (d: int)
    requires 0 <= i < |a| && n <= |a[i]| && n <= |b|
    requires 0 <= j && forall k :: 0 <= k < |b| ==> j < |b[k]|
  {
    if n == 0 then 0 else Dot(a, b, i, j, n - 1) + a[i][n - 1] * b[n - 1][j]
  }

  /** The matrix product of `a` (|a| x n) and `b` (n x q). */
  function Product(a: Grid, b: Grid, n: nat, q: nat): (p: Grid)
    requires IsShape(a, |a|, n) && IsShape(b, n, q)
    ensures IsShape(p, |a|, q)
  {
    seq(|a|, i requires 0 <= i < |a| =>
      seq(q, j requires 0 <= j < q => Dot(a, b, i, j, n)))
  }

  /** The n x n matrix with `c` on the diagonal and 0 elsewhere. */
  function Diagonal(n: nat, c: int): (d: Grid)
    ensures IsShape(d, n, n)
  {
    seq(n, i requires 0 <= i < n => seq(n, j requires 0 <= j < n => if i == j then c else 0))
  }

  /** Subtracting `b` undoes adding it. */
  lemma DifferenceUndoesSum(a: Grid, b: Grid)
    requires SameShape(a, b)
    ensures Difference(Sum(a, b), b) == a
  {
    var d := Difference(Sum(a, b), b);
    forall i | 0 <= i < |a|
      ensures d[i] == a[i]
    {
      assert |d[i]| == |a[i]|;
    }
  }

  /** Adding `b` back undoes subtracting it. */
  lemma SumUndoesDifference(a: Grid, b: Grid)
    requires SameShape(a, b)
    ensures Sum(Difference(a, b), b) == a
  {
    var s := Sum(Difference(a, b), b);
    forall i | 0 <= i < |a|
      ensures s[i] == a[i]
    {
      assert |s[i]| == |a[i]|;
    }
  }

  lemma {:induction false} DotOfSum(a: Grid, b: Grid, c: Grid, i: int, j: int, n: nat)
    requires 0 <= i < |a| && n <= |a[i]| && n <= |b| && SameShape(b, c)
    requires 0 <= j && forall k :: 0 <= k < |b| ==> j < |b[k]|
    ensures Dot(a, Sum(b, c), i, j, n) == Dot(a, b, i, j, n) + Dot(a, c, i, j, n)
  {
    if n > 0 {
      DotOfSum(a, b, c, i, j, n - 1);
      var x, y, z := a[i][n - 1], b[n - 1][j], c[n - 1][j];
      assert Sum(b, c)[n - 1][j] == y + z;
      assert x * (y + z) == x * y + x * z;
    }
  }

  /** The product distributes over a sum on the right. */
  lemma ProductDistributesOverSum(a: Grid, b: Grid, c: Grid, n: nat, q: nat)
    requires IsShape(a, |a|, n) && IsShape(b, n, q) && IsShape(c, n, q)
    ensures IsShape(Sum(b, c), n, q)
    ensures Product(a, Sum(b, c), n, q) == Sum(Product(a, b, n, q), Product(a, c, n, q))
  {
    var s := Sum(b, c);
    assert IsShape(s, n, q);
    var lhs := Product(a, s, n, q);
    var rhs := Sum(Product(a, b, n, q), Product(a, c, n, q));
    forall i | 0 <= i < |a|
      ensures lhs[i] == rhs[i]
    {
      forall j | 0 <= j < q
        ensures lhs[i][j] == rhs[i][j]
      {
        DotOfSum(a, b, c, i, j, n);
      }
    }
  }

  lemma {:induction false} DotOfDiagonal(a: Grid, n: nat, c: int, i: int, j: int, k: nat)
    requires IsShape(a, |a|, n) && 0 <= i < |a| && 0 <= j < n && k <= n
    ensures Dot(a, Diagonal(n, c), i, j, k) == if j < k then a[i][j] * c else 0
  {
    if k > 0 {
      DotOfDiagonal(a, n, c, i, j, k - 1);
      assert Diagonal(n, c)[k - 1][j] == if k - 1 == j then c else 0;
    }
  }

  /** Scaling by `c` is the same as multiplying by the diagonal matrix c * I. */
  lemma ScaledIsProductWithDiagonal(a: Grid, n: nat, c: int)
    requires IsShape(a, |a|, n)
    ensures Scaled(a, c) == Product(a, Diagonal(n, c), n, n)
  {
    var lhs := Scaled(a, c);
    var rhs := Product(a, Diagonal(n, c), n, n);
    forall i | 0 <= i < |a|
      ensures lhs[i] == rhs[i]
    {
      forall j | 0 <= j < n
        ensures lhs[i][j] == rhs[i][j]
      {
        DotOfDiagonal(a, n, c, i, j, n);
      }
    }
  }

  /** The product [[1, 2], [3, 4]] * [[5, 6], [7, 8]]. */
  lemma ProductExample()
    ensures Product([[1, 2], [3, 4]], [[5, 6], [7, 8]], 2, 2) == [[19, 22], [43, 50]]
  {
    var a: Grid := [[1, 2], [3, 4]];
    var b: Grid := [[5, 6], [7, 8]];
    assert Dot(a, b, 0, 0, 2) == 19 && Dot(a, b, 0, 1, 2) == 22;
    assert Dot(a, b, 1, 0, 2) == 43 && Dot(a, b, 1, 1, 2) == 50;
    var p := Product(a, b, 2, 2);
    assert p[0] == [19, 22];
    assert p[1] == [43, 50];
  }
}
