/** The dense matrix class of Matrix.hpp with `int` entries. Its state is the
    row count, the column count and the row-major storage; every operation
    that yields a matrix fills a fresh one, and the compound assignments
    overwrite the receiver's state with the binary result. */
module Matrices {
  import opened Grids
  import opened Layout

  class Matrix {
    var row: int
    var col: int
    var data: seq<seq<int>>

    /** The storage holds `row` rows of `col` entries each. */
    ghost predicate Valid()
      reads this
    {
      0 <= row && 0 <= col && IsShape(data, row, col)
    }

    /** A `r` x `c` matrix whose every entry is 0. */
    constructor (r: int, c: int)
      requires r >= 0 && c >= 0
      ensures Valid() && row == r && col == c
      ensures forall i, j :: 0 <= i < r && 0 <= j < c ==> data[i][j] == 0
    {
      row := r;
      col := c;
      data := seq(r, _ => seq(c, _ => 0));
    }

    /** The number of rows, which is the number of rows in storage. */
    function GetRows(): (r: int)
      reads this
      requires Valid()
      ensures r >= 0 && r == |data|
    {
      row
    }

    /** The number of columns, which every row in storage has. */
    function GetCols(): (c: int)
      reads this
      requires Valid()
      ensures c >= 0 && forall i :: 0 <= i < |data| ==> |data[i]| == c
    {
      col
    }

    /** `m[index]` read through the const operator: row `index`, `col` entries long. */
    function Row(index: int): (r: seq<int>)
      reads this
      requires Valid() && 0 <= index < row
      ensures |r| == col
      ensures forall j :: 0 <= j < col ==> r[j] == data[index][j]
    {
      data[index]
    }

    /** `m[i][j] = v` through the non-const operator: entry (i, j) becomes `v`,
        every other entry and the shape stay as they were. */
    method SetAt(i: int, j: int, v: int)
      requires Valid() && 0 <= i < row && 0 <= j < col
      modifies this
      ensures Valid() && row == old(row) && col == old(col)
      ensures data == old(data)[i := old(data)[i][j := v]]
      ensures data[i][j] == v
    {
      data := data[i := data[i][j := v]];
    }

    /** `this + m`. */
    method Add(m: Matrix) returns (ret: Matrix)
      requires Valid() && m.Valid()
      requires row == m.row && col == m.col
      ensures fresh(ret) && ret.Valid() && ret.row == row && ret.col == col
      ensures forall i, j :: 0 <= i < row && 0 <= j < col ==>
                ret.data[i][j] == data[i][j] + m.data[i][j]
      ensures ret.data == Sum(data, m.data)
    {
      ret := new Matrix(row, col);
      for i := 0 to m.GetRows()
        invariant ret.Valid() && ret.row == row && ret.col == col
        invariant forall p, q :: 0 <= p < i && 0 <= q < col ==>
                    ret.data[p][q] == data[p][q] + m.data[p][q]
      {
        for j := 0 to m.GetCols()
          invariant ret.Valid() && ret.row == row && ret.col == col
          invariant forall p, q :: 0 <= p < i && 0 <= q < col ==>
                      ret.data[p][q] == data[p][q] + m.data[p][q]
          invariant forall q :: 0 <= q < j ==> ret.data[i][q] == data[i][q] + m.data[i][q]
        {
          ret.SetAt(i, j, data[i][j] + m.Row(i)[j]);
        }
      }
      SumFromEntries(data, m.data, ret.data);
    }

    /** `this - m`. */
    method Subtract(m: Matrix) returns (ret: Matrix)
      requires Valid() && m.Valid()
      requires row == m.row && col == m.col
      ensures fresh(ret) && ret.Valid() && ret.row == row && ret.col == col
      ensures forall i, j :: 0 <= i < row && 0 <= j < col ==>
                ret.data[i][j] == data[i][j] - m.data[i][j]
      ensures ret.data == Difference(data, m.data)
    {
      ret := new Matrix(row, col);
      for i := 0 to m.GetRows()
        invariant ret.Valid() && ret.row == row && ret.col == col
        invariant forall p, q :: 0 <= p < i && 0 <= q < col ==>
                    ret.data[p][q] == data[p][q] - m.data[p][q]
      {
        for j := 0 to m.GetCols()
          invariant ret.Valid() && ret.row == row && ret.col == col
          invariant forall p, q :: 0 <= p < i && 0 <= q < col ==>
                      ret.data[p][q] == data[p][q] - m.data[p][q]
          invariant forall q :: 0 <= q < j ==> ret.data[i][q] == data[i][q] - m.data[i][q]
        {
          ret.SetAt(i, j, data[i][j] - m.Row(i)[j]);
        }
      }
      DifferenceFromEntries(data, m.data, ret.data);
    }

    /** `*this = *this + m`: the receiver becomes the sum and is returned. */
    method AddAssign(m: Matrix) returns (self: Matrix)
      requires Valid() && m.Valid()
      requires row == m.row && col == m.col
      modifies this
      ensures self == this && Valid()
      ensures row == old(row) && col == old(col)
      ensures data == Sum(old(data), old(m.data))
    {
      var sum := Add(m);
      row, col, data := sum.row, sum.col, sum.data;
      self := this;
    }

    /** `*this = *this - m`: the receiver becomes the difference and is returned. */
    method SubtractAssign(m: Matrix) returns (self: Matrix)
      requires Valid() && m.Valid()
      requires row == m.row && col == m.col
      modifies this
      ensures self == this && Valid()
      ensures row == old(row) && col == old(col)
      ensures data == Difference(old(data), old(m.data))
    {
      var difference := Subtract(m);
      row, col, data := difference.row, difference.col, difference.data;
      self := this;
    }

    /** `this * m`: entry (i, j) starts at 0 and accumulates
        this[i][k] * m[k][j] for k ascending over the inner dimension. */
    method Multiply(m: Matrix) returns (ret: Matrix)
      requires Valid() && m.Valid()
      requires col == m.row
      ensures fresh(ret) && ret.Valid() && ret.row == row && ret.col == m.col
      ensures forall i, j :: 0 <= i < row && 0 <= j < m.col ==>
                ret.data[i][j] == Dot(data, m.data, i, j, col)
      ensures ret.data == Product(data, m.data, col, m.col)
    {
      ret := new Matrix(row, m.GetCols());
      for i := 0 to row
        invariant ret.Valid() && ret.row == row && ret.col == m.col
        invariant forall p, q :: 0 <= p < i && 0 <= q < m.col ==>
                    ret.data[p][q] == Dot(data, m.data, p, q, col)
        invariant forall p, q :: i <= p < row && 0 <= q < m.col ==> ret.data[p][q] == 0
      {
        for j := 0 to m.GetCols()
          invariant ret.Valid() && ret.row == row && ret.col == m.col
          invariant forall p, q :: 0 <= p < i && 0 <= q < m.col ==>
                      ret.data[p][q] == Dot(data, m.data, p, q, col)
          invariant forall q :: 0 <= q < j ==> ret.data[i][q] == Dot(data, m.data, i, q, col)
          invariant forall q :: j <= q < m.col ==> ret.data[i][q] == 0
          invariant forall p, q :: i < p < row && 0 <= q < m.col ==> ret.data[p][q] == 0
        {
          ghost var before := ret.data;
          assert before[i][j := Dot(data, m.data, i, j, 0)] == before[i];
          assert before[i := before[i]] == before;
          for k := 0 to col
            invariant ret.Valid() && ret.row == row && ret.col == m.col
            invariant ret.data == before[i := before[i][j := Dot(data, m.data, i, j, k)]]
          {
            ret.SetAt(i, j, ret.Row(i)[j] + data[i][k] * m.Row(k)[j]);
            assert ret.data[i] == before[i][j := Dot(data, m.data, i, j, k + 1)];
          }
        }
      }
      ProductFromEntries(data, m.data, col, m.col, ret.data);
    }

    /** `*this = *this * m`: the receiver becomes the product and is returned. */
    method MultiplyAssign(m: Matrix) returns (self: Matrix)
      requires Valid() && m.Valid()
      requires col == m.row
      modifies this
      ensures self == this && Valid()
      ensures row == old(row) && col == old(m.col)
      ensures data == Product(old(data), old(m.data), old(col), old(m.col))
    {
      var product := Multiply(m);
      row, col, data := product.row, product.col, product.data;
      self := this;
    }

    /** `this == m`: false as soon as the shapes differ, otherwise true
        exactly when every pair of corresponding entries is equal. */
    method Equals(m: Matrix) returns (eq: bool)
      requires Valid() && m.Valid()
      ensures eq <==> row == m.row && col == m.col &&
                      forall i, j :: 0 <= i < row && 0 <= j < col ==> data[i][j] == m.data[i][j]
      ensures eq <==> row == m.row && col == m.col && data == m.data
      ensures m == this ==> eq
    {
      if row != m.GetRows() || col != m.GetCols() {
        return false;
      }
      for i := 0 to row
        invariant forall p, q :: 0 <= p < i && 0 <= q < col ==> data[p][q] == m.data[p][q]
      {
        for j := 0 to col
          invariant forall p, q :: 0 <= p < i && 0 <= q < col ==> data[p][q] == m.data[p][q]
          invariant forall q :: 0 <= q < j ==> data[i][q] == m.data[i][q]
        {
          if data[i][j] != m.Row(i)[j] {
            return false;
          }
        }
      }
      SameEntries(data, m.data, row, col);
      return true;
    }

    /** `this != m`: the negation of `this == m`. */
    method NotEquals(m: Matrix) returns (ne: bool)
      requires Valid() && m.Valid()
      ensures ne <==> !(row == m.row && col == m.col && data == m.data)
    {
      var eq := Equals(m);
      ne := !eq;
    }
  }

  /** `m * c`: every entry multiplied by the scalar, shape unchanged. */
  method TimesScalar(m: Matrix, c: int) returns (ret: Matrix)
    requires m.Valid()
    ensures fresh(ret) && ret.Valid() && ret.row == m.row && ret.col == m.col
    ensures forall i, j :: 0 <= i < m.row && 0 <= j < m.col ==> ret.data[i][j] == m.data[i][j] * c
    ensures ret.data == Scaled(m.data, c)
  {
    ret := new Matrix(m.GetRows(), m.GetCols());
    for i := 0 to m.GetRows()
      invariant ret.Valid() && ret.row == m.row && ret.col == m.col
      invariant forall p, q :: 0 <= p < i && 0 <= q < m.col ==> ret.data[p][q] == m.data[p][q] * c
    {
      for j := 0 to m.GetCols()
        invariant ret.Valid() && ret.row == m.row && ret.col == m.col
        invariant forall p, q :: 0 <= p < i && 0 <= q < m.col ==> ret.data[p][q] == m.data[p][q] * c
        invariant forall q :: 0 <= q < j ==> ret.data[i][q] == m.data[i][q] * c
      {
        ret.SetAt(i, j, m.Row(i)[j] * c);
      }
    }
    ScaledFromEntries(m.data, c, ret.data);
  }

  /** `c * m`: the same matrix as `m * c`. */
  method ScalarTimes(c: int, m: Matrix) returns (ret: Matrix)
    requires m.Valid()
    ensures fresh(ret) && ret.Valid() && ret.row == m.row && ret.col == m.col
    ensures ret.data == Scaled(m.data, c)
  {
    ret := TimesScalar(m, c);
  }

  /** `m *= c`: `m` becomes `m * c` and is returned. */
  method TimesScalarAssign(m: Matrix, c: int) returns (self: Matrix)
    requires m.Valid()
    modifies m
    ensures self == m && m.Valid()
    ensures m.row == old(m.row) && m.col == old(m.col)
    ensures m.data == Scaled(old(m.data), c)
  {
    var scaled := TimesScalar(m, c);
    m.row, m.col, m.data := scaled.row, scaled.col, scaled.data;
    self := m;
  }

  /** The entries of `g` as text, each written by `show`. */
  function Cells(g: Grid, show: int -> string): (cells: seq<seq<string>>)
    ensures |cells| == |g|
    ensures forall i :: 0 <= i < |g| ==> |cells[i]| == |g[i]|
  {
    seq(|g|, i requires 0 <= i < |g| => seq(|g[i]|, j requires 0 <= j < |g[i]| => show(g[i][j])))
  }

  /** `o << m`: the text the output loop writes, row by row, with `show`
      standing for the formatting of one entry. */
  method Render(m: Matrix, show: int -> string) returns (s: string)
    requires m.Valid()
    ensures s == Text(Cells(m.data, show))
    ensures m.row == 0 ==> s == ""
  {
    ghost var cells := Cells(m.data, show);
    s := "";
    for i := 0 to m.GetRows()
      invariant s == Text(cells[..i])
    {
      for j := 0 to m.GetCols()
        invariant s == Text(cells[..i]) + LinePrefix(cells[i], j)
      {
        s := s + show(m.Row(i)[j]) + (if j == m.GetCols() - 1 then "" else " ");
      }
      s := s + "\n";
      assert cells[..i + 1][..i] == cells[..i];
    }
    assert cells[..m.row] == cells;
  }

  lemma SumFromEntries(a: Grid, b: Grid, s: Grid)
    requires SameShape(a, b) && SameShape(s, a)
    requires forall i, j :: 0 <= i < |a| && 0 <= j < |a[i]| ==> s[i][j] == a[i][j] + b[i][j]
    ensures s == Sum(a, b)
  {
    forall i | 0 <= i < |a|
      ensures s[i] == Sum(a, b)[i]
    {
    }
  }

  lemma DifferenceFromEntries(a: Grid, b: Grid, d: Grid)
    requires SameShape(a, b) && SameShape(d, a)
    requires forall i, j :: 0 <= i < |a| && 0 <= j < |a[i]| ==> d[i][j] == a[i][j] - b[i][j]
    ensures d == Difference(a, b)
  {
    forall i | 0 <= i < |a|
      ensures d[i] == Difference(a, b)[i]
    {
    }
  }

  lemma ScaledFromEntries(g: Grid, c: int, s: Grid)
    requires SameShape(s, g)
    requires forall i, j :: 0 <= i < |g| && 0 <= j < |g[i]| ==> s[i][j] == g[i][j] * c
    ensures s == Scaled(g, c)
  {
    forall i | 0 <= i < |g|
      ensures s[i] == Scaled(g, c)[i]
    {
    }
  }

  lemma ProductFromEntries(a: Grid, b: Grid, n: nat, q: nat, p: Grid)
    requires IsShape(a, |a|, n) && IsShape(b, n, q) && IsShape(p, |a|, q)
    requires forall i, j :: 0 <= i < |a| && 0 <= j < q ==> p[i][j] == Dot(a, b, i, j, n)
    ensures p == Product(a, b, n, q)
  {
    forall i | 0 <= i < |a|
      ensures p[i] == Product(a, b, n, q)[i]
    {
    }
  }

  lemma SameEntries(a: Grid, b: Grid, r: int, c: int)
    requires IsShape(a, r, c) && IsShape(b, r, c)
    requires forall i, j :: 0 <= i < r && 0 <= j < c ==> a[i][j] == b[i][j]
    ensures a == b
  {
    forall i | 0 <= i < r
      ensures a[i] == b[i]
    {
    }
  }
}
