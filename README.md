# Dense matrix with arithmetic operators, in Dafny

This project models `Matrix<T>` from `Matrix.hpp`, a generic dense matrix. In the
model the element type is `int`. The class keeps three fields: the row count
`row`, the column count `col`, and the storage `data`, a sequence of rows. It
offers the following operations:

- a sized constructor that fills every entry with zero;
- the row and column getters;
- row indexing, both for reading and for writing one entry;
- entry-wise `+` and `-`, and the matrix product `*`;
- the compound assignments `+=`, `-=` and `*=`;
- `==` and `!=`;
- the free functions `m * c`, `c * m` and `m *= c` for a scalar `c`;
- `operator<<`, the text rendering.

The project has three modules:

- `Grids` (`grids.dfy`) describes matrices as plain values. It defines
  entry-wise sum, difference and scaling, and the product's accumulator `Dot`,
  which starts at 0 and adds `a[i][k] * b[k][j]` for ascending `k`. Its
  lemmas state the algebra: subtraction undoes addition (both ways round), the
  product distributes over a sum, scaling equals a product with `c * I`, and
  the 2 x 2 example
  `[[1,2],[3,4]] * [[5,6],[7,8]] == [[19,22],[43,50]]`.
- `Layout` (`layout.dfy`) describes the text layout of `operator<<` for entries
  that are already text. Each entry is followed by a space unless it ends its
  row, and every row ends with a line break. The lemmas show that a row comes
  out as its entries joined by single spaces, with no trailing space. If no
  entry contains a line break, the text has exactly one line break per row.
  A matrix with no rows renders as empty text.
- `Matrices` (`matrix.dfy`) holds the `Matrix` class. The predicate `Valid()`
  says the storage is rectangular. Each operator fills a fresh matrix with
  nested loops, as the source does, and is proved against the `Grids`
  function for its result. Each compound assignment overwrites the
  receiver's fields with the binary result and returns the receiver.

Error handling follows the code. The code checks its preconditions only with
`assert`, so each checked condition is a `requires` clause here. There are no
exception types in the code, so none are modelled. The row-index upper bound
is not asserted in the source; reading past it is undefined behaviour. So row
indexing requires `0 <= index < row`. Writing an entry also requires the
column to be in range, because `std::vector`'s own indexing does not check it.

## Model

| member | source | states |
|---|---|---|
| `Matrices.Matrix.constructor` | Matrix.hpp:163-170 | requires `r >= 0 && c >= 0`; the matrix has `r` rows of `c` entries each, and every entry is 0 |
| `Matrices.Matrix.GetRows` | Matrix.hpp:172-175 | the row count is non-negative and equals the number of rows in storage |
| `Matrices.Matrix.GetCols` | Matrix.hpp:177-180 | the column count is non-negative and is the length of every stored row |
| `Matrices.Matrix.Row` | Matrix.hpp:188-192 | requires `0 <= index < row`; returns row `index`, which has `col` entries |
| `Matrices.Matrix.SetAt` | Matrix.hpp:182-186 | writing entry (i, j) through the returned row changes only that entry; the shape is unchanged |
| `Matrices.Matrix.Add` | Matrix.hpp:194-204 | requires equal shapes; the result is a fresh matrix of the same shape with `ret[i][j] == a[i][j] + b[i][j]`; neither operand changes |
| `Matrices.Matrix.Subtract` | Matrix.hpp:206-216 | requires equal shapes; the result is a fresh matrix of the same shape with `ret[i][j] == a[i][j] - b[i][j]`; neither operand changes |
| `Matrices.Matrix.AddAssign` | Matrix.hpp:218-222 | the receiver becomes its old value plus the operand (also when the operand is the receiver itself) and is the value returned |
| `Matrices.Matrix.SubtractAssign` | Matrix.hpp:224-228 | the receiver becomes its old value minus the operand and is the value returned |
| `Matrices.Matrix.Multiply` | Matrix.hpp:230-242 | requires `a.col == b.row`; the result is `a.row` x `b.col`, and entry (i, j) is the sum from 0 of `a[i][k] * b[k][j]` over ascending `k < a.col`; neither operand changes |
| `Matrices.Matrix.MultiplyAssign` | Matrix.hpp:244-248 | the receiver becomes the product of its old value and the operand, takes the operand's column count, and is the value returned |
| `Matrices.Matrix.Equals` | Matrix.hpp:250-262 | false whenever the shapes differ; for equal shapes, true iff every pair of corresponding entries is equal; `a == a` holds |
| `Matrices.Matrix.NotEquals` | Matrix.hpp:264-267 | exactly the negation of `==` |
| `Matrices.TimesScalar` | Matrix.hpp:269-278 | `m * c` keeps the shape of `m` and has `ret[i][j] == m[i][j] * c` |
| `Matrices.ScalarTimes` | Matrix.hpp:280-283 | `c * m` is the same matrix as `m * c` |
| `Matrices.TimesScalarAssign` | Matrix.hpp:285-289 | `m *= c` turns `m` into `m * c` with its shape unchanged and returns `m` |
| `Matrices.Render` | Matrix.hpp:291-302 | the output is each row's line followed by a line break; a matrix with zero rows renders as empty text |
| `Grids.DifferenceUndoesSum` | Matrix.hpp:194-216 | `(a + b) - b == a` for all equally shaped `a`, `b` |
| `Grids.SumUndoesDifference` | Matrix.hpp:194-216 | `(a - b) + b == a` for all equally shaped `a`, `b` |
| `Grids.ProductDistributesOverSum` | Matrix.hpp:230-242 | `a * (b + c) == a * b + a * c` |
| `Grids.ScaledIsProductWithDiagonal` | Matrix.hpp:269-278 | `m * c` equals the matrix product of `m` with the diagonal matrix `c * I` |
| `Grids.ProductExample` | Matrix.hpp:230-242 | `[[1,2],[3,4]] * [[5,6],[7,8]] == [[19,22],[43,50]]` |
| `Layout.LineIsJoin` | Matrix.hpp:294-298 | a row is written as its entries joined by single spaces, with no trailing space |
| `Layout.OneLineBreakPerRow` | Matrix.hpp:293-300 | if no entry contains a line break, the text has exactly one line break per row; zero rows give empty text |
| `Layout.TextExample` | Matrix.hpp:291-302 | `[[1,2],[3,4]]` renders as `"1 2\n3 4\n"` |

## Left out

- Element type: `T` is fixed to `int`. The product still accumulates in the
  source's order, from 0 and for ascending `k`.
- Overflow: `row`, `col` and the entries are unbounded integers, so C++ `int`
  overflow is not modelled.
- Aborts: a failed `assert` in the source aborts the program. Here each
  asserted condition is a precondition instead.
- Exception types: the code has no `InvalidDimension`, `IndexOutOfBounds` or
  `IncompatibleMatrices` types, so the model has none.
- Whole-row writes: the non-const `operator[]` returns a reference to a whole
  row vector. Only single-entry writes through it are modelled (`SetAt`).
  Assigning a whole row of another length through that reference would break
  the rectangular shape.
- Heap allocation: the allocation behind `std::vector::resize` and copy
  assignment is modelled as fresh objects and sequence values. As a result,
  storage of two matrices never aliases.
- Render: the per-entry formatting `o << m[i][j]` is the parameter `show`.
  Writing to a `std::ostream` is I/O and is not modelled.
- Friend declarations: the `template <typename L> friend` declarations at
  Matrix.hpp:127-160 do not match the free functions defined at 269-302.
  This is a C++ linkage detail; the free functions are modelled as defined.
- Complex: `Complex.cpp` and `Complex.h` are not part of this model.
