/**
  Where a byte of the volume lies: blocks of blockSize bytes, laid out dataCount to a row.
 */
module Layout {
  datatype Geometry = Geometry(rows: nat, dataCount: nat, blockSize: nat) {
    predicate Valid() { dataCount > 0 && blockSize > 0 }

    function Capacity(): nat { Times(Times(rows, dataCount), blockSize) }

    /** The first byte of a cell, plus an offset in it. */
    function Position(row: nat, column: nat, offset: nat): nat {
      Times(Times(row, dataCount) + column, blockSize) + offset
    }

    function RowOf(k: nat): nat requires Valid() { k / blockSize / dataCount }
    function ColumnOf(k: nat): nat requires Valid() { k / blockSize % dataCount }
    function OffsetOf(k: nat): nat requires Valid() { k % blockSize }

    lemma PlaceIsUnique(row: nat, column: nat, offset: nat)
      requires Valid() && column < dataCount && offset < blockSize
      ensures RowOf(Position(row, column, offset)) == row
      ensures ColumnOf(Position(row, column, offset)) == column
      ensures OffsetOf(Position(row, column, offset)) == offset
    {
      TimesIsProduct(row, dataCount);
      TimesIsProduct(row * dataCount + column, blockSize);
      DivideUnique(Position(row, column, offset), blockSize, row * dataCount + column, offset);
      DivideUnique(row * dataCount + column, dataCount, row, column);
    }

    lemma PlaceOf(k: nat)
      requires Valid()
      ensures Position(RowOf(k), ColumnOf(k), OffsetOf(k)) == k
      ensures ColumnOf(k) < dataCount && OffsetOf(k) < blockSize
      ensures k < Capacity() ==> RowOf(k) < rows
    {
      var b := k / blockSize;
      TimesIsProduct(b / dataCount, dataCount);
      assert b == b / dataCount * dataCount + b % dataCount;
      TimesIsProduct(b, blockSize);
      if k < Capacity() {
        RowInRange(k);
      }
    }

    lemma RowInRange(k: nat)
      requires Valid() && k < Capacity()
      ensures RowOf(k) < rows
    {
      TimesIsProduct(rows, dataCount);
      TimesIsProduct(rows * dataCount, blockSize);
      QuotientBound(k, blockSize, rows * dataCount);
      QuotientBound(k / blockSize, dataCount, rows);
    }

    /** Every cell of the grid lies inside the volume. */
    lemma CellInside(row: nat, column: nat)
      requires row < rows && column < dataCount
      ensures Position(row, column, blockSize) <= Capacity()
    {
      TimesGrows(row + 1, rows, dataCount);
      assert Times(row + 1, dataCount) == Times(row, dataCount) + dataCount;
      TimesGrows(Times(row, dataCount) + column + 1, Times(rows, dataCount), blockSize);
      NextPlace(row, column);
    }

    /** Later bytes lie in later rows, or the same. */
    lemma RowsGrow(k: nat, l: nat)
      requires Valid() && k <= l
      ensures RowOf(k) <= RowOf(l)
    {
      QuotientGrows(k, l, blockSize);
      QuotientGrows(k / blockSize, l / blockSize, dataCount);
    }

    /** The cell after this one in the same row, and the first one of the next row, start where it ends. */
    lemma NextPlace(row: nat, column: nat)
      ensures Position(row, column, blockSize) == Position(row, column + 1, 0)
      ensures column + 1 == dataCount ==> Position(row, column, blockSize) == Position(row + 1, 0, 0)
    {
      assert Times(Times(row, dataCount) + column + 1, blockSize) ==
               Times(Times(row, dataCount) + column, blockSize) + blockSize;
      assert Times(row + 1, dataCount) == Times(row, dataCount) + dataCount;
    }
  }

  /** Multiplication by repeated addition, so that a proof sees a product only where it asks for one. */
  function Times(a: nat, b: nat): nat {
    if a == 0 then 0 else Times(a - 1, b) + b
  }

  lemma {:induction false} TimesIsProduct(a: nat, b: nat)
    ensures Times(a, b) == a * b
  {
    if a > 0 {
      TimesIsProduct(a - 1, b);
      assert (a - 1) * b + b == a * b;
    }
  }

  lemma {:induction false} TimesGrows(a: nat, b: nat, c: nat)
    requires a <= b
    ensures Times(a, c) <= Times(b, c)
    decreases b - a
  {
    if a < b {
      TimesGrows(a, b - 1, c);
    }
  }

  lemma QuotientGrows(a: nat, b: nat, d: nat)
    requires a <= b && d > 0
    ensures a / d <= b / d
  {
    var x := a / d - b / d;
    assert a / d * d <= a && b < b / d * d + d;
    assert x >= 1 ==> x * d >= d;
    assert x * d == a / d * d - b / d * d;
  }

  lemma DivideUnique(k: int, d: int, q: int, r: int)
    requires d > 0 && 0 <= r < d && k == q * d + r
    ensures k / d == q && k % d == r
  {
    var x := k / d - q;
    assert x * d == r - k % d;
    assert x >= 1 ==> x * d >= d;
    assert x <= -1 ==> x * d <= -d;
  }

  lemma QuotientBound(k: nat, d: nat, n: nat)
    requires d > 0 && k < n * d
    ensures k / d < n
  {
    assert (k / d) * d <= k;
    assert (n - k / d) * d > 0;
  }
}
