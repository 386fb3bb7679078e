/** The filter step of the dashboard callback: a date range, then an optional
    country, then an optional product, each keeping a subsequence of the rows. */
module Filtering {
  import opened Wrappers
  import opened Transactions

  /** The four callback inputs. Both dates are inclusive bounds; a dropdown
      that was cleared or never set is None. */
  datatype Criteria = Criteria(
    startDate: int,
    endDate: int,
    country: Option<string>,
    product: Option<string>)

  /** Python truthiness of a dropdown value: None and "" both mean "no filter". */
  predicate IsSelected(choice: Option<string>)
  {
    choice.Some? && choice.value != ""
  }

  predicate InDateRange(r: Row, c: Criteria)
  {
    c.startDate <= r.invoiceDate <= c.endDate
  }

  predicate CountryMatches(r: Row, c: Criteria)
  {
    IsSelected(c.country) ==> r.country == c.country.value
  }

  /** A row with no description never equals a selected product. */
  predicate ProductMatches(r: Row, c: Criteria)
  {
    IsSelected(c.product) ==> r.description == Some(c.product.value)
  }

  /** The conjunction of the three filters: what the dashboard keeps. */
  predicate Retained(r: Row, c: Criteria)
  {
    InDateRange(r, c) && CountryMatches(r, c) && ProductMatches(r, c)
  }

  /** `xs` can be obtained from `ys` by deleting elements, keeping the order. */
  predicate IsSubsequence<T(==)>(xs: seq<T>, ys: seq<T>)
    decreases |ys|
  {
    if xs == [] then true
    else if ys == [] then false
    else (xs[0] == ys[0] && IsSubsequence(xs[1..], ys[1..])) || IsSubsequence(xs, ys[1..])
  }

  lemma {:induction false} SubsequenceTransitive<T>(xs: seq<T>, ys: seq<T>, zs: seq<T>)
    requires IsSubsequence(xs, ys) && IsSubsequence(ys, zs)
    ensures IsSubsequence(xs, zs)
    decreases |zs|
  {
    if xs == [] {
    } else if ys == [] {
    } else if zs == [] {
    } else if ys[0] == zs[0] && IsSubsequence(ys[1..], zs[1..]) {
      if xs[0] == ys[0] && IsSubsequence(xs[1..], ys[1..]) {
        SubsequenceTransitive(xs[1..], ys[1..], zs[1..]);
      } else {
        SubsequenceTransitive(xs, ys[1..], zs[1..]);
      }
    } else {
      SubsequenceTransitive(xs, ys, zs[1..]);
    }
  }

  lemma {:induction false} SubsequenceReflexive<T>(xs: seq<T>)
    ensures IsSubsequence(xs, xs)
  {
    if xs != [] {
      SubsequenceReflexive(xs[1..]);
    }
  }

  /** Boolean-mask indexing: the rows satisfying `keep`, in their original
      order and unaltered, each as often as it occurs in the input. */
  function Where<T(==,!new)>(xs: seq<T>, keep: T -> bool): (ys: seq<T>)
    ensures IsSubsequence(ys, xs)
    ensures forall x :: multiset(ys)[x] == if keep(x) then multiset(xs)[x] else 0
    ensures forall y :: y in ys <==> y in xs && keep(y)
  {
    if xs == [] then []
    else
      assert xs == [xs[0]] + xs[1..];
      if keep(xs[0]) then [xs[0]] + Where(xs[1..], keep) else Where(xs[1..], keep)
  }

  /** A mask that is true on every element selects everything. */
  lemma {:induction false} WhereAll<T(!new)>(xs: seq<T>, keep: T -> bool)
    requires forall x :: x in xs ==> keep(x)
    ensures Where(xs, keep) == xs
  {
    if xs != [] {
      WhereAll(xs[1..], keep);
    }
  }

  /** The date-range mask: both bounds inclusive. */
  function ByDate(rows: seq<Row>, c: Criteria): (dated: seq<Row>)
    ensures IsSubsequence(dated, rows)
    ensures forall r :: multiset(dated)[r] == if InDateRange(r, c) then multiset(rows)[r] else 0
  {
    Where(rows, (r: Row) => InDateRange(r, c))
  }

  /** The country mask, applied only when a country is selected. */
  function ByCountry(rows: seq<Row>, c: Criteria): (located: seq<Row>)
    ensures !IsSelected(c.country) ==> located == rows
    ensures IsSubsequence(located, rows)
    ensures forall r :: multiset(located)[r] == if CountryMatches(r, c) then multiset(rows)[r] else 0
  {
    SubsequenceReflexive(rows);
    if IsSelected(c.country) then Where(rows, (r: Row) => r.country == c.country.value) else rows
  }

  /** The product mask, applied only when a product is selected. */
  function ByProduct(rows: seq<Row>, c: Criteria): (chosen: seq<Row>)
    ensures !IsSelected(c.product) ==> chosen == rows
    ensures IsSubsequence(chosen, rows)
    ensures forall r :: multiset(chosen)[r] == if ProductMatches(r, c) then multiset(rows)[r] else 0
  {
    SubsequenceReflexive(rows);
    if IsSelected(c.product) then Where(rows, (r: Row) => r.description == Some(c.product.value)) else rows
  }

  /** The three filters applied in the callback's order. The result is an
      order-preserving subsequence holding exactly the retained rows, each
      with its original multiplicity. */
  function FilterRows(rows: seq<Row>, c: Criteria): (kept: seq<Row>)
    ensures IsSubsequence(kept, rows)
    ensures forall r :: multiset(kept)[r] == if Retained(r, c) then multiset(rows)[r] else 0
    ensures forall r :: r in kept <==> r in rows && Retained(r, c)
  {
    var dated := ByDate(rows, c);
    var located := ByCountry(dated, c);
    var kept := ByProduct(located, c);
    SubsequenceTransitive(located, dated, rows);
    SubsequenceTransitive(kept, located, rows);
    kept
  }

  /** Unfolding the three-stage filter one row at a time: it is a single
      pass that keeps a row exactly when all three filters accept it. */
  lemma FilterRowsStep(r: Row, rest: seq<Row>, c: Criteria)
    ensures FilterRows([r] + rest, c) ==
      if Retained(r, c) then [r] + FilterRows(rest, c) else FilterRows(rest, c)
  {
    var xs := [r] + rest;
    assert xs[0] == r && xs[1..] == rest;
  }

  /** A first row from another country than the selected one is dropped,
      and the filter carries on with the rest of the table. */
  lemma OtherCountryDropped(other: Row, rest: seq<Row>, c: Criteria)
    requires IsSelected(c.country) && other.country != c.country.value
    ensures FilterRows([other] + rest, c) == FilterRows(rest, c)
  {
    FilterRowsStep(other, rest, c);
  }

  lemma {:induction false} FilterRowsIsOnePass(rows: seq<Row>, c: Criteria)
    ensures FilterRows(rows, c) == Where(rows, (r: Row) => Retained(r, c))
  {
    if rows != [] {
      assert rows == [rows[0]] + rows[1..];
      FilterRowsStep(rows[0], rows[1..], c);
      FilterRowsIsOnePass(rows[1..], c);
    }
  }

  /** With no dropdown selected and a range spanning every invoice date,
      the filter returns the whole table. */
  lemma FullRangeKeepsEverything(rows: seq<Row>, c: Criteria)
    requires !IsSelected(c.country) && !IsSelected(c.product)
    requires forall r :: r in rows ==> c.startDate <= r.invoiceDate <= c.endDate
    ensures FilterRows(rows, c) == rows
  {
    WhereAll(rows, (r: Row) => InDateRange(r, c));
  }

  /** Sales of the rows the filters accept; rejected rows contribute 0. */
  function RetainedSales(rows: seq<Row>, c: Criteria): int
  {
    if rows == [] then 0
    else (if Retained(rows[0], c) then TotalSales(rows[0]) else 0) + RetainedSales(rows[1..], c)
  }

  /** Quantity of the rows the filters accept; rejected rows contribute 0. */
  function RetainedQuantity(rows: seq<Row>, c: Criteria): int
  {
    if rows == [] then 0
    else (if Retained(rows[0], c) then rows[0].quantity else 0) + RetainedQuantity(rows[1..], c)
  }

  /** The two totals are taken over exactly the retained rows. */
  lemma TotalsOverRetainedRows(rows: seq<Row>, c: Criteria)
    ensures SumSales(FilterRows(rows, c)) == RetainedSales(rows, c)
    ensures SumQuantity(FilterRows(rows, c)) == RetainedQuantity(rows, c)
  {
    FilterRowsIsOnePass(rows, c);
    SumsOfRetained(rows, c);
  }

  /** The same sums over the single combined mask. */
  lemma {:induction false} SumsOfRetained(rows: seq<Row>, c: Criteria)
    ensures SumSales(Where(rows, (r: Row) => Retained(r, c))) == RetainedSales(rows, c)
    ensures SumQuantity(Where(rows, (r: Row) => Retained(r, c))) == RetainedQuantity(rows, c)
  {
    if rows != [] {
      SumsOfRetained(rows[1..], c);
      SumsOfStep(rows[0], Where(rows[1..], (r: Row) => Retained(r, c)), Where(rows, (r: Row) => Retained(r, c)), c);
    }
  }

  /** One step of the filter, in sums: a retained head adds its sales and
      quantity, a rejected one adds nothing. */
  lemma SumsOfStep(r: Row, tail: seq<Row>, kept: seq<Row>, c: Criteria)
    requires kept == if Retained(r, c) then [r] + tail else tail
    ensures SumSales(kept) == (if Retained(r, c) then TotalSales(r) else 0) + SumSales(tail)
    ensures SumQuantity(kept) == (if Retained(r, c) then r.quantity else 0) + SumQuantity(tail)
  {
    if Retained(r, c) {
      SumsOfConcatenation([r], tail);
    }
  }
}
