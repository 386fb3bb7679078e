/** The dashboard callback: filter the transaction table, then derive the
    three headline figures and the grouped series the charts draw. */
module Dashboard {
  import opened Wrappers
  import opened Transactions
  import opened Filtering
  import opened Grouping
  import opened Ranking

  /** Everything one callback invocation displays. `filtered` is what the
      sales-over-time line chart and the country/quantity scatter plot draw,
      one point per row. `topProduct` is None when there is nothing to rank. */
  datatype View = View(
    filtered: seq<Row>,
    totalSales: int,
    totalQuantity: int,
    topProduct: Option<string>,
    salesByCountry: seq<Entry>,
    topProducts: seq<Entry>)

  /** The descriptions that occur among the rows; missing ones are not values. */
  function Descriptions(rows: seq<Row>): set<string>
  {
    set r | r in rows && r.description.Some? :: r.description.value
  }

  function Countries(rows: seq<Row>): set<string>
  {
    set r | r in rows :: r.country
  }

  /** Summed quantity of the rows carrying description `d`. */
  function ProductQuantity(rows: seq<Row>, d: string): int
  {
    SumQuantity(Where(rows, (r: Row) => r.description == Some(d)))
  }

  /** Summed sales of the rows from country `k`. */
  function CountrySalesOf(rows: seq<Row>, k: string): int
  {
    SumSales(Where(rows, (r: Row) => r.country == k))
  }

  /** Peeling the first row off the per-description and per-country sets
      and sums. */
  lemma FirstRowContribution(rows: seq<Row>)
    requires rows != []
    ensures Descriptions(rows) ==
      (if rows[0].description.Some? then {rows[0].description.value} else {}) + Descriptions(rows[1..])
    ensures Countries(rows) == {rows[0].country} + Countries(rows[1..])
    ensures forall d ::
      ProductQuantity(rows, d) == (if rows[0].description == Some(d) then rows[0].quantity else 0) + ProductQuantity(rows[1..], d)
    ensures forall k ::
      CountrySalesOf(rows, k) == (if rows[0].country == k then TotalSales(rows[0]) else 0) + CountrySalesOf(rows[1..], k)
    ensures SumSales(rows) == TotalSales(rows[0]) + SumSales(rows[1..])
  {
    assert rows == [rows[0]] + rows[1..];
    forall d
      ensures ProductQuantity(rows, d) ==
        (if rows[0].description == Some(d) then rows[0].quantity else 0) + ProductQuantity(rows[1..], d)
    {
      FirstRowQuantity(rows, d);
    }
    forall k
      ensures CountrySalesOf(rows, k) ==
        (if rows[0].country == k then TotalSales(rows[0]) else 0) + CountrySalesOf(rows[1..], k)
    {
      FirstRowSales(rows, k);
    }
  }

  lemma FirstRowQuantity(rows: seq<Row>, d: string)
    requires rows != []
    ensures ProductQuantity(rows, d) ==
      (if rows[0].description == Some(d) then rows[0].quantity else 0) + ProductQuantity(rows[1..], d)
  {
    assert rows == [rows[0]] + rows[1..];
    var tail := Where(rows[1..], (r: Row) => r.description == Some(d));
    assert ([rows[0]] + tail)[1..] == tail;
  }

  lemma FirstRowSales(rows: seq<Row>, k: string)
    requires rows != []
    ensures CountrySalesOf(rows, k) ==
      (if rows[0].country == k then TotalSales(rows[0]) else 0) + CountrySalesOf(rows[1..], k)
  {
    assert rows == [rows[0]] + rows[1..];
    var tail := Where(rows[1..], (r: Row) => r.country == k);
    assert ([rows[0]] + tail)[1..] == tail;
  }

  /** The (Description, Quantity) pairs grouped for the top-product figures.
      Grouping drops rows whose description is missing. */
  function ProductQuantities(rows: seq<Row>): (es: seq<Entry>)
    ensures Keys(es) == Descriptions(rows)
    ensures forall d :: KeyTotal(es, d) == ProductQuantity(rows, d)
  {
    if rows == [] then []
    else
      var r := rows[0];
      var rest := ProductQuantities(rows[1..]);
      FirstRowContribution(rows);
      match r.description
      case None => rest
      case Some(d) =>
        var es := [Entry(d, r.quantity)] + rest;
        assert es[0] == Entry(d, r.quantity) && es[1..] == rest;
        es
  }

  /** The (Country, TotalSales) pairs grouped for the sales-by-country chart. */
  function CountryEntries(rows: seq<Row>): (es: seq<Entry>)
    ensures Keys(es) == Countries(rows)
    ensures forall k :: KeyTotal(es, k) == CountrySalesOf(rows, k)
    ensures Total(es) == SumSales(rows)
  {
    if rows == [] then []
    else
      var r := rows[0];
      var rest := CountryEntries(rows[1..]);
      FirstRowContribution(rows);
      var es := [Entry(r.country, TotalSales(r))] + rest;
      assert es[0] == Entry(r.country, TotalSales(r)) && es[1..] == rest;
      es
  }

  /** `groupby('Description')['Quantity'].sum().idxmax()`: some description
      whose summed quantity is at least every other description's. It raises
      exactly when no row has a description. */
  function TopProduct(rows: seq<Row>): (r: Result<string, RankError>)
    ensures r.Failure? <==> Descriptions(rows) == {}
    ensures r.Success? ==> r.value in Descriptions(rows)
    ensures r.Success? ==> forall d :: d in Descriptions(rows) ==> ProductQuantity(rows, d) <= ProductQuantity(rows, r.value)
  {
    var groups := GroupSum(ProductQuantities(rows));
    var r := IdxMax(groups);
    ProductGroupsEmpty(rows);
    if r.Success? then
      var i :| 0 <= i < |groups| && groups[i].key == r.value &&
        (forall j :: 0 <= j < |groups| ==> groups[j].value <= groups[i].value);
      LargestProductGroup(rows, i);
      r
    else
      r
  }

  /** There are no product groups exactly when no row has a description. */
  lemma ProductGroupsEmpty(rows: seq<Row>)
    ensures GroupSum(ProductQuantities(rows)) == [] <==> Descriptions(rows) == {}
  {
    DistinctKeysCount(GroupSum(ProductQuantities(rows)));
  }

  /** The key of a largest product group is a description whose summed
      quantity is at least every other description's. */
  lemma LargestProductGroup(rows: seq<Row>, i: nat)
    requires i < |GroupSum(ProductQuantities(rows))|
    requires forall j :: 0 <= j < |GroupSum(ProductQuantities(rows))| ==>
      GroupSum(ProductQuantities(rows))[j].value <= GroupSum(ProductQuantities(rows))[i].value
    ensures GroupSum(ProductQuantities(rows))[i].key in Descriptions(rows)
    ensures forall d :: d in Descriptions(rows) ==>
      ProductQuantity(rows, d) <= ProductQuantity(rows, GroupSum(ProductQuantities(rows))[i].key)
  {
    var groups := GroupSum(ProductQuantities(rows));
    GroupSumEntries(ProductQuantities(rows));
    forall d | d in Descriptions(rows)
      ensures ProductQuantity(rows, d) <= ProductQuantity(rows, groups[i].key)
    {
      var j :| 0 <= j < |groups| && groups[j].key == d;
    }
  }

  /** The sales-by-country series: one bar per distinct country among the
      rows, each that country's summed sales; the bars add up to total sales. */
  function SalesByCountry(rows: seq<Row>): (bars: seq<Entry>)
    ensures DistinctKeys(bars)
    ensures Keys(bars) == Countries(rows)
    ensures forall i :: 0 <= i < |bars| ==> bars[i].value == CountrySalesOf(rows, bars[i].key)
    ensures Total(bars) == SumSales(rows)
  {
    GroupSumEntries(CountryEntries(rows));
    GroupSum(CountryEntries(rows))
  }

  /** Every entry of a selection from the product groups is a described
      product paired with its summed quantity. */
  lemma SelectedGroupsAreProducts(rows: seq<Row>, top: seq<Entry>)
    requires multiset(top) <= multiset(GroupSum(ProductQuantities(rows)))
    ensures forall i :: 0 <= i < |top| ==>
      top[i].key in Descriptions(rows) && top[i].value == ProductQuantity(rows, top[i].key)
  {
    var groups := GroupSum(ProductQuantities(rows));
    GroupSumEntries(ProductQuantities(rows));
    forall i | 0 <= i < |top|
      ensures top[i].key in Descriptions(rows) && top[i].value == ProductQuantity(rows, top[i].key)
    {
      assert top[i] in multiset(top);
      assert top[i] in multiset(groups);
      var j :| 0 <= j < |groups| && groups[j] == top[i];
    }
  }

  /** A description missing from a top-n selection of the product groups
      sells no more than any product that was selected. */
  lemma LeftOutProductsSellLess(rows: seq<Row>, top: seq<Entry>)
    requires forall i, j :: 0 <= i < |top| && 0 <= j < |GroupSum(ProductQuantities(rows))| && GroupSum(ProductQuantities(rows))[j] !in top ==>
      GroupSum(ProductQuantities(rows))[j].value <= top[i].value
    ensures forall i, d :: 0 <= i < |top| && d in Descriptions(rows) && d !in Keys(top) ==>
      ProductQuantity(rows, d) <= top[i].value
  {
    var groups := GroupSum(ProductQuantities(rows));
    GroupSumEntries(ProductQuantities(rows));
    LeftOutGroupsSellLess(rows, groups, top);
  }

  /** The same fact over any grouping whose groups are the present
      descriptions paired with their summed quantities. */
  lemma LeftOutGroupsSellLess(rows: seq<Row>, groups: seq<Entry>, top: seq<Entry>)
    requires forall j :: 0 <= j < |groups| ==> groups[j].value == ProductQuantity(rows, groups[j].key)
    requires forall d :: d in Descriptions(rows) ==> exists j :: 0 <= j < |groups| && groups[j].key == d
    requires forall i, j :: 0 <= i < |top| && 0 <= j < |groups| && groups[j] !in top ==> groups[j].value <= top[i].value
    ensures forall i, d :: 0 <= i < |top| && d in Descriptions(rows) && d !in Keys(top) ==>
      ProductQuantity(rows, d) <= top[i].value
  {
    forall i, d | 0 <= i < |top| && d in Descriptions(rows) && d !in Keys(top)
      ensures ProductQuantity(rows, d) <= top[i].value
    {
      var j :| 0 <= j < |groups| && groups[j].key == d;
      KeysHaveEntries(top, d);
      assert groups[j] !in top;
    }
  }

  /** The top-products pie: at most ten descriptions with their summed
      quantities, largest first, and no description left out sells more
      than one that is shown. */
  function TopProducts(rows: seq<Row>): (top: seq<Entry>)
    ensures DistinctKeys(top)
    ensures |top| == if |Descriptions(rows)| < TopCount then |Descriptions(rows)| else TopCount
    ensures Descending(top)
    ensures forall i :: 0 <= i < |top| ==>
      top[i].key in Descriptions(rows) && top[i].value == ProductQuantity(rows, top[i].key)
    ensures forall i, d :: 0 <= i < |top| && d in Descriptions(rows) && d !in Keys(top) ==>
      ProductQuantity(rows, d) <= top[i].value
  {
    var groups := GroupSum(ProductQuantities(rows));
    var top := TopN(groups, TopCount);
    DistinctKeysCount(groups);
    SelectionKeepsDistinctKeys(top, groups);
    SelectedGroupsAreProducts(rows, top);
    LeftOutProductsSellLess(rows, top);
    top
  }

  /** No description among the rows means every row's description is missing. */
  lemma NoDescriptions(rows: seq<Row>)
    ensures Descriptions(rows) == {} <==> forall x :: x in rows ==> x.description.None?
  {
    if exists x :: x in rows && x.description.Some? {
      var x :| x in rows && x.description.Some?;
      assert x.description.value in Descriptions(rows);
    }
  }

  /** The callback with the empty-grouping crash repaired: every input gets
      a view, and the top product is None exactly when no retained row has
      a description. */
  function ComputeView(rows: seq<Row>, c: Criteria): (v: View)
    ensures IsSubsequence(v.filtered, rows)
    ensures forall r :: multiset(v.filtered)[r] == if Retained(r, c) then multiset(rows)[r] else 0
    ensures forall r :: r in v.filtered <==> r in rows && Retained(r, c)
    ensures v.totalSales == RetainedSales(rows, c)
    ensures v.totalQuantity == RetainedQuantity(rows, c)
    ensures v.topProduct.None? <==> Descriptions(v.filtered) == {}
    ensures v.topProduct.Some? ==> TopProduct(v.filtered) == Success(v.topProduct.value)
    ensures v.salesByCountry == SalesByCountry(v.filtered)
    ensures Total(v.salesByCountry) == v.totalSales
    ensures v.topProducts == TopProducts(v.filtered)
    ensures |v.topProducts| <= TopCount
  {
    var filtered := FilterRows(rows, c);
    TotalsOverRetainedRows(rows, c);
    var top := match TopProduct(filtered)
      case Success(d) => Some(d)
      case Failure(_) => None;
    View(filtered, SumSales(filtered), SumQuantity(filtered), top,
         SalesByCountry(filtered), TopProducts(filtered))
  }

  /** The callback as written: `idxmax` raises when no retained row has a
      description, and the exception escapes the callback. */
  function UpdateGraphs(rows: seq<Row>, c: Criteria): (r: Result<View, RankError>)
    ensures r.Failure? <==> forall x :: x in rows && Retained(x, c) ==> x.description.None?
    ensures r.Success? ==> r.value == ComputeView(rows, c) && r.value.topProduct.Some?
  {
    var v := ComputeView(rows, c);
    NoDescriptions(v.filtered);
    if v.topProduct.None? then Failure(EmptyGrouping) else Success(v)
  }
}
