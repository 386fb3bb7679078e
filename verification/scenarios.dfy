/** Worked examples of the callback on a two-row table: the same mug sold in
    the United Kingdom and in France on one day, at 200 cents apiece. */
module Scenarios {
  import opened Wrappers
  import opened Transactions
  import opened Filtering
  import opened Grouping
  import opened Dashboard

  const Day: int := 1000

  function MugRows(): seq<Row>
  {
    [Row(Day, "UK", Some("Mug"), 5, 200), Row(Day, "FR", Some("Mug"), 3, 200)]
  }

  /** Per-country sales and per-product quantities of the two rows. */
  lemma MugGroups()
    ensures Countries(MugRows()) == {"UK", "FR"}
    ensures Descriptions(MugRows()) == {"Mug"}
    ensures CountrySalesOf(MugRows(), "UK") == 1000
    ensures CountrySalesOf(MugRows(), "FR") == 600
  {
    var rows := MugRows();
    assert rows[0] in rows && rows[1] in rows;
    assert rows[1..] == [rows[1]] && rows[1..][1..] == [];
  }

  /** The repaired view of a table whose only product is the mug. */
  lemma OnlyMugOnTop(rows: seq<Row>, c: Criteria)
    requires Descriptions(FilterRows(rows, c)) == {"Mug"}
    ensures ComputeView(rows, c).topProduct == Some("Mug")
  {
    var f := FilterRows(rows, c);
    match TopProduct(f)
    case Success(d) =>
      assert d in Descriptions(f);
    case Failure(_) =>
  }

  /** One bar per country, with that country's sales. */
  lemma MugBars()
    ensures |SalesByCountry(MugRows())| == 2
    ensures Entry("UK", 1000) in SalesByCountry(MugRows())
    ensures Entry("FR", 600) in SalesByCountry(MugRows())
  {
    var bars := SalesByCountry(MugRows());
    MugGroups();
    DistinctKeysCount(bars);
    assert |{"UK", "FR"}| == 2;
    KeysHaveEntries(bars, "UK");
    KeysHaveEntries(bars, "FR");
  }

  /** Full date range, no dropdown selected: 1600 cents of sales, 8 mugs,
      the mug on top, 1000 cents from the UK and 600 from France. */
  lemma WholeTable()
    ensures var v := ComputeView(MugRows(), Criteria(Day, Day, None, None));
      && v.filtered == MugRows()
      && v.totalSales == 1600 && v.totalQuantity == 8
      && v.topProduct == Some("Mug")
      && |v.salesByCountry| == 2
      && Entry("UK", 1000) in v.salesByCountry && Entry("FR", 600) in v.salesByCountry
  {
    var rows := MugRows();
    var c := Criteria(Day, Day, None, None);
    FullRangeKeepsEverything(rows, c);
    MugGroups();
    assert rows[1..] == [rows[1]] && rows[1..][1..] == [];
    assert SumSales(rows) == 1600 && SumQuantity(rows) == 8;
    OnlyMugOnTop(rows, c);
    MugBars();
  }

  /** France selected: the filter keeps the French row alone. */
  lemma FranceFiltered()
    ensures FilterRows(MugRows(), Criteria(Day, Day, Some("FR"), None)) == [MugRows()[1]]
    ensures Descriptions([MugRows()[1]]) == {"Mug"}
  {
    var rows := MugRows();
    var c := Criteria(Day, Day, Some("FR"), None);
    FranceRowKept();
    UkRowDropped();
    assert [rows[1]][0] in [rows[1]];
  }

  /** The French row passes the France filter. */
  lemma FranceRowKept()
    ensures FilterRows([MugRows()[1]], Criteria(Day, Day, Some("FR"), None)) == [MugRows()[1]]
  {
    var rows := MugRows();
    var c := Criteria(Day, Day, Some("FR"), None);
    FilterRowsStep(rows[1], [], c);
    assert [rows[1]] == [rows[1]] + [];
  }

  /** The UK row fails the France filter. */
  lemma UkRowDropped()
    ensures FilterRows(MugRows(), Criteria(Day, Day, Some("FR"), None)) ==
      FilterRows(MugRows()[1..], Criteria(Day, Day, Some("FR"), None))
  {
    var rows := MugRows();
    assert rows == [rows[0]] + rows[1..];
    OtherCountryDropped(rows[0], rows[1..], Criteria(Day, Day, Some("FR"), None));
  }

  /** France selected: only the French row remains, with 600 cents of
      sales, 3 mugs, and the mug on top. */
  lemma FranceOnly()
    ensures var v := ComputeView(MugRows(), Criteria(Day, Day, Some("FR"), None));
      && v.filtered == [MugRows()[1]]
      && v.totalSales == 600 && v.totalQuantity == 3
      && v.topProduct == Some("Mug")
  {
    var rows := MugRows();
    var c := Criteria(Day, Day, Some("FR"), None);
    FranceFiltered();
    OnlyMugOnTop(rows, c);
    assert RetainedSales(rows, c) == 600 && RetainedQuantity(rows, c) == 3 by {
      assert rows[1..] == [rows[1]] && rows[1..][1..] == [];
    }
  }

  /** A date range that excludes every row: the callback as written raises
      from `idxmax`, while the repaired view reports zero totals and no top
      product. */
  lemma EmptyRangeRaises()
    ensures UpdateGraphs(MugRows(), Criteria(Day + 1, Day + 2, None, None)) == Failure(Ranking.EmptyGrouping)
    ensures var v := ComputeView(MugRows(), Criteria(Day + 1, Day + 2, None, None));
      v.totalSales == 0 && v.totalQuantity == 0 && v.topProduct == None
  {
    var rows := MugRows();
    var c := Criteria(Day + 1, Day + 2, None, None);
    FilterRowsStep(rows[0], rows[1..], c);
    FilterRowsStep(rows[1], [], c);
    assert rows == [rows[0]] + ([rows[1]] + []);
  }
}
