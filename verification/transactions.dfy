/** The transaction table the dashboard reads: one row per retail line item. */
module Transactions {
  import opened Wrappers

  /** One line item. `invoiceDate` is an already-parsed timestamp and
      `unitPrice` is in integer cents, so every sum below is exact.
      `description` is None where the spreadsheet cell is empty. */
  datatype Row = Row(
    invoiceDate: int,
    country: string,
    description: Option<string>,
    quantity: int,
    unitPrice: int)

  /** The derived TotalSales column: quantity times unit price. */
  function TotalSales(r: Row): int
  {
    r.quantity * r.unitPrice
  }

  /** Sum of the TotalSales column; 0 for no rows. */
  function SumSales(rows: seq<Row>): int
  {
    if rows == [] then 0 else TotalSales(rows[0]) + SumSales(rows[1..])
  }

  /** Sum of the Quantity column; 0 for no rows. Returns make it smaller. */
  function SumQuantity(rows: seq<Row>): int
  {
    if rows == [] then 0 else rows[0].quantity + SumQuantity(rows[1..])
  }

  /** Both column sums split over a concatenation of tables: summing the
      whole column equals summing each part and adding the results. */
  lemma {:induction false} SumsOfConcatenation(a: seq<Row>, b: seq<Row>)
    ensures SumSales(a + b) == SumSales(a) + SumSales(b)
    ensures SumQuantity(a + b) == SumQuantity(a) + SumQuantity(b)
  {
    if a != [] {
      assert (a + b)[1..] == a[1..] + b;
      SumsOfConcatenation(a[1..], b);
    } else {
      assert a + b == b;
    }
  }
}
