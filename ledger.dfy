/**
 * The sales ledger (columns Date, Title, Quantity, PricePerUnit, Total). Rows
 * are only ever appended.
 */
module Ledger {
  import opened Cart

  /** The formatted date of a sale; the clock itself is outside the model. */
  type Timestamp = string

  datatype SaleRecord = SaleRecord(date: Timestamp, title: string, quantity: int, pricePerUnit: int, total: int)

  /** The row save_sale builds for one purchased cart line. */
  function SaleOf(line: CartLine, date: Timestamp): SaleRecord
  {
    SaleRecord(date, line.title, line.quantity, line.price, line.quantity * line.price)
  }

  /** The rows a checkout appends, one per cart line, in cart order. */
  function SalesFor(lines: seq<CartLine>, date: Timestamp): (r: seq<SaleRecord>)
    ensures |r| == |lines|
    ensures forall i :: 0 <= i < |lines| ==>
      && r[i].date == date
      && r[i].title == lines[i].title
      && r[i].quantity == lines[i].quantity
      && r[i].pricePerUnit == lines[i].price
      && r[i].total == r[i].quantity * r[i].pricePerUnit
  {
    if |lines| == 0 then []
    else SalesFor(lines[..|lines| - 1], date) + [SaleOf(lines[|lines| - 1], date)]
  }

  /** Appending the row for one more line extends the ledger by exactly the rows for the longer prefix. */
  lemma SalesForNext(ledger: seq<SaleRecord>, lines: seq<CartLine>, i: nat, date: Timestamp)
    requires i < |lines|
    ensures ledger + SalesFor(lines[..i + 1], date) == ledger + SalesFor(lines[..i], date) + [SaleOf(lines[i], date)]
  {
    assert lines[..i + 1][..i] == lines[..i];
  }

  /** Sum of the Total column, accumulated front to back. */
  function SumTotals(records: seq<SaleRecord>): int
  {
    if |records| == 0 then 0 else SumTotals(records[..|records| - 1]) + records[|records| - 1].total
  }

  /** The recorded sales of a checkout add up to the cart's total. */
  lemma {:induction false} SalesTotalMatchesCart(lines: seq<CartLine>, date: Timestamp)
    ensures SumTotals(SalesFor(lines, date)) == CartTotal(lines)
    decreases |lines|
  {
    if |lines| > 0 {
      var init := lines[..|lines| - 1];
      var records := SalesFor(lines, date);
      assert records[..|records| - 1] == SalesFor(init, date);
      SalesTotalMatchesCart(init, date);
    }
  }
}
