/**
 * Cart lines and their totals. A line snapshots the book's price when it is
 * added; prices are integer amounts in the smallest currency unit.
 */
module Cart {

  datatype CartLine = CartLine(title: string, quantity: int, price: int)

  function LineTotal(line: CartLine): int
  {
    line.quantity * line.price
  }

  /** Sum of quantity times price over the lines, accumulated front to back. */
  function CartTotal(lines: seq<CartLine>): int
  {
    if |lines| == 0 then 0 else CartTotal(lines[..|lines| - 1]) + LineTotal(lines[|lines| - 1])
  }

  /** The total over one more line is the total so far plus that line's amount. */
  lemma CartTotalNext(lines: seq<CartLine>, i: nat)
    requires i < |lines|
    ensures CartTotal(lines[..i + 1]) == CartTotal(lines[..i]) + LineTotal(lines[i])
  {
    assert lines[..i + 1][..i] == lines[..i];
  }

  /** One line of the cart listing: quantity, title, unit price, line amount. */
  datatype SummaryLine = SummaryLine(quantity: int, title: string, price: int, amount: int)

  /** The cart listing: a distinguished empty result, or the lines and the grand total. */
  datatype Summary = Empty | Listing(lines: seq<SummaryLine>, total: int)

  function SummaryOf(line: CartLine): SummaryLine
  {
    SummaryLine(line.quantity, line.title, line.price, LineTotal(line))
  }
}
