/**
 * The bookstore's state: the inventory table, the sales ledger and the
 * process-wide cart, with the operations the user interface invokes. The two
 * tables are held in memory in place of the CSV files they are loaded from and
 * saved to around every operation.
 */
module Bookstore {
  import opened Wrappers
  import opened Inventory
  import opened Cart
  import opened Ledger
  import opened Checkout

  /** Outcome of adding to the cart, in place of its status message. */
  datatype CartStatus = AddedToCart | NoSuchBook | InvalidQuantity

  /** Outcome of checkout, in place of its status message. */
  datatype CheckoutResult = CartEmpty | Rejected(why: Rejection) | Purchased(total: int)

  class Store {
    var inventory: seq<Book>
    var sales: seq<SaleRecord>
    var cart: seq<CartLine>

    /** Lines enter the cart only through AddToCart, which refuses a quantity below one. */
    ghost predicate Valid()
      reads this
    {
      forall i :: 0 <= i < |cart| ==> cart[i].quantity > 0
    }

    /** Process start: the tables as loaded, and an empty cart. */
    constructor (inventory: seq<Book>, sales: seq<SaleRecord>)
      ensures Valid()
      ensures this.inventory == inventory && this.sales == sales && cart == []
    {
      this.inventory := inventory;
      this.sales := sales;
      cart := [];
    }

    /**
     * add_to_cart: the title is looked up before the quantity is checked;
     * either failure leaves the cart as it was. On success one line is
     * appended, carrying the price of the first matching row at this moment.
     */
    method AddToCart(title: string, quantity: int) returns (status: CartStatus)
      requires Valid()
      modifies this`cart
      ensures Valid()
      ensures !HasTitle(inventory, title) ==> status == NoSuchBook && cart == old(cart)
      ensures HasTitle(inventory, title) && quantity <= 0 ==> status == InvalidQuantity && cart == old(cart)
      ensures HasTitle(inventory, title) && quantity > 0 ==>
        && status == AddedToCart
        && cart == old(cart) + [CartLine(title, quantity, inventory[FindTitle(inventory, title).value].price)]
    {
      if !HasTitle(inventory, title) {
        return NoSuchBook;
      }
      if quantity <= 0 {
        return InvalidQuantity;
      }
      var row := FindTitle(inventory, title).value;
      cart := cart + [CartLine(title, quantity, inventory[row].price)];
      status := AddedToCart;
    }

    /** display_cart: one listing line per cart line and the running total, or Empty. */
    method DisplayCart() returns (summary: Summary)
      ensures summary == Empty <==> cart == []
      ensures summary.Listing? ==>
        && |summary.lines| == |cart|
        && (forall i :: 0 <= i < |cart| ==> summary.lines[i] == SummaryOf(cart[i]))
        && summary.total == CartTotal(cart)
    {
      if |cart| == 0 {
        return Empty;
      }
      var lines: seq<SummaryLine> := [];
      var total := 0;
      for i := 0 to |cart|
        invariant |lines| == i
        invariant forall j :: 0 <= j < i ==> lines[j] == SummaryOf(cart[j])
        invariant total == CartTotal(cart[..i])
      {
        var item := cart[i];
        lines := lines + [SummaryOf(item)];
        total := total + item.quantity * item.price;
        assert cart[..i + 1][..i] == cart[..i];
      }
      assert cart[..|cart|] == cart;
      summary := Listing(lines, total);
    }

    /**
     * checkout. An empty cart changes nothing. Otherwise each line is checked
     * on its own against the stock as it was before checkout; the first line
     * that fails is reported and nothing changes. When every line passes, the
     * lines are applied in cart order: the stock of the first matching row
     * drops by the line's quantity and one sale record is appended per line.
     * The cart is NOT emptied: the original's final clearing step names an
     * undefined variable and raises after the tables have been updated.
     */
    method Checkout(now: Timestamp) returns (result: CheckoutResult)
      requires Valid()
      modifies this`inventory, this`sales
      ensures Valid()
      ensures cart == old(cart)
      ensures cart == [] ==> result == CartEmpty && inventory == old(inventory) && sales == old(sales)
      ensures cart != [] && FirstRejection(old(inventory), cart).Some? ==>
        && result == Rejected(FirstRejection(old(inventory), cart).value)
        && inventory == old(inventory)
        && sales == old(sales)
      ensures cart != [] && FirstRejection(old(inventory), cart).None? ==>
        && result == Purchased(CartTotal(cart))
        && inventory == ApplyAll(old(inventory), cart)
        && sales == old(sales) + SalesFor(cart, now)
    {
      if |cart| == 0 {
        return CartEmpty;
      }
      var rejection := Validate();
      if rejection.Some? {
        return Rejected(rejection.value);
      }
      var total := Apply(now);
      result := Purchased(total);
    }

    /** The validation phase of checkout: reads only, and stops at the first failing line. */
    method Validate() returns (rejection: Option<Rejection>)
      ensures rejection == FirstRejection(inventory, cart)
    {
      var i := 0;
      while i < |cart|
        invariant 0 <= i <= |cart|
        invariant forall j :: 0 <= j < i ==> LinePasses(inventory, cart[j])
      {
        var item := cart[i];
        var row := FindTitle(inventory, item.title);
        if row.None? {
          FirstRejectionAt(inventory, cart, i);
          return Some(MissingBook(item.title));
        }
        var stock := inventory[row.value].stock;
        if item.quantity > stock {
          FirstRejectionAt(inventory, cart, i);
          return Some(ShortOfStock(item.title, stock));
        }
        i := i + 1;
      }
      rejection := None;
    }

    /**
     * The apply phase of checkout, reached only when every line passed:
     * in cart order, the first matching row loses the line's quantity, one
     * sale record is appended, and the total accumulates.
     */
    method Apply(now: Timestamp) returns (total: int)
      requires forall j :: 0 <= j < |cart| ==> LinePasses(inventory, cart[j])
      modifies this`inventory, this`sales
      ensures inventory == ApplyAll(old(inventory), cart)
      ensures sales == old(sales) + SalesFor(cart, now)
      ensures total == CartTotal(cart)
    {
      var table, ledger, lines := inventory, sales, cart;
      ghost var inv0, sales0 := inventory, sales;
      total := 0;
      for i := 0 to |lines|
        modifies {}
        invariant table == ApplyAll(inv0, lines[..i])
        invariant ledger == sales0 + SalesFor(lines[..i], now)
        invariant total == CartTotal(lines[..i])
      {
        var item := lines[i];
        assert LinePasses(inv0, item);
        ApplyNext(inv0, lines, i);
        ApplyLineWrites(table, item);
        var row := FindTitle(table, item.title).value;
        table := TakeStock(table, row, item.quantity);
        SalesForNext(sales0, lines, i, now);
        ledger := ledger + [SaleOf(item, now)];
        total := total + item.quantity * item.price;
        CartTotalNext(lines, i);
      }
      assert lines[..|lines|] == lines;
      inventory, sales := table, ledger;
    }

    /** add_book, rebuilding the table. */
    method AddBook(title: string, authorSelect: string, authorInput: string,
                   publisher: string, stock: int, price: int) returns (status: Status)
      modifies this`inventory
      ensures (status, inventory) == Inventory.AddBook(old(inventory), title, authorSelect, authorInput, publisher, stock, price)
    {
      var r := Inventory.AddBook(inventory, title, authorSelect, authorInput, publisher, stock, price);
      status, inventory := r.0, r.1;
    }

    /** edit_book, writing the Stock and Price cells of the first matching row in place. */
    method EditBook(title: string, newStock: int, newPrice: int) returns (status: Status)
      modifies this`inventory
      ensures (status, inventory) == Inventory.EditBook(old(inventory), title, newStock, newPrice)
    {
      var row := FindTitle(inventory, title);
      if row.None? {
        return UnknownTitle;
      }
      var k := row.value;
      ghost var before := inventory;
      if newStock >= 0 {
        inventory := inventory[k := inventory[k].(stock := newStock)];
      }
      if newPrice >= 0 {
        inventory := inventory[k := inventory[k].(price := newPrice)];
      }
      status := BookUpdated;
      assert inventory == before[k := before[k].(stock := inventory[k].stock, price := inventory[k].price)];
    }

    /** remove_book, rebuilding the table without the title's rows. */
    method RemoveBook(title: string) returns (status: Status)
      modifies this`inventory
      ensures (status, inventory) == Inventory.RemoveBook(old(inventory), title)
    {
      var r := Inventory.RemoveBook(inventory, title);
      status, inventory := r.0, r.1;
    }
  }

  /** Adding a title twice is refused; a negative stock in an edit keeps the old stock. */
  method AdminScenario()
  {
    var store := new Store([], []);
    var added := store.AddBook("Dune", "Other", "Herbert", "Ace", 5, 49900);
    assert added == BookAdded;
    assert store.inventory == [Book("Dune", "Herbert", "Ace", 5, 49900)];
    added := store.AddBook("Dune", "Herbert", "", "Ace", 5, 49900);
    assert added == DuplicateTitle;
    var edited := store.EditBook("Dune", -1, 55000);
    assert edited == BookUpdated;
    assert store.inventory == [Book("Dune", "Herbert", "Ace", 5, 55000)];
  }

  /**
   * Two lines of 3 and 4 copies against a stock of 5 each pass validation and
   * leave the stock at -2; the cart is still full afterwards, so the next
   * checkout validates it again, and now the first line is short of stock.
   */
  method OverdrawScenario()
  {
    var dune := Book("Dune", "Herbert", "Ace", 5, 55000);
    var store := new Store([dune], []);
    assert HasTitle(store.inventory, "Dune") by { assert store.inventory[0].title == "Dune"; }
    var c := store.AddToCart("Dune", 0);
    assert c == InvalidQuantity && store.cart == [];
    c := store.AddToCart("Dune", 3);
    c := store.AddToCart("Dune", 4);
    var lines := [CartLine("Dune", 3, 55000), CartLine("Dune", 4, 55000)];
    assert store.cart == lines;
    DuplicateLinesOverdraw([dune], 0, "Dune", 3, 4, 55000);
    assert lines[..1] == [lines[0]];
    assert CartTotal(lines) == 7 * 55000;

    var r := store.Checkout("2025-01-01 10:00:00");
    assert r == Purchased(7 * 55000);
    assert store.inventory[0].stock == -2;
    assert |store.sales| == 2 && store.cart == lines;

    FirstRejectionAt(store.inventory, lines, 0);
    r := store.Checkout("2025-01-01 10:05:00");
    assert r == Rejected(ShortOfStock("Dune", -2));
    assert |store.sales| == 2;
  }
}
