/**
 * The two phases of checkout as functions of the inventory and the cart:
 * validation, which looks at each cart line on its own and stops at the first
 * that fails, and the apply phase, which takes each line's quantity off the
 * stock of the first row carrying its title, in cart order.
 */
module Checkout {
  import opened Wrappers
  import opened Inventory
  import opened Cart

  /** Why validation stopped, in place of the failure message. */
  datatype Rejection = MissingBook(title: string) | ShortOfStock(title: string, available: int)

  /** The Stock cell of the first row carrying the title. */
  function StockOf(inv: seq<Book>, title: string): int
    requires HasTitle(inv, title)
  {
    inv[FindTitle(inv, title).value].stock
  }

  /** The check a single line passes: its title is present and its own quantity fits the stock. */
  predicate LinePasses(inv: seq<Book>, line: CartLine)
  {
    HasTitle(inv, line.title) && line.quantity <= StockOf(inv, line.title)
  }

  /** What validation reports for a line that does not pass. */
  function RejectionFor(inv: seq<Book>, line: CartLine): Rejection
  {
    if !HasTitle(inv, line.title) then MissingBook(line.title)
    else ShortOfStock(line.title, StockOf(inv, line.title))
  }

  /** The validation phase: the rejection of the first line that does not pass, if any. */
  function FirstRejection(inv: seq<Book>, lines: seq<CartLine>): (r: Option<Rejection>)
    ensures r.None? <==> forall i :: 0 <= i < |lines| ==> LinePasses(inv, lines[i])
    ensures r.Some? ==> exists k ::
      && 0 <= k < |lines|
      && (forall j :: 0 <= j < k ==> LinePasses(inv, lines[j]))
      && !LinePasses(inv, lines[k])
      && r.value == RejectionFor(inv, lines[k])
  {
    if |lines| == 0 then None
    else if !LinePasses(inv, lines[0]) then Some(RejectionFor(inv, lines[0]))
    else
      var r := FirstRejection(inv, lines[1..]);
      assert forall i :: 1 <= i < |lines| ==> lines[i] == lines[1..][i - 1];
      if r.Some? then
        var k :| && 0 <= k < |lines[1..]|
                 && (forall j :: 0 <= j < k ==> LinePasses(inv, lines[1..][j]))
                 && !LinePasses(inv, lines[1..][k])
                 && r.value == RejectionFor(inv, lines[1..][k]);
        assert forall j :: 0 <= j < k + 1 ==> LinePasses(inv, lines[j]);
        r
      else r
  }

  /** Validation reports the first failing line when every line before it passes. */
  lemma FirstRejectionAt(inv: seq<Book>, lines: seq<CartLine>, i: nat)
    requires i < |lines|
    requires forall j :: 0 <= j < i ==> LinePasses(inv, lines[j])
    requires !LinePasses(inv, lines[i])
    ensures FirstRejection(inv, lines) == Some(RejectionFor(inv, lines[i]))
  {
    var r := FirstRejection(inv, lines);
    var k :| && 0 <= k < |lines|
             && (forall j :: 0 <= j < k ==> LinePasses(inv, lines[j]))
             && !LinePasses(inv, lines[k])
             && r.value == RejectionFor(inv, lines[k]);
    assert k == i;
  }

  /** The Stock cell of row `k` decreased by `quantity`, every other cell as it was. */
  function TakeStock(inv: seq<Book>, k: nat, quantity: int): (r: seq<Book>)
    requires k < |inv|
  {
    inv[k := inv[k].(stock := inv[k].stock - quantity)]
  }

  /** One step of the apply phase: the first row carrying the title loses the line's quantity. */
  function ApplyLine(inv: seq<Book>, line: CartLine): (r: seq<Book>)
    ensures |r| == |inv|
  {
    match FindTitle(inv, line.title)
    case None => inv
    case Some(k) => TakeStock(inv, k, line.quantity)
  }

  /** For a title that has a row, the step writes the Stock cell of the first such row. */
  lemma ApplyLineWrites(inv: seq<Book>, line: CartLine)
    requires HasTitle(inv, line.title)
    ensures ApplyLine(inv, line) == TakeStock(inv, FindTitle(inv, line.title).value, line.quantity)
  {
  }

  /** The apply phase over the whole cart, in cart order. */
  function ApplyAll(inv: seq<Book>, lines: seq<CartLine>): (r: seq<Book>)
    ensures |r| == |inv|
    decreases |lines|
  {
    if |lines| == 0 then inv else ApplyAll(ApplyLine(inv, lines[0]), lines[1..])
  }

  /** The apply phase never changes a title, nor moves a row. */
  lemma {:induction false} ApplyAllKeepsTitles(inv: seq<Book>, lines: seq<CartLine>)
    ensures SameTitles(inv, ApplyAll(inv, lines))
    decreases |lines|
  {
    if |lines| > 0 {
      var next := ApplyLine(inv, lines[0]);
      assert SameTitles(inv, next);
      ApplyAllKeepsTitles(next, lines[1..]);
    }
  }

  /** Applying one more line after a prefix is one more step. */
  lemma {:induction false} ApplyAllSnoc(inv: seq<Book>, lines: seq<CartLine>, line: CartLine)
    ensures ApplyAll(inv, lines + [line]) == ApplyLine(ApplyAll(inv, lines), line)
    decreases |lines|
  {
    if |lines| == 0 {
      assert ([] + [line])[1..] == [];
    } else {
      assert (lines + [line])[1..] == lines[1..] + [line];
      ApplyAllSnoc(ApplyLine(inv, lines[0]), lines[1..], line);
    }
  }

  /**
   * One iteration of the apply phase: after any prefix of a validated cart,
   * the next line's title still has a row, and the next step applies that line.
   */
  lemma ApplyNext(inv: seq<Book>, lines: seq<CartLine>, i: nat)
    requires i < |lines| && LinePasses(inv, lines[i])
    ensures HasTitle(ApplyAll(inv, lines[..i]), lines[i].title)
    ensures ApplyAll(inv, lines[..i + 1]) == ApplyLine(ApplyAll(inv, lines[..i]), lines[i])
  {
    var prefix, line := lines[..i], lines[i];
    var cur := ApplyAll(inv, prefix);
    assert HasTitle(cur, line.title) by {
      ApplyAllKeepsTitles(inv, prefix);
      FindTitleReadsTitles(inv, cur, line.title);
    }
    assert lines[..i + 1] == prefix + [line];
    ApplyAllSnoc(inv, prefix, line);
  }

  /** The quantity the cart takes from row `i`: the lines whose title first matches that row. */
  function Demand(inv: seq<Book>, lines: seq<CartLine>, i: nat): int
    decreases |lines|
  {
    if |lines| == 0 then 0
    else (if FindTitle(inv, lines[0].title) == Some(i) then lines[0].quantity else 0)
         + Demand(inv, lines[1..], i)
  }

  lemma {:induction false} DemandReadsTitles(a: seq<Book>, b: seq<Book>, lines: seq<CartLine>, i: nat)
    requires SameTitles(a, b)
    ensures Demand(a, lines, i) == Demand(b, lines, i)
    decreases |lines|
  {
    if |lines| > 0 {
      FindTitleReadsTitles(a, b, lines[0].title);
      DemandReadsTitles(a, b, lines[1..], i);
    }
  }

  /**
   * The effect of the apply phase: every row keeps its title, author,
   * publisher and price, and its stock drops by exactly the cart's demand on it.
   */
  lemma {:induction false} ApplyAllEffect(inv: seq<Book>, lines: seq<CartLine>)
    ensures |ApplyAll(inv, lines)| == |inv|
    ensures forall i :: 0 <= i < |inv| ==>
      ApplyAll(inv, lines)[i] == inv[i].(stock := inv[i].stock - Demand(inv, lines, i))
    decreases |lines|
  {
    if |lines| > 0 {
      var next := ApplyLine(inv, lines[0]);
      assert SameTitles(inv, next);
      ApplyAllEffect(next, lines[1..]);
      forall i | 0 <= i < |inv|
        ensures ApplyAll(inv, lines)[i] == inv[i].(stock := inv[i].stock - Demand(inv, lines, i))
      {
        DemandReadsTitles(inv, next, lines[1..], i);
      }
    }
  }

  /** Sum of the quantities of the lines carrying `title`. */
  function QuantityFor(lines: seq<CartLine>, title: string): int
    decreases |lines|
  {
    if |lines| == 0 then 0
    else (if lines[0].title == title then lines[0].quantity else 0) + QuantityFor(lines[1..], title)
  }

  /** With unique titles, the demand on a row is the cart's total quantity of its title. */
  lemma {:induction false} DemandWithDistinctTitles(inv: seq<Book>, lines: seq<CartLine>, i: nat)
    requires DistinctTitles(inv) && i < |inv|
    ensures Demand(inv, lines, i) == QuantityFor(lines, inv[i].title)
    decreases |lines|
  {
    if |lines| > 0 {
      var t := lines[0].title;
      assert FindTitle(inv, t) == Some(i) <==> t == inv[i].title by {
        if t == inv[i].title {
          var k := FindTitle(inv, t).value;
          assert !(k < i) && !(i < k);
        }
      }
      DemandWithDistinctTitles(inv, lines[1..], i);
    }
  }

  /**
   * With unique titles, the apply phase takes from each row exactly the cart's
   * total quantity of its title and changes nothing else in the row.
   */
  lemma ApplyAllTakesQuantities(inv: seq<Book>, lines: seq<CartLine>)
    requires DistinctTitles(inv)
    ensures |ApplyAll(inv, lines)| == |inv|
    ensures forall i :: 0 <= i < |inv| ==>
      ApplyAll(inv, lines)[i] == inv[i].(stock := inv[i].stock - QuantityFor(lines, inv[i].title))
  {
    ApplyAllEffect(inv, lines);
    forall i | 0 <= i < |inv|
      ensures ApplyAll(inv, lines)[i] == inv[i].(stock := inv[i].stock - QuantityFor(lines, inv[i].title))
    {
      DemandWithDistinctTitles(inv, lines, i);
    }
  }

  /** A row whose title no cart line names comes through the apply phase as it was. */
  lemma {:induction false} UntouchedRowsUnchanged(inv: seq<Book>, lines: seq<CartLine>, i: nat)
    requires i < |inv|
    requires forall j :: 0 <= j < |lines| ==> lines[j].title != inv[i].title
    ensures ApplyAll(inv, lines)[i] == inv[i]
  {
    ApplyAllEffect(inv, lines);
    DemandNotNamed(inv, lines, i);
  }

  lemma {:induction false} DemandNotNamed(inv: seq<Book>, lines: seq<CartLine>, i: nat)
    requires i < |inv|
    requires forall j :: 0 <= j < |lines| ==> lines[j].title != inv[i].title
    ensures Demand(inv, lines, i) == 0
    decreases |lines|
  {
    if |lines| > 0 {
      assert lines[0].title != inv[i].title;
      DemandNotNamed(inv, lines[1..], i);
    }
  }

  /**
   * Validation looks at each line on its own: two lines for the same title
   * that each fit the stock pass even when together they exceed it, and the
   * apply phase then drives the stock below zero.
   */
  lemma DuplicateLinesOverdraw(inv: seq<Book>, k: nat, title: string, q1: int, q2: int, price: int)
    requires FindTitle(inv, title) == Some(k)
    requires q1 <= inv[k].stock && q2 <= inv[k].stock && q1 + q2 > inv[k].stock
    ensures FirstRejection(inv, [CartLine(title, q1, price), CartLine(title, q2, price)]).None?
    ensures ApplyAll(inv, [CartLine(title, q1, price), CartLine(title, q2, price)])[k].stock == inv[k].stock - q1 - q2 < 0
  {
    var lines := [CartLine(title, q1, price), CartLine(title, q2, price)];
    ApplyAllEffect(inv, lines);
    assert lines[1..] == [CartLine(title, q2, price)] && lines[1..][1..] == [];
    assert Demand(inv, lines[1..], k) == q2;
    assert Demand(inv, lines, k) == q1 + q2;
  }
}
