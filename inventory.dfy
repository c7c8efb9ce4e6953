/**
 * The inventory table (columns Title, Author, Publisher, Stock, Price) and the
 * administrative operations that rebuild it: add a book, edit a book's stock
 * and price, remove a book.
 *
 * Prices are integer amounts in the smallest currency unit. An Author cell
 * that is the empty string stands for a missing cell: the table is written to
 * and read back from a CSV file on every operation, and an empty cell comes
 * back as a missing value.
 */
module Inventory {
  import opened Wrappers

  datatype Book = Book(title: string, author: string, publisher: string, stock: int, price: int)

  /** Outcome of an administrative operation, in place of its status message. */
  datatype Status = BookAdded | BookUpdated | BookRemoved | DuplicateTitle | UnknownTitle

  /** Some row of the table carries this title. */
  predicate HasTitle(inv: seq<Book>, title: string)
  {
    exists i :: 0 <= i < |inv| && inv[i].title == title
  }

  /** No two rows of the table carry the same title. */
  predicate DistinctTitles(inv: seq<Book>)
  {
    forall i, j :: 0 <= i < j < |inv| ==> inv[i].title != inv[j].title
  }

  /** Two tables with the same titles in the same rows. */
  predicate SameTitles(a: seq<Book>, b: seq<Book>)
  {
    |a| == |b| && forall i :: 0 <= i < |a| ==> a[i].title == b[i].title
  }

  /** The position of the first row carrying `title`, if any. */
  function FindTitle(inv: seq<Book>, title: string): (r: Option<nat>)
    ensures r.None? <==> !HasTitle(inv, title)
    ensures r.Some? ==> r.value < |inv| && inv[r.value].title == title
    ensures r.Some? ==> forall j :: 0 <= j < r.value ==> inv[j].title != title
  {
    if |inv| == 0 then None
    else if inv[0].title == title then Some(0)
    else
      match FindTitle(inv[1..], title)
      case None =>
        assert forall j :: 1 <= j < |inv| ==> inv[j] == inv[1..][j - 1];
        None
      case Some(k) => Some(k + 1)
  }

  /** The first matching row is determined by the Title column alone. */
  lemma {:induction false} FindTitleReadsTitles(a: seq<Book>, b: seq<Book>, title: string)
    requires SameTitles(a, b)
    ensures FindTitle(a, title) == FindTitle(b, title)
    decreases |a|
  {
    if |a| > 0 && a[0].title != title {
      assert SameTitles(a[1..], b[1..]) by {
        forall i | 0 <= i < |a| - 1 ensures a[1..][i].title == b[1..][i].title {
          assert a[i + 1].title == b[i + 1].title;
        }
      }
      FindTitleReadsTitles(a[1..], b[1..], title);
    }
  }

  /** The author the form selects: the typed-in name exactly when "Other" is chosen. */
  function ChosenAuthor(authorSelect: string, authorInput: string): string
  {
    if authorSelect == "Other" then authorInput else authorSelect
  }

  /** add_book: refuses an existing title, otherwise appends one row at the end. */
  function AddBook(inv: seq<Book>, title: string, authorSelect: string, authorInput: string,
                   publisher: string, stock: int, price: int): (r: (Status, seq<Book>))
    ensures HasTitle(inv, title) ==> r.0 == DuplicateTitle && r.1 == inv
    ensures !HasTitle(inv, title) ==>
      && r.0 == BookAdded
      && |r.1| == |inv| + 1
      && r.1[..|inv|] == inv
      && r.1[|inv|].title == title
      && r.1[|inv|].publisher == publisher
      && r.1[|inv|].stock == stock
      && r.1[|inv|].price == price
      && (authorSelect == "Other" ==> r.1[|inv|].author == authorInput)
      && (authorSelect != "Other" ==> r.1[|inv|].author == authorSelect)
  {
    if HasTitle(inv, title) then (DuplicateTitle, inv)
    else (BookAdded, inv + [Book(title, ChosenAuthor(authorSelect, authorInput), publisher, stock, price)])
  }

  /**
   * edit_book: an unknown title changes nothing; otherwise only the first
   * matching row changes, and a negative value leaves its field as it was.
   */
  function EditBook(inv: seq<Book>, title: string, newStock: int, newPrice: int): (r: (Status, seq<Book>))
    ensures !HasTitle(inv, title) ==> r.0 == UnknownTitle && r.1 == inv
    ensures HasTitle(inv, title) ==>
      var i := FindTitle(inv, title).value;
      && r.0 == BookUpdated
      && |r.1| == |inv|
      && (forall j :: 0 <= j < |inv| && j != i ==> r.1[j] == inv[j])
      && r.1[i].title == inv[i].title
      && r.1[i].author == inv[i].author
      && r.1[i].publisher == inv[i].publisher
      && (newStock >= 0 ==> r.1[i].stock == newStock)
      && (newStock < 0 ==> r.1[i].stock == inv[i].stock)
      && (newPrice >= 0 ==> r.1[i].price == newPrice)
      && (newPrice < 0 ==> r.1[i].price == inv[i].price)
  {
    match FindTitle(inv, title)
    case None => (UnknownTitle, inv)
    case Some(i) =>
      var stock := if newStock >= 0 then newStock else inv[i].stock;
      var price := if newPrice >= 0 then newPrice else inv[i].price;
      (BookUpdated, inv[i := inv[i].(stock := stock, price := price)])
  }

  /** The rows whose title differs from `title`, in table order. */
  function Without(inv: seq<Book>, title: string): (r: seq<Book>)
    ensures forall b :: b in r <==> b in inv && b.title != title
    ensures |r| <= |inv|
  {
    if |inv| == 0 then []
    else
      assert forall b :: b in inv <==> b == inv[0] || b in inv[1..];
      (if inv[0].title == title then [] else [inv[0]]) + Without(inv[1..], title)
  }

  /** Filtering distributes over concatenation, so the kept rows stay in order. */
  lemma {:induction false} WithoutKeepsOrder(a: seq<Book>, b: seq<Book>, title: string)
    ensures Without(a + b, title) == Without(a, title) + Without(b, title)
  {
    if |a| == 0 {
      assert a + b == b;
    } else {
      assert (a + b)[1..] == a[1..] + b;
      WithoutKeepsOrder(a[1..], b, title);
    }
  }

  /** remove_book: an unknown title changes nothing; otherwise every row with it goes. */
  function RemoveBook(inv: seq<Book>, title: string): (r: (Status, seq<Book>))
    ensures !HasTitle(inv, title) ==> r.0 == UnknownTitle && r.1 == inv
    ensures HasTitle(inv, title) ==>
      && r.0 == BookRemoved
      && r.1 == Without(inv, title)
      && !HasTitle(r.1, title)
      && |r.1| < |inv|
  {
    if !HasTitle(inv, title) then (UnknownTitle, inv)
    else
      WithoutShrinks(inv, title);
      (BookRemoved, Without(inv, title))
  }

  /** A table without the title passes the filter unchanged. */
  lemma {:induction false} WithoutAbsent(inv: seq<Book>, title: string)
    requires !HasTitle(inv, title)
    ensures Without(inv, title) == inv
  {
    if |inv| > 0 {
      assert !HasTitle(inv[1..], title) by {
        forall j | 0 <= j < |inv| - 1 ensures inv[1..][j].title != title {
          assert inv[1..][j] == inv[j + 1];
        }
      }
      WithoutAbsent(inv[1..], title);
    }
  }

  /** A table with the title loses at least that row to the filter. */
  lemma {:induction false} WithoutShrinks(inv: seq<Book>, title: string)
    requires HasTitle(inv, title)
    ensures |Without(inv, title)| < |inv|
  {
    if inv[0].title != title {
      var i :| 0 <= i < |inv| && inv[i].title == title;
      assert inv[1..][i - 1].title == title;
      WithoutShrinks(inv[1..], title);
    } else {
      assert |Without(inv[1..], title)| <= |inv[1..]|;
    }
  }

  lemma AddBookKeepsTitlesDistinct(inv: seq<Book>, title: string, authorSelect: string,
                                   authorInput: string, publisher: string, stock: int, price: int)
    requires DistinctTitles(inv)
    ensures DistinctTitles(AddBook(inv, title, authorSelect, authorInput, publisher, stock, price).1)
  {
    var r := AddBook(inv, title, authorSelect, authorInput, publisher, stock, price).1;
    if !HasTitle(inv, title) {
      forall i, j | 0 <= i < j < |r| ensures r[i].title != r[j].title {
        if j == |inv| {
          assert r[i] == inv[i];
        } else {
          assert r[i] == inv[i] && r[j] == inv[j];
        }
      }
    }
  }

  lemma EditBookKeepsTitles(inv: seq<Book>, title: string, newStock: int, newPrice: int)
    ensures SameTitles(inv, EditBook(inv, title, newStock, newPrice).1)
  {
  }

  /** Dropping the first row keeps titles distinct, and the rest never repeat its title. */
  lemma DistinctTail(inv: seq<Book>)
    requires |inv| > 0 && DistinctTitles(inv)
    ensures DistinctTitles(inv[1..])
    ensures forall b :: b in inv[1..] ==> b.title != inv[0].title
  {
    var rest := inv[1..];
    forall i, j | 0 <= i < j < |rest| ensures rest[i].title != rest[j].title {
      assert rest[i] == inv[i + 1] && rest[j] == inv[j + 1];
    }
    forall b | b in rest ensures b.title != inv[0].title {
      var k :| 0 <= k < |rest| && rest[k] == b;
      assert rest[k] == inv[k + 1];
    }
  }

  /** A row whose title is new to a table with distinct titles may be put in front of it. */
  lemma DistinctCons(b: Book, tail: seq<Book>)
    requires DistinctTitles(tail)
    requires forall x :: x in tail ==> x.title != b.title
    ensures DistinctTitles([b] + tail)
  {
    var r := [b] + tail;
    forall i, j | 0 <= i < j < |r| ensures r[i].title != r[j].title {
      assert r[j] == tail[j - 1];
      if i > 0 {
        assert r[i] == tail[i - 1];
      }
    }
  }

  lemma {:induction false} WithoutKeepsTitlesDistinct(inv: seq<Book>, title: string)
    requires DistinctTitles(inv)
    ensures DistinctTitles(Without(inv, title))
  {
    if |inv| > 0 {
      DistinctTail(inv);
      WithoutKeepsTitlesDistinct(inv[1..], title);
      if inv[0].title != title {
        DistinctCons(inv[0], Without(inv[1..], title));
      }
    }
  }

  /** One administrative request, as the admin panel issues it. */
  datatype AdminOp =
    | Add(title: string, authorSelect: string, authorInput: string, publisher: string, stock: int, price: int)
    | Edit(title: string, newStock: int, newPrice: int)
    | Remove(title: string)

  function ApplyAdminOp(inv: seq<Book>, op: AdminOp): seq<Book>
  {
    match op
    case Add(t, s, a, p, n, c) => AddBook(inv, t, s, a, p, n, c).1
    case Edit(t, n, c) => EditBook(inv, t, n, c).1
    case Remove(t) => RemoveBook(inv, t).1
  }

  /** The table after a sequence of administrative requests, in order. */
  function ApplyAdmin(inv: seq<Book>, ops: seq<AdminOp>): seq<Book>
    decreases |ops|
  {
    if |ops| == 0 then inv else ApplyAdmin(ApplyAdminOp(inv, ops[0]), ops[1..])
  }

  /** Title uniqueness survives any sequence of add, edit and remove requests. */
  lemma {:induction false} AdminKeepsTitlesDistinct(inv: seq<Book>, ops: seq<AdminOp>)
    requires DistinctTitles(inv)
    ensures DistinctTitles(ApplyAdmin(inv, ops))
    decreases |ops|
  {
    if |ops| > 0 {
      match ops[0] {
        case Add(t, s, a, p, n, c) => AddBookKeepsTitlesDistinct(inv, t, s, a, p, n, c);
        case Edit(t, n, c) => EditBookKeepsTitles(inv, t, n, c);
        case Remove(t) => WithoutKeepsTitlesDistinct(inv, t);
      }
      AdminKeepsTitlesDistinct(ApplyAdminOp(inv, ops[0]), ops[1..]);
    }
  }
}
