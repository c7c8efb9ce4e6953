/**
 * The author list offered by the admin panel: the distinct, non-missing
 * Author cells of the inventory, in ascending order. Strings are compared as
 * the original's `sorted` compares them, lexicographically by code point.
 */
module Authors {
  import opened Inventory

  /** Lexicographic order on strings by code point; a proper prefix comes first. */
  predicate Before(a: string, b: string)
    decreases |a|
  {
    if |a| == 0 then |b| > 0
    else if |b| == 0 then false
    else if a[0] != b[0] then a[0] < b[0]
    else Before(a[1..], b[1..])
  }

  lemma {:induction false} BeforeAsymmetric(a: string, b: string)
    requires Before(a, b)
    ensures !Before(b, a)
    decreases |a|
  {
    if |a| > 0 && |b| > 0 && a[0] == b[0] {
      BeforeAsymmetric(a[1..], b[1..]);
    }
  }

  lemma {:induction false} BeforeTransitive(a: string, b: string, c: string)
    requires Before(a, b) && Before(b, c)
    ensures Before(a, c)
    decreases |a|
  {
    if |a| > 0 && a[0] == b[0] && b[0] == c[0] {
      BeforeTransitive(a[1..], b[1..], c[1..]);
    }
  }

  lemma {:induction false} BeforeTotal(a: string, b: string)
    requires a != b
    ensures Before(a, b) || Before(b, a)
    decreases |a|
  {
    if |a| > 0 && |b| > 0 && a[0] == b[0] {
      assert a == [a[0]] + a[1..] && b == [b[0]] + b[1..];
      BeforeTotal(a[1..], b[1..]);
    }
  }

  /** Ascending with no repeats. */
  predicate StrictlySorted(s: seq<string>)
  {
    forall i, j :: 0 <= i < j < |s| ==> Before(s[i], s[j])
  }

  /** Places `x` into an ascending list unless it is already there. */
  function Insert(s: seq<string>, x: string): (r: seq<string>)
    requires StrictlySorted(s)
    ensures StrictlySorted(r)
    ensures forall y :: y in r <==> y in s || y == x
  {
    if |s| == 0 then [x]
    else if x == s[0] then s
    else if Before(x, s[0]) then
      assert forall j :: 0 <= j < |s| ==> Before(x, s[j]) by {
        forall j | 0 < j < |s| ensures Before(x, s[j]) {
          BeforeTransitive(x, s[0], s[j]);
        }
      }
      [x] + s
    else
      BeforeTotal(x, s[0]);
      var tail := Insert(s[1..], x);
      assert forall y :: y in tail ==> Before(s[0], y);
      assert forall y :: y in s <==> y == s[0] || y in s[1..] by {
        assert s == [s[0]] + s[1..];
      }
      [s[0]] + tail
  }

  /** Some row of the table has this Author cell. */
  predicate HasAuthor(inv: seq<Book>, author: string)
  {
    exists i :: 0 <= i < |inv| && inv[i].author == author
  }

  /** get_unique_authors: the distinct non-missing authors, sorted. */
  function UniqueAuthors(inv: seq<Book>): (r: seq<string>)
    ensures StrictlySorted(r)
    ensures forall a :: a in r <==> a != "" && HasAuthor(inv, a)
  {
    if |inv| == 0 then []
    else
      var rest := UniqueAuthors(inv[1..]);
      assert forall a :: HasAuthor(inv, a) <==> inv[0].author == a || HasAuthor(inv[1..], a) by {
        forall a | HasAuthor(inv, a) ensures inv[0].author == a || HasAuthor(inv[1..], a) {
          var i :| 0 <= i < |inv| && inv[i].author == a;
          if i > 0 { assert inv[1..][i - 1].author == a; }
        }
        forall a | HasAuthor(inv[1..], a) ensures HasAuthor(inv, a) {
          var i :| 0 <= i < |inv[1..]| && inv[1..][i].author == a;
          assert inv[i + 1].author == a;
        }
      }
      if inv[0].author == "" then rest else Insert(rest, inv[0].author)
  }

  /** A strictly ascending list has no duplicates. */
  lemma StrictlySortedIsDuplicateFree(s: seq<string>)
    requires StrictlySorted(s)
    ensures forall i, j :: 0 <= i < j < |s| ==> s[i] != s[j]
  {
    forall i, j | 0 <= i < j < |s| ensures s[i] != s[j] {
      if s[i] == s[j] {
        BeforeAsymmetric(s[i], s[j]);
      }
    }
  }

  /**
   * There is only one strictly ascending listing of a set of strings, so the
   * author list is fixed by the set of authors alone.
   */
  lemma {:induction false} SortedListingIsUnique(s: seq<string>, t: seq<string>)
    requires StrictlySorted(s) && StrictlySorted(t)
    requires forall x :: x in s <==> x in t
    ensures s == t
  {
    assert |s| == 0 <==> |t| == 0 by {
      if |s| > 0 { assert s[0] in t; }
      if |t| > 0 { assert t[0] in s; }
    }
    if |s| > 0 {
      if s[0] != t[0] {
        assert s[0] in t && t[0] in s;
        var k :| 0 <= k < |t| && t[k] == s[0];
        var m :| 0 <= m < |s| && s[m] == t[0];
        BeforeAsymmetric(s[0], t[0]);
      }
      StrictlySortedIsDuplicateFree(s);
      StrictlySortedIsDuplicateFree(t);
      forall x ensures x in s[1..] <==> x in t[1..] {
        if x in s[1..] {
          var i :| 0 <= i < |s[1..]| && s[1..][i] == x;
          assert s[i + 1] == x && x in t;
          var j :| 0 <= j < |t| && t[j] == x;
          assert j != 0;
          assert t[1..][j - 1] == x;
        }
        if x in t[1..] {
          var i :| 0 <= i < |t[1..]| && t[1..][i] == x;
          assert t[i + 1] == x && x in s;
          var j :| 0 <= j < |s| && s[j] == x;
          assert j != 0;
          assert s[1..][j - 1] == x;
        }
      }
      SortedListingIsUnique(s[1..], t[1..]);
      assert s == [s[0]] + s[1..] && t == [t[0]] + t[1..];
    }
  }
}
