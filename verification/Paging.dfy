/** Pages: deriving the next cursor, cutting a page down to size, and reading a list page by page. */
module Paging {
  import opened Wrappers
  import opened DecimalText

  const DEFAULT_MAX_BYTES := 16384

  datatype Page<T> = Page(items: seq<T>, nextCursor: Option<string>, truncated: bool, note: string)

  function NewPage<T>(items: seq<T>, more: bool, cursorOf: Option<T -> string>): Page<T> {
    Page(items, if more && cursorOf.Some? && items != [] then Some(cursorOf.value(items[|items| - 1])) else None, false, "")
  }

  function Note(dropped: nat, total: nat, maxBytes: nat, resumable: bool): string {
    Print(dropped) + " of " + Print(total) + " items omitted to stay under " + Print(maxBytes) + " bytes"
    + (if resumable then "; pass the cursor to continue" else "; narrow the query to see the rest")
  }

  // ---------------------------------------------------------------- cutting a page

  /** The encoded size of a list; None when it cannot be encoded. */
  type Size<!T> = seq<T> -> Option<nat>

  function Budget(maxBytes: int): nat {
    if maxBytes <= 0 then DEFAULT_MAX_BYTES else maxBytes
  }

  predicate Fits<T>(size: Size<T>, items: seq<T>, max: nat) {
    size(items).Some? && size(items).value <= max
  }

  /** m is one of n, n/2, n/4, ... 0. */
  predicate InChain(n: nat, m: nat) {
    m == n || (n > 0 && InChain(n / 2, m))
  }

  lemma {:induction false} ChainShrinks(n: nat, m: nat)
    requires InChain(n, m)
    ensures m <= n
  {
    if m != n {
      ChainShrinks(n / 2, m);
    }
  }

  /** How many leading items Cap keeps; None when it meets a prefix that cannot be encoded. */
  function Kept<T>(items: seq<T>, max: nat, size: Size<T>): (n: Option<nat>)
    ensures n.Some? ==> n.value <= |items|
    decreases |items|
  {
    if items == [] then Some(0)
    else if size(items).None? then None
    else if size(items).value <= max then Some(|items|)
    else Kept(items[..|items| / 2], max, size)
  }

  function CapPage<T>(items: seq<T>, maxBytes: int, size: Size<T>, cursorOf: Option<T -> string>): Page<T> {
    match Kept(items, Budget(maxBytes), size)
    case None => NewPage(items, false, None)
    case Some(n) =>
      var dropped := |items| - n;
      var page := NewPage(items[..n], dropped > 0, cursorOf);
      if dropped == 0 then page
      else page.(truncated := true, note := Note(dropped, |items|, Budget(maxBytes), page.nextCursor.Some?))
  }

  method Cap<T>(items: seq<T>, maxBytes: int, size: Size<T>, cursorOf: Option<T -> string>) returns (page: Page<T>)
    ensures page == CapPage(items, maxBytes, size, cursorOf)
  {
    var max := Budget(maxBytes);
    var kept := items;
    while |kept| > 0
      invariant |kept| <= |items| && kept == items[..|kept|]
      invariant Kept(kept, max, size) == Kept(items, max, size)
      decreases |kept|
    {
      var encoded := size(kept);
      if encoded.None? {
        return NewPage(items, false, None);
      }
      if encoded.value <= max {
        break;
      }
      assert kept[..|kept| / 2] == items[..|kept| / 2];
      kept := kept[..|kept| / 2];
    }
    var dropped := |items| - |kept|;
    page := NewPage(kept, dropped > 0, cursorOf);
    if dropped == 0 {
      return page;
    }
    page := page.(truncated := true, note := Note(dropped, |items|, max, page.nextCursor.Some?));
  }

  /** Cap keeps a prefix from the chain n, n/2, n/4, ... that fits, or nothing, and no larger one in the chain fits. */
  lemma {:induction false} KeptIsFirstFitting<T>(items: seq<T>, max: nat, size: Size<T>, m: nat)
    requires Kept(items, max, size).Some? && InChain(|items|, m) && m <= |items|
    ensures var n := Kept(items, max, size).value;
            && InChain(|items|, n) && (n == 0 || Fits(size, items[..n], max))
            && (m > n ==> !Fits(size, items[..m], max))
    decreases |items|
  {
    assert items[..|items|] == items;
    if items != [] && size(items).value > max {
      var half := items[..|items| / 2];
      if m == |items| {
        KeptIsFirstFitting(half, max, size, |half|);
      } else {
        ChainShrinks(|half|, m);
        KeptIsFirstFitting(half, max, size, m);
        assert half[..m] == items[..m];
      }
      var n := Kept(half, max, size).value;
      assert half[..n] == items[..n];
    }
  }

  /**
   What a page cut by Cap says of itself: the items are the first of the list;
   it is marked and noted exactly when some are missing, the note giving their
   number, the total and the budget; and its cursor is the last item's, if
   there is one and any way to name it.
   */
  lemma {:induction false} CapPageSays<T>(items: seq<T>, maxBytes: int, size: Size<T>, cursorOf: Option<T -> string>)
    ensures var page := CapPage(items, maxBytes, size, cursorOf);
            var n := |page.items|;
            var max: nat := if maxBytes < 1 then 16384 else maxBytes;
            && n <= |items| && page.items == items[..n] && (page.truncated <==> n < |items|)
            && page.nextCursor == (if page.truncated && cursorOf.Some? && n > 0 then Some(cursorOf.value(items[n - 1])) else None)
            && page.note ==
                 if !page.truncated then ""
                 else
                   Print(|items| - n) + " of " + Print(|items|) + " items omitted to stay under " + Print(max) + " bytes"
                   + (if page.nextCursor.Some? then "; pass the cursor to continue" else "; narrow the query to see the rest")
  {
  }

  // ---------------------------------------------------------------- reading a whole list

  ghost predicate DistinctCursors<T>(items: seq<T>, cursorOf: T -> string) {
    forall i, j :: 0 <= i < j < |items| ==> cursorOf(items[i]) != cursorOf(items[j])
  }

  /** The rows after the one a cursor names. */
  function Remainder<T>(items: seq<T>, cursor: string, cursorOf: T -> string): (rest: seq<T>)
    ensures |rest| <= |items| && (items != [] ==> |rest| < |items|)
  {
    if items == [] then [] else if cursorOf(items[0]) == cursor then items[1..] else Remainder(items[1..], cursor, cursorOf)
  }

  /** The pages a client is given when it follows each page's cursor to the next. */
  function Pages<T>(items: seq<T>, maxBytes: int, size: Size<T>, cursorOf: T -> string): seq<Page<T>>
    decreases |items|
  {
    var page := CapPage(items, maxBytes, size, Some(cursorOf));
    match page.nextCursor
    case None => [page]
    case Some(cursor) =>
      if items == [] then [page] else [page] + Pages(Remainder(items, cursor, cursorOf), maxBytes, size, cursorOf)
  }

  function Read<T>(pages: seq<Page<T>>): seq<T> {
    if pages == [] then [] else pages[0].items + Read(pages[1..])
  }

  ghost predicate EachFits<T>(items: seq<T>, max: nat, size: Size<T>) {
    forall i :: 0 <= i < |items| ==> Fits(size, [items[i]], max)
  }

  /** Following the cursor of item k - 1 leaves exactly the items from k on. */
  lemma {:induction false} RemainderIsSuffix<T>(items: seq<T>, k: nat, cursorOf: T -> string)
    requires 0 < k <= |items| && DistinctCursors(items, cursorOf)
    ensures Remainder(items, cursorOf(items[k - 1]), cursorOf) == items[k..]
  {
    if k > 1 {
      var rest := items[1..];
      assert forall i :: 0 <= i < |rest| ==> rest[i] == items[i + 1];
      RemainderIsSuffix(rest, k - 1, cursorOf);
      assert rest[k - 1..] == items[k..];
    }
  }

  /** Where every item alone fits, a page is never empty. */
  lemma {:induction false} SomethingIsKept<T>(items: seq<T>, max: nat, size: Size<T>)
    requires items != [] && Fits(size, [items[0]], max)
    ensures Kept(items, max, size).Some? ==> Kept(items, max, size).value > 0
    decreases |items|
  {
    if |items| == 1 {
      assert items == [items[0]];
    } else {
      SomethingIsKept(items[..|items| / 2], max, size);
    }
  }

  /** A page that was not cut. */
  lemma {:induction false} WholePage<T>(items: seq<T>, maxBytes: int, size: Size<T>, cursorOf: T -> string)
    requires var n := Kept(items, Budget(maxBytes), size); n.None? || n.value == |items|
    ensures var page := CapPage(items, maxBytes, size, Some(cursorOf));
            page.items == items && Pages(items, maxBytes, size, cursorOf) == [page]
  {
    assert items[..|items|] == items;
  }

  /** A page cut after k items resumes after item k - 1. */
  lemma {:induction false} CutPage<T>(items: seq<T>, maxBytes: int, size: Size<T>, cursorOf: T -> string, k: nat)
    requires DistinctCursors(items, cursorOf) && Kept(items, Budget(maxBytes), size) == Some(k) && 0 < k < |items|
    ensures var page := CapPage(items, maxBytes, size, Some(cursorOf));
            page.items == items[..k]
            && Pages(items, maxBytes, size, cursorOf) == [page] + Pages(items[k..], maxBytes, size, cursorOf)
  {
    assert items[..k][k - 1] == items[k - 1];
    RemainderIsSuffix(items, k, cursorOf);
  }

  lemma {:induction false} SuffixKeeps<T>(items: seq<T>, k: nat, max: nat, size: Size<T>, cursorOf: T -> string)
    requires k <= |items| && DistinctCursors(items, cursorOf)
    ensures DistinctCursors(items[k..], cursorOf)
    ensures EachFits(items, max, size) ==> EachFits(items[k..], max, size)
  {
    var rest := items[k..];
    assert forall i :: 0 <= i < |rest| ==> rest[i] == items[i + k];
  }

  /** Where every item alone fits and cursors are distinct, the pages are the list: nothing repeated, nothing skipped. */
  lemma {:induction false} PagesAreTheList<T>(items: seq<T>, maxBytes: int, size: Size<T>, cursorOf: T -> string)
    requires DistinctCursors(items, cursorOf) && EachFits(items, Budget(maxBytes), size)
    ensures Read(Pages(items, maxBytes, size, cursorOf)) == items
    decreases |items|
  {
    var max := Budget(maxBytes);
    var page := CapPage(items, maxBytes, size, Some(cursorOf));
    var n := Kept(items, max, size);
    if n.None? || n.value == |items| {
      WholePage(items, maxBytes, size, cursorOf);
      OnePage(page);
    } else {
      var k := n.value;
      SomethingIsKept(items, max, size);
      CutPage(items, maxBytes, size, cursorOf, k);
      SuffixKeeps(items, k, max, size, cursorOf);
      PagesAreTheList(items[k..], maxBytes, size, cursorOf);
      FirstPage(page, Pages(items[k..], maxBytes, size, cursorOf));
    }
  }

  lemma {:induction false} OnePage<T>(page: Page<T>)
    ensures Read([page]) == page.items
  {
    assert [page][1..] == [];
  }

  lemma {:induction false} FirstPage<T>(page: Page<T>, more: seq<Page<T>>)
    ensures Read([page] + more) == page.items + Read(more)
  {
    assert ([page] + more)[1..] == more;
  }

  /** A list's size is at least that of any item in it. */
  ghost predicate Grows<T(!new)>(size: Size<T>) {
    forall items: seq<T>, i: nat :: i < |items| && size([items[i]]).Some? && size(items).Some? ==>
      size([items[i]]).value <= size(items).value
  }

  lemma {:induction false} EmptyPage<T>(items: seq<T>, maxBytes: int, size: Size<T>, cursorOf: T -> string)
    requires Kept(items, Budget(maxBytes), size) == Some(0)
    ensures Read(Pages(items, maxBytes, size, cursorOf)) == []
  {
    var page := CapPage(items, maxBytes, size, Some(cursorOf));
    assert items[..0] == [];
    OnePage(page);
  }

  /** Where an item alone does not fit, no page shows it: the run stops short of the list. */
  lemma {:induction false} OversizedIsNeverRead<T(!new)>(items: seq<T>, i: nat, maxBytes: int, size: Size<T>, cursorOf: T -> string)
    requires DistinctCursors(items, cursorOf) && Grows(size) && (forall s: seq<T> :: size(s).Some?)
    requires i < |items| && !Fits(size, [items[i]], Budget(maxBytes))
    ensures |Read(Pages(items, maxBytes, size, cursorOf))| <= i
    decreases |items|
  {
    var max := Budget(maxBytes);
    KeptAlways(items, max, size);
    KeptFits(items, max, size);
    var k := Kept(items, max, size).value;
    assert forall j :: 0 <= j < k ==> items[..k][j] == items[j];
    FittingExcludes(items[..k], max, size);
    if k == 0 {
      EmptyPage(items, maxBytes, size, cursorOf);
    } else {
      CutPage(items, maxBytes, size, cursorOf, k);
      SuffixKeeps(items, k, max, size, cursorOf);
      OversizedIsNeverRead(items[k..], i - k, maxBytes, size, cursorOf);
      FirstPage(CapPage(items, maxBytes, size, Some(cursorOf)), Pages(items[k..], maxBytes, size, cursorOf));
    }
  }

  lemma {:induction false} FittingExcludes<T(!new)>(items: seq<T>, max: nat, size: Size<T>)
    requires Grows(size) && (forall s: seq<T> :: size(s).Some?)
    ensures Fits(size, items, max) ==> EachFits(items, max, size)
  {
  }

  lemma {:induction false} KeptAlways<T(!new)>(items: seq<T>, max: nat, size: Size<T>)
    requires forall s: seq<T> :: size(s).Some?
    ensures Kept(items, max, size).Some?
    decreases |items|
  {
    if items != [] {
      KeptAlways(items[..|items| / 2], max, size);
    }
  }

  lemma {:induction false} KeptFits<T>(items: seq<T>, max: nat, size: Size<T>)
    ensures var n := Kept(items, max, size); n.Some? ==> n.value == 0 || Fits(size, items[..n.value], max)
    decreases |items|
  {
    if items != [] && size(items).Some? {
      if size(items).value <= max {
        assert items[..|items|] == items;
      } else {
        var half := items[..|items| / 2];
        KeptFits(half, max, size);
        var n := Kept(half, max, size);
        assert n.Some? ==> half[..n.value] == items[..n.value];
      }
    }
  }

  /** For an encoder that never fails, the pages are the whole list exactly when every item alone fits. */
  lemma {:induction false} PagesCompleteExactly<T(!new)>(items: seq<T>, maxBytes: int, size: Size<T>, cursorOf: T -> string)
    requires DistinctCursors(items, cursorOf) && Grows(size) && (forall s: seq<T> :: size(s).Some?)
    ensures Read(Pages(items, maxBytes, size, cursorOf)) == items <==> EachFits(items, Budget(maxBytes), size)
  {
    if EachFits(items, Budget(maxBytes), size) {
      PagesAreTheList(items, maxBytes, size, cursorOf);
    } else {
      var i :| 0 <= i < |items| && !Fits(size, [items[i]], Budget(maxBytes));
      OversizedIsNeverRead(items, i, maxBytes, size, cursorOf);
    }
  }
}
