/** Listings of BuildRuns and Releases: filter, sort, page (internal/api/pagination.go), and the CLI's lookup over the pages. */
module Listing {
  import opened Wrappers
  import Order

  /** The fields of a BuildRun or a Release that listings look at. */
  datatype Item = Item(namespace: string, name: string, phase: string, project: string, repository: string, created: int)

  /** An empty field filters nothing. */
  datatype Query = Query(phase: string, project: string, repository: string, from: Option<int>, to: Option<int>)

  datatype Field = ByName | ByPhase | ByCreation

  // ---- Filter ----

  /** Simple case folding, as far as it meets ASCII letters. */
  function Fold(c: char): char {
    if 'A' <= c <= 'Z' then 'a' + (c - 'A')
    else if c == '\U{212A}' then 'k'
    else if c == '\U{017F}' then 's'
    else c
  }

  /** strings.EqualFold */
  predicate EqualFold(a: string, b: string) {
    |a| == |b| && forall i :: 0 <= i < |a| ==> Fold(a[i]) == Fold(b[i])
  }

  predicate WithinRange(t: int, from: Option<int>, to: Option<int>) {
    (from.None? || t >= from.value) && (to.None? || t <= to.value)
  }

  predicate Matches(item: Item, q: Query) {
    && (q.phase == "" || EqualFold(item.phase, q.phase))
    && (q.project == "" || item.project == q.project)
    && (q.repository == "" || item.repository == q.repository)
    && WithinRange(item.created, q.from, q.to)
  }

  function Filter(source: seq<Item>, q: Query): seq<Item> {
    if source == [] then []
    else
      var n := |source| - 1;
      Filter(source[..n], q) + if Matches(source[n], q) then [source[n]] else []
  }

  // ---- Sort ----

  function Key(item: Item): string {
    item.namespace + "/" + item.name
  }

  /** compareBuildRuns; filterSortReleases compares the same way. */
  function Compare(a: Item, b: Item, field: Field): int {
    match field
    case ByName => Order.Compare(Key(a), Key(b))
    case ByPhase =>
      if Order.Compare(a.phase, b.phase) != 0 then Order.Compare(a.phase, b.phase) else Order.Compare(Key(a), Key(b))
    case ByCreation => if a.created != b.created then a.created - b.created else Order.Compare(Key(a), Key(b))
  }

  /** The less function of the sort. */
  predicate Before(a: Item, b: Item, field: Field, descending: bool) {
    if descending then Compare(a, b, field) > 0 else Compare(a, b, field) < 0
  }

  /** The item goes in front of the first one it precedes. */
  function Insert(x: Item, sorted: seq<Item>, field: Field, descending: bool): seq<Item> {
    if sorted == [] then [x]
    else if Before(x, sorted[0], field, descending) then [x] + sorted
    else [sorted[0]] + Insert(x, sorted[1..], field, descending)
  }

  /** sort.SliceStable */
  function Sorted(items: seq<Item>, field: Field, descending: bool): seq<Item> {
    if items == [] then []
    else Insert(items[|items| - 1], Sorted(items[..|items| - 1], field, descending), field, descending)
  }

  /** filterSortBuildRuns and filterSortReleases. */
  method FilterSort(source: seq<Item>, q: Query, field: Field, descending: bool) returns (listing: seq<Item>)
    ensures listing == Sorted(Filter(source, q), field, descending)
  {
    var filtered := [];
    for i := 0 to |source|
      invariant filtered == Filter(source[..i], q)
    {
      assert source[..i + 1][..i] == source[..i];
      var item := source[i];
      if q.phase != "" && !EqualFold(item.phase, q.phase) { continue; }
      if q.project != "" && item.project != q.project { continue; }
      if q.repository != "" && item.repository != q.repository { continue; }
      if !WithinRange(item.created, q.from, q.to) { continue; }
      filtered := filtered + [item];
    }
    assert source[..|source|] == source;
    listing := Sorted(filtered, field, descending);
  }

  predicate Ordered(items: seq<Item>, field: Field, descending: bool) {
    forall i, j :: 0 <= i < j < |items| ==> !Before(items[j], items[i], field, descending)
  }

  ghost predicate UniqueKeys(items: seq<Item>) {
    forall i, j :: 0 <= i < j < |items| ==> Key(items[i]) != Key(items[j])
  }

  lemma CompareLaws(a: Item, b: Item, field: Field)
    ensures Compare(a, b, field) > 0 <==> Compare(b, a, field) < 0
    ensures Compare(a, b, field) == 0 ==> Key(a) == Key(b)
  {
    Order.CompareIsAntisymmetric(Key(a), Key(b));
    Order.CompareIsAntisymmetric(a.phase, b.phase);
  }

  lemma CompareIsTransitive(a: Item, b: Item, c: Item, field: Field)
    requires Compare(a, b, field) <= 0 && Compare(b, c, field) <= 0
    ensures Compare(a, c, field) <= 0
  {
    NotAfterIsTransitive(Key(a), Key(b), Key(c));
    NotAfterIsTransitive(a.phase, b.phase, c.phase);
    Order.CompareIsAntisymmetric(a.phase, b.phase);
    Order.CompareIsAntisymmetric(b.phase, c.phase);
    Order.CompareIsAntisymmetric(a.phase, c.phase);
  }

  lemma NotAfterIsTransitive(a: string, b: string, c: string)
    ensures Order.Compare(a, b) <= 0 && Order.Compare(b, c) <= 0 ==> Order.Compare(a, c) <= 0
    ensures Order.Compare(a, b) < 0 && Order.Compare(b, c) <= 0 ==> Order.Compare(a, c) < 0
    ensures Order.Compare(a, b) <= 0 && Order.Compare(b, c) < 0 ==> Order.Compare(a, c) < 0
  {
    Order.CompareIsAntisymmetric(a, b);
    Order.CompareIsAntisymmetric(b, c);
    Order.CompareIsAntisymmetric(a, c);
    if Order.Less(a, b) && Order.Less(b, c) { Order.LessIsTransitive(a, b, c); }
  }

  /** a may stand in front of b, b in front of c: then a in front of c. */
  lemma OrderChains(a: Item, b: Item, c: Item, field: Field, descending: bool)
    ensures Before(a, b, field, descending) ==> !Before(b, a, field, descending)
    ensures !Before(b, a, field, descending) && !Before(c, b, field, descending) ==> !Before(c, a, field, descending)
  {
    hide Compare;
    CompareLaws(a, b, field);
    CompareLaws(b, c, field);
    CompareLaws(a, c, field);
    if descending {
      if Compare(c, b, field) <= 0 && Compare(b, a, field) <= 0 { CompareIsTransitive(c, b, a, field); }
    } else {
      if Compare(a, b, field) <= 0 && Compare(b, c, field) <= 0 { CompareIsTransitive(a, b, c, field); }
    }
  }

  lemma {:induction false} InsertKeepsItems(x: Item, sorted: seq<Item>, field: Field, descending: bool)
    ensures multiset(Insert(x, sorted, field, descending)) == multiset(sorted) + multiset{x}
  {
    hide Before;
    if sorted == [] {
    } else {
      assert sorted == [sorted[0]] + sorted[1..];
      InsertKeepsItems(x, sorted[1..], field, descending);
    }
  }

  /** No item may stand in front of x. */
  predicate Leads(x: Item, items: seq<Item>, field: Field, descending: bool) {
    forall j :: 0 <= j < |items| ==> !Before(items[j], x, field, descending)
  }

  lemma OrderedCons(x: Item, items: seq<Item>, field: Field, descending: bool)
    ensures Ordered([x] + items, field, descending) <==> Leads(x, items, field, descending) && Ordered(items, field, descending)
  {
    hide Before;
    var all := [x] + items;
    if Ordered(all, field, descending) {
      forall j | 0 <= j < |items| ensures !Before(items[j], x, field, descending) {
        assert all[j + 1] == items[j] && all[0] == x;
      }
      forall i, j | 0 <= i < j < |items| ensures !Before(items[j], items[i], field, descending) {
        assert all[i + 1] == items[i] && all[j + 1] == items[j];
      }
    }
    if Leads(x, items, field, descending) && Ordered(items, field, descending) {
      forall i, j | 0 <= i < j < |all| ensures !Before(all[j], all[i], field, descending) {
        assert all[j] == items[j - 1] && (i > 0 ==> all[i] == items[i - 1]);
      }
    }
  }

  lemma {:induction false} InsertKeepsOrder(x: Item, sorted: seq<Item>, field: Field, descending: bool)
    requires Ordered(sorted, field, descending)
    ensures Ordered(Insert(x, sorted, field, descending), field, descending)
  {
    hide Before, Ordered;
    OrderedCons(x, [], field, descending);
    assert Ordered([], field, descending) by { NothingIsOrdered(field, descending); }
    assert [x] + [] == [x];
    if sorted == [] {
    } else {
      var head, rest := sorted[0], sorted[1..];
      assert sorted == [head] + rest;
      OrderedCons(head, rest, field, descending);
      if Before(x, head, field, descending) {
        forall j | 0 <= j < |sorted| ensures !Before(sorted[j], x, field, descending) {
          OrderChains(x, head, sorted[j], field, descending);
        }
        OrderedCons(x, sorted, field, descending);
      } else {
        var longer := Insert(x, rest, field, descending);
        InsertKeepsOrder(x, rest, field, descending);
        InsertKeepsItems(x, rest, field, descending);
        forall j | 0 <= j < |longer| ensures !Before(longer[j], head, field, descending) {
          assert longer[j] in multiset(longer);
          assert longer[j] == x || longer[j] in rest;
        }
        OrderedCons(head, longer, field, descending);
      }
    }
  }

  lemma NothingIsOrdered(field: Field, descending: bool)
    ensures Ordered([], field, descending)
  {
  }

  lemma {:induction false} SortedIsOrdered(items: seq<Item>, field: Field, descending: bool)
    ensures Ordered(Sorted(items, field, descending), field, descending)
    ensures multiset(Sorted(items, field, descending)) == multiset(items)
  {
    hide Before;
    if items == [] {
    } else {
      var n := |items| - 1;
      SortedIsOrdered(items[..n], field, descending);
      InsertKeepsOrder(items[n], Sorted(items[..n], field, descending), field, descending);
      InsertKeepsItems(items[n], Sorted(items[..n], field, descending), field, descending);
      assert items == items[..n] + [items[n]];
    }
  }

  lemma {:induction false} FilterKeepsMatches(source: seq<Item>, q: Query, x: Item)
    ensures multiset(Filter(source, q))[x] == if Matches(x, q) then multiset(source)[x] else 0
  {
    hide Matches;
    if source == [] {
    } else {
      var n := |source| - 1;
      FilterKeepsMatches(source[..n], q, x);
      assert source == source[..n] + [source[n]];
    }
  }

  /** The listing holds every matching item exactly as often as the source does, and no other, in order. */
  lemma ListingIsSortedMatches(source: seq<Item>, q: Query, field: Field, descending: bool, x: Item)
    ensures var listing := Sorted(Filter(source, q), field, descending);
      && Ordered(listing, field, descending)
      && multiset(listing)[x] == if Matches(x, q) then multiset(source)[x] else 0
  {
    hide Matches, Before;
    SortedIsOrdered(Filter(source, q), field, descending);
    FilterKeepsMatches(source, q, x);
  }

  function Reversed(items: seq<Item>): seq<Item> {
    seq(|items|, i requires 0 <= i < |items| => items[|items| - 1 - i])
  }

  lemma {:induction false} ReversedCounts(items: seq<Item>)
    ensures multiset(Reversed(items)) == multiset(items)
  {
    if items == [] {
    } else {
      ReversedCounts(items[1..]);
      assert Reversed(items) == Reversed(items[1..]) + [items[0]];
      assert items == [items[0]] + items[1..];
    }
  }

  lemma SameHead(a: seq<Item>, b: seq<Item>, field: Field, descending: bool)
    requires multiset(a) == multiset(b) && UniqueKeys(a) && a != [] && b != []
    requires Ordered(a, field, descending) && Ordered(b, field, descending)
    ensures a[0] == b[0]
  {
    hide Compare;
    assert a[0] in multiset(b) && b[0] in multiset(a);
    var i :| 0 <= i < |b| && b[i] == a[0];
    var j :| 0 <= j < |a| && a[j] == b[0];
    CompareLaws(a[0], b[0], field);
    CompareLaws(b[0], a[0], field);
    assert i > 0 ==> !Before(b[i], b[0], field, descending);
    assert j > 0 ==> !Before(a[j], a[0], field, descending);
    assert j == 0 || Key(a[0]) != Key(a[j]);
  }

  /** With unique keys there is only one order to be in. */
  lemma {:induction false} OrderIsUnique(a: seq<Item>, b: seq<Item>, field: Field, descending: bool)
    requires multiset(a) == multiset(b) && UniqueKeys(a)
    requires Ordered(a, field, descending) && Ordered(b, field, descending)
    ensures a == b
  {
    hide Before, Ordered, UniqueKeys;
    SameLength(a, b);
    if a == [] {
    } else {
      assert a == [a[0]] + a[1..] && b == [b[0]] + b[1..];
      SameHead(a, b, field, descending);
      OrderedCons(a[0], a[1..], field, descending);
      OrderedCons(b[0], b[1..], field, descending);
      assert multiset(a[1..]) == multiset(a) - multiset{a[0]} && multiset(b[1..]) == multiset(b) - multiset{a[0]};
      UniqueTail(a);
      OrderIsUnique(a[1..], b[1..], field, descending);
    }
  }

  lemma UniqueTail(a: seq<Item>)
    requires UniqueKeys(a) && a != []
    ensures UniqueKeys(a[1..])
  {
  }

  lemma SameLength(a: seq<Item>, b: seq<Item>)
    requires multiset(a) == multiset(b)
    ensures |a| == |b|
  {
    assert |multiset(a)| == |a| && |multiset(b)| == |b|;
  }

  lemma {:induction false} SameItemsUniqueKeys(a: seq<Item>, b: seq<Item>)
    requires multiset(a) == multiset(b) && UniqueKeys(a)
    ensures UniqueKeys(b)
  {
    forall i, j | 0 <= i < j < |b| ensures Key(b[i]) != Key(b[j]) {
      if Key(b[i]) == Key(b[j]) {
        assert b[i] in multiset(a) && b[j] in multiset(a);
        var k :| 0 <= k < |a| && a[k] == b[i];
        var l :| 0 <= l < |a| && a[l] == b[j];
        assert k == l;
        CountsTwice(b, i, j);
        OnlyOnce(a, k);
      }
    }
  }

  lemma CountsTwice(b: seq<Item>, i: nat, j: nat)
    requires i < j < |b| && b[i] == b[j]
    ensures multiset(b)[b[i]] >= 2
  {
    assert b == b[..i] + [b[i]] + b[i + 1..j] + [b[j]] + b[j + 1..];
  }

  lemma OnlyOnce(a: seq<Item>, k: nat)
    requires k < |a| && UniqueKeys(a)
    ensures multiset(a)[a[k]] == 1
  {
    assert a == a[..k] + [a[k]] + a[k + 1..];
    assert a[k] !in a[..k] && a[k] !in a[k + 1..];
  }

  /** For every sort field, the descending listing is the ascending one read backwards. */
  lemma DescendingIsReversed(source: seq<Item>, q: Query, field: Field)
    requires UniqueKeys(Filter(source, q))
    ensures Sorted(Filter(source, q), field, true) == Reversed(Sorted(Filter(source, q), field, false))
  {
    hide Compare, Matches;
    var items := Filter(source, q);
    var up, down := Sorted(items, field, false), Sorted(items, field, true);
    SortedIsOrdered(items, field, false);
    SortedIsOrdered(items, field, true);
    ReversedCounts(up);
    SameItemsUniqueKeys(items, down);
    forall i, j | 0 <= i < j < |up| ensures !Before(Reversed(up)[j], Reversed(up)[i], field, true) {
      CompareLaws(Reversed(up)[j], Reversed(up)[i], field);
      assert !Before(up[|up| - 1 - i], up[|up| - 1 - j], field, false);
    }
    OrderIsUnique(down, Reversed(up), field, true);
  }

  // ---- Pages ----

  datatype Page = Page(items: seq<Item>, next: Option<nat>)

  /** paginate; a page token carries the offset. */
  function Paginate(items: seq<Item>, offset: nat, limit: nat): Page {
    if offset >= |items| then Page([], None)
    else
      var end := if offset + limit > |items| then |items| else offset + limit;
      Page(items[offset..end], if end < |items| then Some(end) else None)
  }

  /** All the pages, following the tokens. */
  function Walk(items: seq<Item>, offset: nat, limit: nat): seq<Page>
    requires limit >= 1
    decreases |items| - offset
  {
    var page := Paginate(items, offset, limit);
    [page] + if page.next.None? then [] else Walk(items, page.next.value, limit)
  }

  function Concatenated(pages: seq<Page>): seq<Item> {
    if pages == [] then [] else pages[0].items + Concatenated(pages[1..])
  }

  /** The least number of pages that holds n items, and one when there are none: max(1, ceil(n / limit)). */
  predicate Pages(count: nat, n: nat, limit: nat) {
    if n == 0 then count == 1 else (count - 1) * limit < n <= count * limit
  }

  lemma OnePageMore(count: nat, n: nat, limit: nat)
    requires 1 <= limit < n && Pages(count, n - limit, limit)
    ensures Pages(count + 1, n, limit)
  {
    assert (count + 1) * limit == count * limit + limit;
    assert count * limit == (count - 1) * limit + limit;
  }

  lemma WalkStep(items: seq<Item>, offset: nat, limit: nat)
    requires limit >= 1 && offset <= |items|
    ensures var pages := Walk(items, offset, limit);
      if offset + limit < |items| then
        && pages == [Page(items[offset..offset + limit], Some(offset + limit))] + Walk(items, offset + limit, limit)
      else pages == [Page(items[offset..], None)]
  {
    assert items[offset..|items|] == items[offset..];
    assert forall page: Page :: [page] + [] == [page];
  }

  lemma ConcatenatedPage(page: Page, rest: seq<Page>)
    ensures Concatenated([page] + rest) == page.items + Concatenated(rest)
  {
    assert ([page] + rest)[1..] == rest;
  }

  /** Following the tokens from the start returns every item once, in order, in the least number of requests. */
  lemma {:induction false} WalkReturnsEverything(items: seq<Item>, offset: nat, limit: nat)
    requires limit >= 1 && offset <= |items|
    ensures Concatenated(Walk(items, offset, limit)) == items[offset..]
    ensures Pages(|Walk(items, offset, limit)|, |items| - offset, limit)
    decreases |items| - offset
  {
    hide Walk, Concatenated, Pages;
    WalkStep(items, offset, limit);
    if offset + limit < |items| {
      WalkReturnsEverything(items, offset + limit, limit);
      OnePageMore(|Walk(items, offset + limit, limit)|, |items| - offset, limit);
      ConcatenatedPage(Page(items[offset..offset + limit], Some(offset + limit)), Walk(items, offset + limit, limit));
      assert items[offset..] == items[offset..offset + limit] + items[offset + limit..];
    } else {
      LastPage(items, offset, limit);
    }
  }

  lemma LastPage(items: seq<Item>, offset: nat, limit: nat)
    requires limit >= 1 && offset <= |items| <= offset + limit
    ensures Concatenated([Page(items[offset..], None)]) == items[offset..] && Pages(1, |items| - offset, limit)
  {
    ConcatenatedPage(Page(items[offset..], None), []);
    assert [Page(items[offset..], None)] + [] == [Page(items[offset..], None)];
  }

  /** The item is the first of that name. */
  ghost predicate FirstOf(items: seq<Item>, name: string, item: Item) {
    exists i :: 0 <= i < |items| && items[i] == item && item.name == name && forall j :: 0 <= j < i ==> items[j].name != name
  }

  /** "release get": ask for page after page until the name turns up or the tokens run out. */
  method LookUp(items: seq<Item>, name: string) returns (found: Option<Item>, requests: nat)
    ensures found.Some? <==> exists i :: 0 <= i < |items| && items[i].name == name
    ensures found.Some? ==> FirstOf(items, name, found.value) && (requests - 1) * 200 < |items|
    ensures found.None? ==> Pages(requests, |items|, 200)
  {
    var token := 0;
    requests := 0;
    while true
      invariant token == 200 * requests && (token < |items| || token == 0)
      invariant forall j :: 0 <= j < token && j < |items| ==> items[j].name != name
      decreases |items| - token
    {
      var page := Paginate(items, token, 200);
      requests := requests + 1;
      for k := 0 to |page.items|
        invariant forall j :: 0 <= j < token + k ==> items[j].name != name
      {
        assert page.items[k] == items[token + k];
        if page.items[k].name == name {
          return Some(page.items[k]), requests;
        }
      }
      if page.next.None? {
        return None, requests;
      }
      token := page.next.value;
    }
  }

  // ---- The listing in terms of the items' own fields ----

  /** The order that was asked for: the name is the namespace and the name with a slash between, and settles ties. */
  ghost predicate SortedBefore(a: Item, b: Item, field: Field) {
    var x, y := a.namespace + "/" + a.name, b.namespace + "/" + b.name;
    match field
    case ByName => Order.SortsFirst(x, y)
    case ByPhase => Order.SortsFirst(a.phase, b.phase) || (a.phase == b.phase && Order.SortsFirst(x, y))
    case ByCreation => a.created < b.created || (a.created == b.created && Order.SortsFirst(x, y))
  }

  lemma CompareIff(a: Item, b: Item, field: Field)
    ensures Compare(a, b, field) < 0 <==> SortedBefore(a, b, field)
    ensures Compare(a, b, field) > 0 <==> SortedBefore(b, a, field)
  {
    Order.LessIff(Key(a), Key(b));
    Order.LessIff(Key(b), Key(a));
    Order.LessIff(a.phase, b.phase);
    Order.LessIff(b.phase, a.phase);
    Order.CompareIsAntisymmetric(Key(a), Key(b));
    Order.CompareIsAntisymmetric(a.phase, b.phase);
  }

  /** No item stands behind one that the asked-for order puts after it; in a descending listing, before it. */
  lemma ListingIsInOrder(source: seq<Item>, q: Query, field: Field, descending: bool, i: nat, j: nat)
    requires i < j < |Sorted(Filter(source, q), field, descending)|
    ensures var listing := Sorted(Filter(source, q), field, descending);
      if descending then !SortedBefore(listing[i], listing[j], field) else !SortedBefore(listing[j], listing[i], field)
  {
    hide Matches, Compare;
    var listing := Sorted(Filter(source, q), field, descending);
    SortedIsOrdered(Filter(source, q), field, descending);
    CompareIff(listing[i], listing[j], field);
    CompareIff(listing[j], listing[i], field);
  }

  /** Letters that differ in case only, the Kelvin sign being a k and the long s an s; everything else must be equal. */
  predicate SameLetter(c: char, d: char) {
    || c == d
    || ('A' <= c <= 'Z' && d as int == c as int + 32) || ('A' <= d <= 'Z' && c as int == d as int + 32)
    || (c in {'K', 'k', '\U{212A}'} && d in {'K', 'k', '\U{212A}'}) || (c in {'S', 's', '\U{017F}'} && d in {'S', 's', '\U{017F}'})
  }

  /** Exactly the items that pass every filter that is given are listed; the phase is compared without regard to case. */
  lemma ListedIff(source: seq<Item>, q: Query, field: Field, descending: bool, x: Item)
    ensures x in Sorted(Filter(source, q), field, descending) <==>
      && x in source
      && (q.phase != "" ==> |x.phase| == |q.phase| && forall i :: 0 <= i < |q.phase| ==> SameLetter(x.phase[i], q.phase[i]))
      && (q.project != "" ==> x.project == q.project)
      && (q.repository != "" ==> x.repository == q.repository)
      && (q.from.Some? ==> x.created >= q.from.value)
      && (q.to.Some? ==> x.created <= q.to.value)
  {
    var listing := Sorted(Filter(source, q), field, descending);
    ListingIsSortedMatches(source, q, field, descending, x);
    assert x in listing <==> multiset(listing)[x] > 0;
    assert x in source <==> multiset(source)[x] > 0;
    if |x.phase| == |q.phase| {
      forall i | 0 <= i < |q.phase| ensures Fold(x.phase[i]) == Fold(q.phase[i]) <==> SameLetter(x.phase[i], q.phase[i]) {
        FoldIsCase(x.phase[i], q.phase[i]);
      }
    }
  }

  lemma FoldIsCase(c: char, d: char)
    ensures Fold(c) == Fold(d) <==> SameLetter(c, d)
  {
  }
}
