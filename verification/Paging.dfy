/** ORDER BY without a unique tiebreaker, LIMIT and OFFSET. An ordering is a sequence of row positions;
    the database may return any ordering the sort keys permit, and a different one for each request. */
module Paging {
  import opened Schema
  import opened Rounding

  /** What `_SEVERITY_ORDER` sorts by: severity rank, then the newest first. */
  datatype Key = Key(rank: int, createdAt: Micros)

  function Rank(s: Severity): int {
    match s
    case Critical => 1
    case High => 2
    case Medium => 3
    case Low => 4
    case Unlisted(_) => 5
  }

  function KeyOf(a: Alert): Key { Key(Rank(a.severity), a.createdAt) }

  function KeysOf(table: seq<Alert>): seq<Key> {
    seq(|table|, i requires 0 <= i < |table| => KeyOf(table[i]))
  }

  predicate Before(a: Key, b: Key) {
    a.rank < b.rank || (a.rank == b.rank && a.createdAt > b.createdAt)
  }

  ghost predicate Matches(keys: seq<Key>, chosen: set<nat>) {
    forall p :: p in chosen ==> p < |keys|
  }

  /** An ordering the database may return for the rows at positions `chosen`. */
  ghost predicate Permitted(keys: seq<Key>, chosen: set<nat>, order: seq<nat>) {
    && (forall p :: p in order <==> p in chosen)
    && (forall i :: 0 <= i < |order| ==> order[i] < |keys|)
    && (forall i, j :: 0 <= i < j < |order| ==> order[i] != order[j] && !Before(keys[order[j]], keys[order[i]]))
  }

  /** Some chosen row comes before none of the others. */
  lemma {:induction false} LastRow(keys: seq<Key>, chosen: set<nat>) returns (p: nat)
    requires Matches(keys, chosen) && chosen != {}
    ensures p in chosen && forall q :: q in chosen ==> !Before(keys[p], keys[q])
    decreases |chosen|
  {
    p :| p in chosen;
    if chosen != {p} {
      var rest := LastRow(keys, chosen - {p});
      if !Before(keys[rest], keys[p]) {
        p := rest;
      }
    }
  }

  /** The database always has an ordering to return. */
  lemma {:induction false} OrderingExists(keys: seq<Key>, chosen: set<nat>) returns (order: seq<nat>)
    requires Matches(keys, chosen)
    ensures Permitted(keys, chosen, order)
    decreases |chosen|
  {
    if chosen == {} {
      order := [];
    } else {
      var last := LastRow(keys, chosen);
      var before := OrderingExists(keys, chosen - {last});
      order := before + [last];
      assert forall i :: 0 <= i < |before| ==> before[i] in before;
    }
  }

  function Min(a: int, b: int): int { if a < b then a else b }

  /** LIMIT limit OFFSET offset. */
  function Slice<T>(order: seq<T>, offset: nat, limit: nat): seq<T> {
    order[Min(offset, |order|)..Min(offset + limit, |order|)]
  }

  function Page<T>(order: seq<T>, page: nat, perPage: nat): seq<T>
    requires page >= 1
  {
    Slice(order, (page - 1) * perPage, perPage)
  }

  function TotalPages(total: nat, perPage: nat): nat
    requires perPage >= 1
  {
    if total == 0 then 0 else (total + perPage - 1) / perPage
  }

  /** `total_pages` is the number of pages that hold the rows: all but the last are full, and the last
      is not empty. */
  lemma TotalPagesFit(total: nat, perPage: nat)
    requires perPage >= 1
    ensures TotalPages(total, perPage) * perPage >= total
    ensures total > 0 ==> (TotalPages(total, perPage) - 1) * perPage < total
  {
    if total > 0 {
      DivMod(total + perPage - 1, perPage);
    }
  }

  lemma DivMod(n: nat, d: nat)
    requires d >= 1
    ensures n / d * d <= n < n / d * d + d
  {
  }

  /** Any page after the last is empty. */
  lemma LaterPagesEmpty<T>(order: seq<T>, page: nat, perPage: nat)
    requires perPage >= 1 && page > TotalPages(|order|, perPage)
    ensures Page(order, page, perPage) == []
  {
    TotalPagesFit(|order|, perPage);
    Products(TotalPages(|order|, perPage), page - 1, perPage);
  }

  // ---------------------------------------------------------------- keys do not depend on the ordering

  ghost function Elements(s: seq<nat>): set<nat> {
    set i | 0 <= i < |s| :: s[i]
  }

  lemma {:induction false} DistinctCardinality(s: seq<nat>)
    requires forall i, j :: 0 <= i < j < |s| ==> s[i] != s[j]
    ensures |Elements(s)| == |s|
  {
    if s == [] {
    } else {
      var before, last := s[..|s| - 1], s[|s| - 1];
      DistinctCardinality(before);
      assert Elements(s) == Elements(before) + {last};
      assert last !in Elements(before);
    }
  }

  lemma SubsetCardinality(a: set<nat>, b: set<nat>)
    requires a <= b
    ensures |a| <= |b|
  {
    assert b == a + (b - a);
  }

  lemma PermittedLength(keys: seq<Key>, chosen: set<nat>, order: seq<nat>)
    requires Permitted(keys, chosen, order)
    ensures |order| == |chosen|
  {
    DistinctCardinality(order);
    assert Elements(order) == chosen by {
      forall p ensures p in Elements(order) <==> p in order {
      }
    }
  }

  /** One ordering's i-th key cannot come before another's: the i + 1 rows up to it would have to fit
      among the i rows ahead of the other's. */
  lemma KeyNotBefore(keys: seq<Key>, chosen: set<nat>, a: seq<nat>, b: seq<nat>, i: nat)
    requires Permitted(keys, chosen, a) && Permitted(keys, chosen, b) && i < |a| && i < |b|
    ensures !Before(keys[a[i]], keys[b[i]])
  {
    if Before(keys[a[i]], keys[b[i]]) {
      var ahead, fewer := a[..i + 1], b[..i];
      forall p | p in Elements(ahead) ensures p in Elements(fewer) {
        var j :| 0 <= j <= i && a[j] == p;
        assert p in a && p in b;
        var k :| 0 <= k < |b| && b[k] == p;
        assert !Before(keys[a[i]], keys[p]);
        assert k >= i ==> !Before(keys[p], keys[b[i]]);
        assert fewer[..] == fewer && (k < i ==> fewer[k] == p);
      }
      DistinctCardinality(ahead);
      DistinctCardinality(fewer);
      SubsetCardinality(Elements(ahead), Elements(fewer));
    }
  }

  /** Every permitted ordering shows the same keys in the same places, hence on the same pages. */
  lemma KeysDetermined(keys: seq<Key>, chosen: set<nat>, a: seq<nat>, b: seq<nat>)
    requires Permitted(keys, chosen, a) && Permitted(keys, chosen, b)
    ensures |a| == |b|
    ensures forall i :: 0 <= i < |a| ==> keys[a[i]] == keys[b[i]]
  {
    PermittedLength(keys, chosen, a);
    PermittedLength(keys, chosen, b);
    forall i | 0 <= i < |a| ensures keys[a[i]] == keys[b[i]] {
      KeyNotBefore(keys, chosen, a, b, i);
      KeyNotBefore(keys, chosen, b, a, i);
    }
  }

  /** Where an entry of a page stands in the whole ordering. */
  function PageAt(order: seq<nat>, page: nat, perPage: nat, i: nat): (at: nat)
    requires page >= 1 && i < |Page(order, page, perPage)|
    ensures at < |order| && Page(order, page, perPage)[i] == order[at]
  {
    (page - 1) * perPage + i
  }

  lemma PageKeysDetermined(keys: seq<Key>, chosen: set<nat>, a: seq<nat>, b: seq<nat>, page: nat, perPage: nat)
    requires Permitted(keys, chosen, a) && Permitted(keys, chosen, b) && page >= 1 && perPage >= 1
    ensures |Page(a, page, perPage)| == |Page(b, page, perPage)|
    ensures forall i :: 0 <= i < |Page(a, page, perPage)| ==>
              Page(a, page, perPage)[i] < |keys| && Page(b, page, perPage)[i] < |keys|
              && keys[Page(a, page, perPage)[i]] == keys[Page(b, page, perPage)[i]]
  {
    KeysDetermined(keys, chosen, a, b);
    forall i | 0 <= i < |Page(a, page, perPage)|
      ensures Page(a, page, perPage)[i] < |keys| && Page(b, page, perPage)[i] < |keys|
      ensures keys[Page(a, page, perPage)[i]] == keys[Page(b, page, perPage)[i]]
    {
      var at := PageAt(a, page, perPage, i);
      assert at == PageAt(b, page, perPage, i);
    }
  }

  // ---------------------------------------------------------------- when paging visits each row once

  /** No group of tied rows straddles a page boundary. */
  ghost predicate Clean(keys: seq<Key>, order: seq<nat>, perPage: nat)
    requires perPage >= 1 && forall i :: 0 <= i < |order| ==> order[i] < |keys|
  {
    forall k {:trigger k * perPage} :: 1 <= k && k * perPage < |order| ==>
      k * perPage >= 1 && Before(keys[order[k * perPage - 1]], keys[order[k * perPage]])
  }

  /** Of the pages a client fetches, each under its own ordering, page k + 1 alone shows the row. */
  ghost predicate OnlyOn(orders: seq<seq<nat>>, perPage: nat, p: nat, k: int) {
    && 0 <= k < |orders| && p in Page(orders[k], k + 1, perPage)
    && forall j :: 0 <= j < |orders| && j != k ==> p !in Page(orders[j], j + 1, perPage)
  }

  /** A client that fetches pages 1..n meets every matching row once. */
  ghost predicate EachOnce(chosen: set<nat>, orders: seq<seq<nat>>, perPage: nat) {
    forall p :: p in chosen ==> exists k :: OnlyOn(orders, perPage, p, k)
  }

  ghost predicate AllPermitted(keys: seq<Key>, chosen: set<nat>, orders: seq<seq<nat>>) {
    forall k :: 0 <= k < |orders| ==> Permitted(keys, chosen, orders[k])
  }

  /** A row is on the same side of a clean boundary in every ordering. */
  lemma SameSide(keys: seq<Key>, chosen: set<nat>, a: seq<nat>, b: seq<nat>, i: nat, j: nat, boundary: nat)
    requires Permitted(keys, chosen, a) && Permitted(keys, chosen, b)
    requires i < |a| && j < |b| && a[i] == b[j]
    requires 0 < boundary < |a| ==> Before(keys[a[boundary - 1]], keys[a[boundary]])
    ensures i < boundary <==> j < boundary
  {
    KeysDetermined(keys, chosen, a, b);
    if 0 < boundary < |a| {
      assert keys[a[boundary]] == keys[b[boundary]] && keys[a[boundary - 1]] == keys[b[boundary - 1]];
      assert boundary <= j ==> !Before(keys[b[j]], keys[b[boundary]]);
      assert i < boundary ==> !Before(keys[a[boundary - 1]], keys[a[i]]);
      assert boundary <= i ==> !Before(keys[a[i]], keys[a[boundary]]);
      assert j < boundary ==> !Before(keys[b[boundary - 1]], keys[b[j]]);
    }
  }

  lemma InSlice(order: seq<nat>, offset: nat, limit: nat, i: nat)
    requires i < |order| && forall a, b :: 0 <= a < b < |order| ==> order[a] != order[b]
    ensures order[i] in Slice(order, offset, limit) <==> offset <= i < offset + limit
  {
    var slice := Slice(order, offset, limit);
    if order[i] in slice {
      var j :| 0 <= j < |slice| && slice[j] == order[i];
      assert order[offset + j] == order[i];
    }
    if offset <= i < offset + limit {
      assert slice[i - offset] == order[i];
    }
  }

  lemma OnPage(order: seq<nat>, page: nat, perPage: nat, i: nat)
    requires page >= 1 && i < |order| && forall a, b :: 0 <= a < b < |order| ==> order[a] != order[b]
    ensures order[i] in Page(order, page, perPage) <==> (page - 1) * perPage <= i < (page - 1) * perPage + perPage
  {
    InSlice(order, (page - 1) * perPage, perPage, i);
  }

  /** With clean boundaries, the page of a row is fixed by its place in any one ordering. */
  lemma PageFixed(keys: seq<Key>, chosen: set<nat>, a: seq<nat>, b: seq<nat>, perPage: nat, i: nat, page: nat)
    requires perPage >= 1 && page >= 1 && i < |a|
    requires Permitted(keys, chosen, a) && Permitted(keys, chosen, b) && Clean(keys, a, perPage)
    ensures a[i] in Page(b, page, perPage) <==> (page - 1) * perPage <= i < page * perPage
  {
    assert a[i] in a && a[i] in b;
    var j :| 0 <= j < |b| && b[j] == a[i];
    var lo, hi := (page - 1) * perPage, page * perPage;
    assert hi == lo + perPage;
    assert 0 < lo < |a| ==> Before(keys[a[lo - 1]], keys[a[lo]]);
    assert 0 < hi < |a| ==> Before(keys[a[hi - 1]], keys[a[hi]]);
    SameSide(keys, chosen, a, b, i, j, lo);
    SameSide(keys, chosen, a, b, i, j, hi);
    OnPage(b, page, perPage, j);
  }

  lemma PageIndex(i: nat, perPage: nat, k: nat)
    requires perPage >= 1
    ensures k * perPage <= i < (k + 1) * perPage <==> k == i / perPage
  {
    DivMod(i, perPage);
    if k < i / perPage {
      Products(k + 1, i / perPage, perPage);
    } else if k > i / perPage {
      Products(i / perPage + 1, k, perPage);
    }
  }

  lemma RowsFit(order: seq<nat>, perPage: nat, i: nat)
    requires perPage >= 1 && i < |order|
    ensures i / perPage < TotalPages(|order|, perPage)
  {
    PageIndex(i, perPage, i / perPage);
    TotalPagesFit(|order|, perPage);
    Products(TotalPages(|order|, perPage), i / perPage, perPage);
  }

  lemma PageOfRow(keys: seq<Key>, chosen: set<nat>, a: seq<nat>, b: seq<nat>, perPage: nat, i: nat, k: nat)
    requires perPage >= 1 && i < |a|
    requires Permitted(keys, chosen, a) && Permitted(keys, chosen, b) && Clean(keys, a, perPage)
    ensures a[i] in Page(b, k + 1, perPage) <==> k == i / perPage
  {
    PageFixed(keys, chosen, a, b, perPage, i, k + 1);
    PageIndex(i, perPage, k);
  }

  /** The row at place `i` is on page i / perPage + 1 and on no other. */
  lemma RowOnOnePage(keys: seq<Key>, chosen: set<nat>, order: seq<nat>, orders: seq<seq<nat>>, perPage: nat, i: nat,
                     k: nat)
    requires perPage >= 1 && Permitted(keys, chosen, order) && Clean(keys, order, perPage) && i < |order|
    requires AllPermitted(keys, chosen, orders) && k < |orders|
    requires k == i / perPage
    ensures OnlyOn(orders, perPage, order[i], k)
  {
    forall j | 0 <= j < |orders| ensures order[i] in Page(orders[j], j + 1, perPage) <==> j == k {
      PageOfRow(keys, chosen, order, orders[j], perPage, i, j);
    }
  }

  lemma CleanVisitsOnce(keys: seq<Key>, chosen: set<nat>, order: seq<nat>, orders: seq<seq<nat>>, perPage: nat)
    requires perPage >= 1 && Permitted(keys, chosen, order) && Clean(keys, order, perPage)
    requires AllPermitted(keys, chosen, orders) && |orders| == TotalPages(|order|, perPage)
    ensures EachOnce(chosen, orders, perPage)
  {
    forall p | p in chosen ensures exists k :: OnlyOn(orders, perPage, p, k) {
      assert p in order;
      var i :| 0 <= i < |order| && order[i] == p;
      RowsFit(order, perPage, i);
      RowOnOnePage(keys, chosen, order, orders, perPage, i, i / perPage);
    }
  }

  /** What ends a page in one ordering and starts the next page in another is on both pages. */
  lemma OnBothPages(order: seq<nat>, swapped: seq<nat>, perPage: nat, k: nat)
    requires perPage >= 1 && k >= 1 && 0 < k * perPage < |order| == |swapped|
    requires swapped[k * perPage] == order[k * perPage - 1]
    requires forall a, b :: 0 <= a < b < |order| ==> order[a] != order[b]
    requires forall a, b :: 0 <= a < b < |swapped| ==> swapped[a] != swapped[b]
    ensures order[k * perPage - 1] in Page(order, k, perPage)
    ensures order[k * perPage - 1] in Page(swapped, k + 1, perPage)
  {
    assert (k - 1) * perPage + perPage == k * perPage;
    OnPage(order, k, perPage, k * perPage - 1);
    OnPage(swapped, k + 1, perPage, k * perPage);
  }

  /** A tie across a boundary: serving the two pages under orderings that swap the tied rows shows one
      of them twice. */
  lemma TieVisitsTwice(keys: seq<Key>, chosen: set<nat>, order: seq<nat>, perPage: nat, k: nat)
      returns (orders: seq<seq<nat>>)
    requires perPage >= 1 && Permitted(keys, chosen, order) && k >= 1 && 0 < k * perPage < |order|
    requires !Before(keys[order[k * perPage - 1]], keys[order[k * perPage]])
    ensures AllPermitted(keys, chosen, orders) && |orders| == TotalPages(|order|, perPage)
    ensures !EachOnce(chosen, orders, perPage)
  {
    var b, n := k * perPage, TotalPages(|order|, perPage);
    var swapped := order[b - 1 := order[b]][b := order[b - 1]];
    assert k < n by {
      TotalPagesFit(|order|, perPage);
      if k >= n { Products(n, k, perPage); }
    }
    SwapPermitted(keys, chosen, order, b);
    orders := seq(n, i requires 0 <= i < n => if i == k then swapped else order);
    assert AllPermitted(keys, chosen, orders);
    var p := order[b - 1];
    OnBothPages(order, swapped, perPage, k);
    assert orders[k - 1] == order && orders[k] == swapped && p in order;
    assert p in Page(orders[k - 1], k - 1 + 1, perPage) && p in Page(orders[k], k + 1, perPage);
  }

  lemma SwapPermitted(keys: seq<Key>, chosen: set<nat>, order: seq<nat>, b: nat)
    requires Permitted(keys, chosen, order) && 0 < b < |order|
    requires !Before(keys[order[b - 1]], keys[order[b]])
    ensures Permitted(keys, chosen, order[b - 1 := order[b]][b := order[b - 1]])
  {
    var swapped := order[b - 1 := order[b]][b := order[b - 1]];
    assert order[b] in order && order[b - 1] in order;
    assert keys[order[b - 1]] == keys[order[b]];
    forall p ensures p in swapped <==> p in order {
      if p in order {
        var i :| 0 <= i < |order| && order[i] == p;
        assert swapped[if i == b then b - 1 else if i == b - 1 then b else i] == p;
      }
    }
    forall i | 0 <= i < |order|
      ensures keys[swapped[i]] == keys[order[i]]
      ensures swapped[i] == order[if i == b then b - 1 else if i == b - 1 then b else i]
    {
    }
  }

  /** Paging shows every matching row on exactly one page, whatever orderings the database picks for the
      requests, exactly when no tie straddles a page boundary. */
  lemma PagesPartitionIff(keys: seq<Key>, chosen: set<nat>, order: seq<nat>, perPage: nat)
    requires perPage >= 1 && Permitted(keys, chosen, order)
    ensures (forall orders :: AllPermitted(keys, chosen, orders) && |orders| == TotalPages(|chosen|, perPage)
                ==> EachOnce(chosen, orders, perPage))
       <==> Clean(keys, order, perPage)
  {
    PermittedLength(keys, chosen, order);
    if Clean(keys, order, perPage) {
      forall orders | AllPermitted(keys, chosen, orders) && |orders| == TotalPages(|chosen|, perPage)
        ensures EachOnce(chosen, orders, perPage)
      {
        CleanVisitsOnce(keys, chosen, order, orders, perPage);
      }
    } else {
      var k :| 1 <= k && k * perPage < |order|
               && !(k * perPage >= 1 && Before(keys[order[k * perPage - 1]], keys[order[k * perPage]]));
      Products(1, k, perPage);
      var orders := TieVisitsTwice(keys, chosen, order, perPage, k);
    }
  }

  /** Two rows with the same key on pages of one: each page may show the first row, and the second is never
      shown. */
  lemma TiedPagesRepeat(key: Key)
    ensures var keys, orders := [key, key], [[0, 1], [1, 0]];
            && AllPermitted(keys, {0, 1}, orders)
            && Page(orders[0], 1, 1) == [0] && Page(orders[1], 2, 1) == [0]
            && !EachOnce({0, 1}, orders, 1)
  {
    var orders: seq<seq<nat>> := [[0, 1], [1, 0]];
    assert Page(orders[0], 0 + 1, 1) == [0] && Page(orders[1], 1 + 1, 1) == [0];
    assert forall k :: OnlyOn(orders, 1, 1, k) ==> 1 in Page(orders[k], k + 1, 1);
  }

  // ---------------------------------------------------------------- distinct keys

  ghost predicate DistinctKeys(keys: seq<Key>, chosen: set<nat>)
    requires Matches(keys, chosen)
  {
    forall p, q :: p in chosen && q in chosen && p != q ==> keys[p] != keys[q]
  }

  function Concat<T>(pages: seq<seq<T>>): seq<T> {
    if pages == [] then [] else Concat(pages[..|pages| - 1]) + pages[|pages| - 1]
  }

  function FetchAll(orders: seq<seq<nat>>, perPage: nat): seq<seq<nat>> {
    seq(|orders|, k requires 0 <= k < |orders| => Page(orders[k], k + 1, perPage))
  }

  lemma PageExtends(order: seq<nat>, n: nat, perPage: nat)
    ensures order[..Min(n * perPage, |order|)] + Page(order, n + 1, perPage) == order[..Min((n + 1) * perPage, |order|)]
  {
    assert (n + 1) * perPage == n * perPage + perPage;
  }

  lemma {:induction false} PagesConcat(order: seq<nat>, orders: seq<seq<nat>>, perPage: nat)
    requires forall k :: 0 <= k < |orders| ==> orders[k] == order
    ensures Concat(FetchAll(orders, perPage)) == order[..Min(|orders| * perPage, |order|)]
  {
    if orders == [] {
    } else {
      var n := |orders| - 1;
      PagesConcat(order, orders[..n], perPage);
      assert FetchAll(orders, perPage)[..n] == FetchAll(orders[..n], perPage);
      PageExtends(order, n, perPage);
    }
  }

  /** When no two matching rows share severity and time, all orderings agree and pages 1..total_pages,
      fetched by separate requests, concatenate to the whole result in order. */
  lemma DistinctKeysConcatenate(keys: seq<Key>, chosen: set<nat>, order: seq<nat>, orders: seq<seq<nat>>, perPage: nat)
    requires perPage >= 1 && Permitted(keys, chosen, order) && AllPermitted(keys, chosen, orders)
    requires Matches(keys, chosen) && DistinctKeys(keys, chosen)
    requires |orders| == TotalPages(|chosen|, perPage)
    ensures Concat(FetchAll(orders, perPage)) == order
  {
    PermittedLength(keys, chosen, order);
    forall k | 0 <= k < |orders| ensures orders[k] == order {
      KeysDetermined(keys, chosen, order, orders[k]);
      forall i | 0 <= i < |order| ensures orders[k][i] == order[i] {
        assert orders[k][i] in orders[k] && order[i] in order;
      }
    }
    PagesConcat(order, orders, perPage);
    TotalPagesFit(|order|, perPage);
    assert order[..|order|] == order;
  }
}
