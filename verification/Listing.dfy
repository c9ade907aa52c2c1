/** get.go and service.go: the client-side tag filter, the cursor rule, and staleness. */
module Listing {
  import opened Types
  import opened Protocol
  import Safety
  import Mirror

  // ---- what the store lists ----

  /** The store lists newest first and no two update times are equal. */
  predicate NewestFirst(rows: seq<Item>) {
    forall i, j | 0 <= i < j < |rows| :: rows[i].updatedAt > rows[j].updatedAt
  }

  /** The rows strictly older than the cursor. */
  function Older(rows: seq<Item>, cursor: Option<Time>): seq<Item> {
    if cursor.None? || rows == [] then rows
    else (if rows[0].updatedAt < cursor.value then [rows[0]] else []) + Older(rows[1..], cursor)
  }

  function Take(rows: seq<Item>, limit: nat): seq<Item> {
    if |rows| <= limit then rows else rows[..limit]
  }

  const DEFAULT_PAGE := 50

  function Limit(pageSize: int): nat {
    if pageSize <= 0 then DEFAULT_PAGE else pageSize
  }

  /** GetEntitiesByType over a fixed listing. */
  method GetEntitiesByType(rows: seq<Item>, limit: nat, cursor: Option<Time>) returns (page: seq<Item>)
    ensures page == Take(Older(rows, cursor), limit)
  {
    page := Take(Older(rows, cursor), limit);
  }

  // ---- the tag filter ----

  function Matching(rows: seq<Item>, required: TagSet): seq<Item> {
    if rows == [] then []
    else (if HasAll(rows[0].tags, required) then [rows[0]] else []) + Matching(rows[1..], required)
  }

  lemma {:induction false} MatchingAppend(a: seq<Item>, b: seq<Item>, required: TagSet)
    ensures Matching(a + b, required) == Matching(a, required) + Matching(b, required)
    decreases |a|
  {
    if a == [] {
      assert a + b == b;
    } else {
      assert (a + b)[1..] == a[1..] + b;
      MatchingAppend(a[1..], b, required);
      assert forall h: seq<Item>, x: seq<Item>, y: seq<Item> :: h + (x + y) == (h + x) + y;
    }
  }

  method FilterByTags(rows: seq<Item>, tags: seq<Tag>) returns (filtered: seq<Item>)
    ensures filtered == Matching(rows, ToSet(tags))
  {
    var required := ToSet(tags);
    filtered := [];
    for i := 0 to |rows|
      invariant filtered == Matching(rows[..i], required)
    {
      assert rows[..i + 1] == rows[..i] + [rows[i]];
      MatchingAppend(rows[..i], [rows[i]], required);
      if HasAll(rows[i].tags, required) {
        filtered := filtered + [rows[i]];
      }
    }
    assert rows[..|rows|] == rows;
  }

  /** The filtered rows are those of the listing that have every required tag among their tags. */
  lemma {:induction false} FilteredRowsHaveAllTags(rows: seq<Item>, tags: seq<Tag>, r: Item)
    ensures r in Matching(rows, ToSet(tags)) <==> r in rows && forall t | t in tags :: t in r.tags
    decreases |rows|
  {
    if rows != [] {
      FilteredRowsHaveAllTags(rows[1..], tags, r);
      assert HasAll(rows[0].tags, ToSet(tags)) <==> forall t | t in tags :: t in rows[0].tags;
      assert r in rows <==> r == rows[0] || r in rows[1..];
    }
  }

  /** Filtering by two lists of tags is filtering by one and then by the other. */
  lemma {:induction false} FilterTwice(rows: seq<Item>, a: seq<Tag>, b: seq<Tag>)
    ensures Matching(rows, ToSet(a + b)) == Matching(Matching(rows, ToSet(a)), ToSet(b))
    decreases |rows|
  {
    if rows != [] {
      FilterTwice(rows[1..], a, b);
      assert ToSet(a + b) == ToSet(a) + ToSet(b);
      var head := if HasAll(rows[0].tags, ToSet(a)) then [rows[0]] else [];
      MatchingAppend(head, Matching(rows[1..], ToSet(a)), ToSet(b));
    }
  }

  predicate AllMatch(rows: seq<Item>, required: TagSet) {
    forall i | 0 <= i < |rows| :: HasAll(rows[i].tags, required)
  }

  predicate NoneMatch(rows: seq<Item>, required: TagSet) {
    forall i | 0 <= i < |rows| :: !HasAll(rows[i].tags, required)
  }

  /** The filter drops nothing exactly when everything matches, and everything exactly when nothing does. */
  lemma {:induction false} MatchingCounts(rows: seq<Item>, required: TagSet)
    ensures |Matching(rows, required)| <= |rows|
    ensures |Matching(rows, required)| == |rows| <==> AllMatch(rows, required)
    ensures AllMatch(rows, required) ==> Matching(rows, required) == rows
    ensures Matching(rows, required) == [] <==> NoneMatch(rows, required)
    decreases |rows|
  {
    hide HasAll;
    if rows != [] {
      var tail := rows[1..];
      MatchingCounts(tail, required);
      assert AllMatch(rows, required) <==> HasAll(rows[0].tags, required) && AllMatch(tail, required) by {
        assert forall i | 0 < i < |rows| :: rows[i] == tail[i - 1];
      }
      assert NoneMatch(rows, required) <==> !HasAll(rows[0].tags, required) && NoneMatch(tail, required) by {
        assert forall i | 0 < i < |rows| :: rows[i] == tail[i - 1];
      }
      assert rows == [rows[0]] + tail;
    }
  }

  // ---- listing ----

  function Listed(rows: seq<Item>, tags: seq<Tag>, pageSize: int, cursor: Option<Time>): seq<Item> {
    var page := Take(Older(rows, cursor), Limit(pageSize));
    if |tags| > 0 then Matching(page, ToSet(tags)) else page
  }

  method ListByTags(rows: seq<Item>, tags: seq<Tag>, pageSize: int, cursor: Option<Time>) returns (items: seq<Item>)
    ensures items == Listed(rows, tags, pageSize, cursor)
  {
    var size := pageSize;
    if size <= 0 {
      size := DEFAULT_PAGE;
    }
    items := GetEntitiesByType(rows, size, cursor);
    if |tags| > 0 {
      items := FilterByTags(items, tags);
    }
  }

  /** Without a positive page size a listing is the newest 50 rows, filtered. */
  lemma DefaultPage(rows: seq<Item>, tags: seq<Tag>, pageSize: int)
    requires pageSize <= 0
    ensures Listed(rows, tags, pageSize, None) == Listed(rows, tags, 50, None)
    ensures |rows| > 50 ==> Listed(rows, [], pageSize, None) == rows[..50]
    ensures |rows| <= 50 ==> Listed(rows, [], pageSize, None) == rows
  {
  }

  /** A cursor is handed out only for a positive page size, and only when the filtered page is full. */
  function NextCursor(items: seq<Item>, pageSize: int): Option<Time> {
    if pageSize > 0 && |items| == pageSize then Some(items[|items| - 1].updatedAt) else None
  }

  method ListItems(rows: seq<Item>, tags: seq<Tag>, pageSize: int, cursor: Option<Time>)
    returns (items: seq<Item>, nextCursor: Option<Time>)
    ensures items == Listed(rows, tags, pageSize, cursor)
    ensures nextCursor == NextCursor(items, pageSize)
  {
    items := ListByTags(rows, tags, pageSize, cursor);
    nextCursor := None;
    if pageSize > 0 && |items| == pageSize {
      var last := items[|items| - 1].updatedAt;
      nextCursor := Some(last);
    }
  }

  // ---- following the cursor ----

  lemma {:induction false} OlderIsNoLonger(rows: seq<Item>, c: Option<Time>, u: Time)
    requires c.None? || u <= c.value
    ensures |Older(rows, Some(u))| <= |Older(rows, c)|
    decreases |rows|
  {
    if rows != [] {
      OlderIsNoLonger(rows[1..], c, u);
    }
  }

  /** A cursor taken from a listed row leaves strictly fewer rows. */
  lemma {:induction false} OlderShrinks(rows: seq<Item>, c: Option<Time>, r: Item)
    requires r in Older(rows, c)
    ensures |Older(rows, Some(r.updatedAt))| < |Older(rows, c)|
    ensures c.None? || r.updatedAt < c.value
    decreases |rows|
  {
    if r == rows[0] && (c.None? || rows[0].updatedAt < c.value) {
      OlderIsNoLonger(rows[1..], c, r.updatedAt);
    } else {
      if c.None? {
        assert r in rows[1..] && Older(rows[1..], c) == rows[1..];
      }
      OlderShrinks(rows[1..], c, r);
    }
  }

  lemma {:induction false} MatchingIsPart(rows: seq<Item>, required: TagSet, r: Item)
    requires r in Matching(rows, required)
    ensures r in rows
    decreases |rows|
  {
    if !(HasAll(rows[0].tags, required) && r == rows[0]) {
      MatchingIsPart(rows[1..], required, r);
    }
  }

  lemma CursorShrinks(rows: seq<Item>, tags: seq<Tag>, p: int, cursor: Option<Time>)
    requires NextCursor(Listed(rows, tags, p, cursor), p).Some?
    ensures |Older(rows, NextCursor(Listed(rows, tags, p, cursor), p))| < |Older(rows, cursor)|
  {
    var items := Listed(rows, tags, p, cursor);
    var r := items[|items| - 1];
    if |tags| > 0 {
      MatchingIsPart(Take(Older(rows, cursor), Limit(p)), ToSet(tags), r);
    }
    OlderShrinks(rows, cursor, r);
  }

  /** All items a client sees by following next cursors, and how many calls it makes. */
  function Walk(rows: seq<Item>, tags: seq<Tag>, p: int, cursor: Option<Time>): (seq<Item>, nat)
    decreases |Older(rows, cursor)|
  {
    var items := Listed(rows, tags, p, cursor);
    var next := NextCursor(items, p);
    if next.None? then (items, 1)
    else
      CursorShrinks(rows, tags, p, cursor);
      var rest := Walk(rows, tags, p, next);
      (items + rest.0, 1 + rest.1)
  }

  /** How many rows a walk looks at: all pages up to the first one short or not wholly matching. */
  function Reach(rows: seq<Item>, required: TagSet, p: nat): (n: nat)
    requires p > 0
    ensures n <= |rows|
    decreases |rows|
  {
    if |rows| < p then |rows|
    else if AllMatch(rows[..p], required) then p + Reach(rows[p..], required, p)
    else p
  }

  lemma {:induction false} OlderThanRow(rows: seq<Item>, k: nat)
    requires k < |rows| && NewestFirst(rows)
    ensures Older(rows, Some(rows[k].updatedAt)) == rows[k + 1..]
    decreases |rows|
  {
    if k > 0 {
      assert rows[1..][k - 1] == rows[k];
      OlderThanRow(rows[1..], k - 1);
      assert rows[1..][k..] == rows[k + 1..];
    } else {
      AllOlder(rows[1..], rows[0].updatedAt);
    }
  }

  lemma {:induction false} AllOlder(rows: seq<Item>, u: Time)
    requires forall i | 0 <= i < |rows| :: rows[i].updatedAt < u
    ensures Older(rows, Some(u)) == rows
    decreases |rows|
  {
    if rows != [] {
      AllOlder(rows[1..], u);
    }
  }

  /** What a page holds, with tags or without. */
  lemma PageOf(rows: seq<Item>, tags: seq<Tag>, p: nat, cursor: Option<Time>)
    requires p > 0
    ensures Listed(rows, tags, p, cursor) == Matching(Take(Older(rows, cursor), p), ToSet(tags))
  {
    hide HasAll, Older;
    if |tags| == 0 {
      assert ToSet(tags) == {};
      EverythingMatches(Take(Older(rows, cursor), p));
    }
  }

  lemma EverythingMatches(rows: seq<Item>)
    ensures AllMatch(rows, {}) && Matching(rows, {}) == rows
  {
    MatchingCounts(rows, {});
  }

  /** The page of a walk that has k rows behind it, and where it goes on. */
  lemma PageAt(rows: seq<Item>, tags: seq<Tag>, p: nat, cursor: Option<Time>, k: nat)
    requires p > 0 && k <= |rows| && NewestFirst(rows) && Older(rows, cursor) == rows[k..]
    ensures var page, required := Take(rows[k..], p), ToSet(tags);
      var items := Listed(rows, tags, p, cursor);
      && items == Matching(page, required)
      && (NextCursor(items, p).Some? <==> k + p <= |rows| && AllMatch(page, required))
      && (NextCursor(items, p).Some? ==> items == page && Older(rows, NextCursor(items, p)) == rows[k + p..])
  {
    hide Listed, NewestFirst, AllMatch, Matching, Older;
    var page := Take(rows[k..], p);
    PageOf(rows, tags, p, cursor);
    MatchingCounts(page, ToSet(tags));
    if k + p <= |rows| {
      assert page[p - 1] == rows[k + p - 1];
      OlderThanRow(rows, k + p - 1);
    }
  }

  /** What a walk reaches, page by page. */
  function Reached(tail: seq<Item>, required: TagSet, p: nat): seq<Item>
    requires p > 0
  {
    Matching(tail[..Reach(tail, required, p)], required)
  }

  lemma ReachedStep(tail: seq<Item>, required: TagSet, p: nat)
    requires p > 0
    ensures Reached(tail, required, p) ==
            Matching(Take(tail, p), required) +
            (if |tail| >= p && AllMatch(tail[..p], required) then Reached(tail[p..], required, p) else [])
  {
    var page, n := Take(tail, p), Reach(tail, required, p);
    if |tail| >= p && AllMatch(tail[..p], required) {
      assert page == tail[..p] && tail[..n] == page + tail[p..][..n - p];
      MatchingAppend(page, tail[p..][..n - p], required);
    } else {
      assert page == tail[..n];
    }
  }

  lemma WalkStep(rows: seq<Item>, tags: seq<Tag>, p: int, cursor: Option<Time>)
    ensures var items := Listed(rows, tags, p, cursor);
      var next := NextCursor(items, p);
      Walk(rows, tags, p, cursor) ==
        if next.None? then (items, 1)
        else (items + Walk(rows, tags, p, next).0, 1 + Walk(rows, tags, p, next).1)
  {
  }

  /** When a walk that has k rows behind it goes on, and with what behind it. */
  lemma GoesOn(rows: seq<Item>, tags: seq<Tag>, p: nat, cursor: Option<Time>, k: nat)
    requires p > 0 && k <= |rows| && NewestFirst(rows) && Older(rows, cursor) == rows[k..]
    ensures var tail, next := rows[k..], NextCursor(Listed(rows, tags, p, cursor), p);
      && (next.Some? <==> |tail| >= p && AllMatch(tail[..p], ToSet(tags)))
      && (next.Some? ==> Older(rows, next) == rows[k + p..] == tail[p..])
  {
    hide NewestFirst, Listed, NextCursor, AllMatch, Older;
    PageAt(rows, tags, p, cursor, k);
    if k + p <= |rows| {
      assert Take(rows[k..], p) == rows[k..][..p];
    }
  }

  /** A walk that has k rows behind it. */
  lemma {:induction false} WalkFrom(rows: seq<Item>, tags: seq<Tag>, p: nat, cursor: Option<Time>, k: nat)
    requires p > 0 && k <= |rows| && NewestFirst(rows) && Older(rows, cursor) == rows[k..]
    ensures Walk(rows, tags, p, cursor).0 == Reached(rows[k..], ToSet(tags), p)
    decreases |rows| - k
  {
    hide *;
    GoesOn(rows, tags, p, cursor, k);
    PageAt(rows, tags, p, cursor, k);
    WalkStep(rows, tags, p, cursor);
    ReachedStep(rows[k..], ToSet(tags), p);
    var next := NextCursor(Listed(rows, tags, p, cursor), p);
    if next.Some? {
      WalkFrom(rows, tags, p, next, k + p);
    } else {
      assert Matching(Take(rows[k..], p), ToSet(tags)) + [] == Matching(Take(rows[k..], p), ToSet(tags));
    }
  }

  /** Full pages in n rows. */
  function FullPages(n: nat, p: nat): nat
    requires p > 0
  {
    if n < p then 0 else 1 + FullPages(n - p, p)
  }

  lemma {:induction false} FullPagesDivides(n: nat, p: nat)
    requires p > 0
    ensures FullPages(n, p) == n / p
  {
    if n >= p {
      FullPagesDivides(n - p, p);
      QuotientAfter(n - p, p);
    }
  }

  lemma QuotientAfter(m: nat, p: nat)
    requires p > 0
    ensures (m + p) / p == m / p + 1 && (m + p) % p == m % p
  {
    var q, q' := m / p, (m + p) / p;
    assert m == p * q + m % p && m + p == p * q' + (m + p) % p;
    var d := q' - q - 1;
    assert p * q' == p * q + p + p * d;
    MultipleIsFar(p, d);
  }

  /** A multiple of p by anything but 0 is at least p away from 0. */
  lemma MultipleIsFar(p: nat, d: int)
    requires p > 0
    ensures d > 0 ==> p * d >= p
    ensures d < 0 ==> p * d <= -(p as int)
  {
  }

  /** The last page a walk reaches is full, and something on it does not match. */
  predicate EndsOnMismatch(tail: seq<Item>, required: TagSet, p: nat)
    requires p > 0
  {
    var n := Reach(tail, required, p);
    n >= p && InFull(n, p) && !AllMatch(tail[n - p..n], required)
  }

  /** n rows fill pages of p rows with none left over. */
  predicate InFull(n: nat, p: nat)
    requires p > 0
  {
    n % p == 0
  }

  lemma InFullStep(m: nat, p: nat)
    requires p > 0
    ensures InFull(m + p, p) == InFull(m, p)
    ensures m < p ==> (InFull(m, p) <==> m == 0)
  {
    QuotientAfter(m, p);
    if m < p {
      NoQuotient(m, p);
    }
  }

  lemma EndsOnMismatchStep(tail: seq<Item>, required: TagSet, p: nat)
    requires p > 0
    ensures EndsOnMismatch(tail, required, p) ==
            (|tail| >= p && if AllMatch(tail[..p], required) then EndsOnMismatch(tail[p..], required, p) else true)
  {
    hide InFull, AllMatch;
    var n := Reach(tail, required, p);
    InFullStep(0, p);
    if |tail| >= p && AllMatch(tail[..p], required) {
      var m := Reach(tail[p..], required, p);
      InFullStep(m, p);
      if m >= p {
        assert tail[p..][m - p..m] == tail[n - p..n];
      } else {
        assert tail[n - p..n] == tail[m..m + p];
      }
    } else if |tail| >= p {
      assert n == p && tail[n - p..n] == tail[..p];
    }
  }

  lemma NoQuotient(m: nat, p: nat)
    requires m < p
    ensures m / p == 0 && m % p == m
  {
  }

  /** One call a full page reached, and one more unless the walk ends on a full page that does not match wholly. */
  function Calls(tail: seq<Item>, required: TagSet, p: nat): nat
    requires p > 0
  {
    FullPages(Reach(tail, required, p), p) + (if EndsOnMismatch(tail, required, p) then 0 else 1)
  }

  lemma CallsStep(tail: seq<Item>, required: TagSet, p: nat)
    requires p > 0
    ensures Calls(tail, required, p) ==
            1 + (if |tail| >= p && AllMatch(tail[..p], required) then Calls(tail[p..], required, p) else 0)
  {
    hide EndsOnMismatch, AllMatch;
    EndsOnMismatchStep(tail, required, p);
    assert FullPages(p, p) == 1 + FullPages(0, p);
  }

  /** How many calls a walk still makes. */
  lemma {:induction false} CallsFrom(rows: seq<Item>, tags: seq<Tag>, p: nat, cursor: Option<Time>, k: nat)
    requires p > 0 && k <= |rows| && NewestFirst(rows) && Older(rows, cursor) == rows[k..]
    ensures Walk(rows, tags, p, cursor).1 == Calls(rows[k..], ToSet(tags), p)
    decreases |rows| - k
  {
    hide *;
    GoesOn(rows, tags, p, cursor, k);
    WalkStep(rows, tags, p, cursor);
    CallsStep(rows[k..], ToSet(tags), p);
    var next := NextCursor(Listed(rows, tags, p, cursor), p);
    if next.Some? {
      CallsFrom(rows, tags, p, next, k + p);
    }
  }

  /**
   * Following next_cursor with no tags visits every item exactly once, in order, in exactly
   * floor(n / p) + 1 calls.
   */
  lemma WalkVisitsAll(rows: seq<Item>, p: nat)
    requires p > 0 && NewestFirst(rows)
    ensures Walk(rows, [], p, None) == (rows, |rows| / p + 1)
  {
    hide EndsOnMismatch, Walk, FullPages;
    assert rows[0..] == rows && rows[..|rows|] == rows && ToSet([]) == {};
    WalkFrom(rows, [], p, None, 0);
    CallsFrom(rows, [], p, None, 0);
    ReachAll(rows, p);
    FullPagesDivides(|rows|, p);
    MatchingCounts(rows, {});
    NeverEndsOnMismatch(rows, p);
  }

  lemma NeverEndsOnMismatch(rows: seq<Item>, p: nat)
    requires p > 0
    ensures !EndsOnMismatch(rows, {}, p)
  {
    hide InFull;
    EverythingMatches(rows);
  }

  lemma {:induction false} ReachAll(rows: seq<Item>, p: nat)
    requires p > 0
    ensures Reach(rows, {}, p) == |rows|
    decreases |rows|
  {
    if |rows| >= p {
      ReachAll(rows[p..], p);
    }
  }

  /**
   * With tags, a walk returns exactly the filter of the rows it reaches, in one call a full page
   * reached and one more unless the last of these pages does not match wholly. It is the filter of
   * the whole listing exactly when nothing beyond its reach matches.
   */
  lemma WalkWithTags(rows: seq<Item>, tags: seq<Tag>, p: nat)
    requires p > 0 && NewestFirst(rows)
    ensures var required := ToSet(tags);
      var n := Reach(rows, required, p);
      && Walk(rows, tags, p, None).0 == Matching(rows[..n], required)
      && (Walk(rows, tags, p, None).0 == Matching(rows, required) <==> NoneMatch(rows[n..], required))
      && Walk(rows, tags, p, None).1 == n / p + (if EndsOnMismatch(rows, required, p) then 0 else 1)
  {
    hide EndsOnMismatch, Walk;
    var required := ToSet(tags);
    assert rows[0..] == rows;
    WalkFrom(rows, tags, p, None, 0);
    CallsFrom(rows, tags, p, None, 0);
    FullPagesDivides(Reach(rows, required, p), p);
    var n := Reach(rows, required, p);
    assert rows == rows[..n] + rows[n..];
    MatchingAppend(rows[..n], rows[n..], required);
    MatchingCounts(rows[n..], required);
    if Matching(rows[..n], required) == Matching(rows, required) {
      assert |Matching(rows[n..], required)| == 0;
    }
  }

  // ---- staleness ----

  predicate LastEventBefore(item: Item, cutoff: Time) {
    var events := item.doc.events;
    if |events| == 0 then item.createdAt < cutoff
    else
      var last := events[|events| - 1];
      if last.at.None? then item.createdAt < cutoff else last.at.value < cutoff
  }

  function StaleOf(items: seq<Item>, cutoff: Time): seq<Item> {
    if items == [] then []
    else (if LastEventBefore(items[0], cutoff) then [items[0]] else []) + StaleOf(items[1..], cutoff)
  }

  lemma {:induction false} StaleAppend(a: seq<Item>, b: seq<Item>, cutoff: Time)
    ensures StaleOf(a + b, cutoff) == StaleOf(a, cutoff) + StaleOf(b, cutoff)
    decreases |a|
  {
    if a == [] {
      assert a + b == b;
    } else {
      assert (a + b)[1..] == a[1..] + b;
      StaleAppend(a[1..], b, cutoff);
      assert forall h: seq<Item>, x: seq<Item>, y: seq<Item> :: h + (x + y) == (h + x) + y;
    }
  }

  method Stale(rows: seq<Item>, tags: seq<Tag>, age: int, pageSize: int, cursor: Option<Time>, now: Time)
    returns (stale: seq<Item>)
    ensures stale == StaleOf(Listed(rows, tags, pageSize, cursor), now - age)
  {
    hide Listed, Older, Matching, LastEventBefore;
    var items := ListByTags(rows, tags, pageSize, cursor);
    var cutoff := now - age;
    stale := [];
    for i := 0 to |items|
      invariant stale == StaleOf(items[..i], cutoff)
    {
      assert items[..i + 1] == items[..i] + [items[i]];
      StaleAppend(items[..i], [items[i]], cutoff);
      if LastEventBefore(items[i], cutoff) {
        stale := stale + [items[i]];
      }
    }
    assert items[..|items|] == items;
  }

  predicate AllEventsBefore(log: seq<Event>, cutoff: Time) {
    forall i | 0 <= i < |log| :: log[i].at.Some? && log[i].at.value < cutoff
  }

  /** On a sorted log the last event speaks for all of them. */
  lemma LastSpeaksForAll(item: Item, cutoff: Time, bound: Time)
    requires item.doc.events != [] && Safety.SortedUpTo(item.doc.events, bound)
    ensures LastEventBefore(item, cutoff) <==> AllEventsBefore(item.doc.events, cutoff)
  {
  }

  /** An item without events, or whose last event has no time, goes by its creation time. */
  lemma UnstampedGoesByCreation(item: Item, cutoff: Time)
    requires item.doc.events == [] || item.doc.events[|item.doc.events| - 1].at == None
    ensures LastEventBefore(item, cutoff) <==> item.createdAt < cutoff
  {
  }

  /** The items all of whose events are before the cutoff, in order. */
  function Quiet(items: seq<Item>, cutoff: Time): seq<Item> {
    if items == [] then []
    else (if AllEventsBefore(items[0].doc.events, cutoff) then [items[0]] else []) + Quiet(items[1..], cutoff)
  }

  lemma {:induction false} StaleIsQuiet(items: seq<Item>, cutoff: Time, bound: Time)
    requires forall r | r in items :: r.doc.events != [] && Safety.SortedUpTo(r.doc.events, bound)
    ensures StaleOf(items, cutoff) == Quiet(items, cutoff)
    decreases |items|
  {
    if items != [] {
      assert items[0] in items && forall r | r in items[1..] :: r in items;
      LastSpeaksForAll(items[0], cutoff, bound);
      StaleIsQuiet(items[1..], cutoff, bound);
    }
  }

  lemma {:induction false} OlderIsPart(rows: seq<Item>, cursor: Option<Time>)
    ensures forall r | r in Older(rows, cursor) :: r in rows
    decreases |rows|
  {
    if rows != [] {
      OlderIsPart(rows[1..], cursor);
    }
  }

  lemma ListedIsPart(rows: seq<Item>, tags: seq<Tag>, pageSize: int, cursor: Option<Time>)
    ensures forall r | r in Listed(rows, tags, pageSize, cursor) :: r in rows
  {
    var page := Take(Older(rows, cursor), Limit(pageSize));
    OlderIsPart(rows, cursor);
    forall r | r in Listed(rows, tags, pageSize, cursor) ensures r in rows {
      if |tags| > 0 {
        MatchingIsPart(page, ToSet(tags), r);
      }
    }
  }

  /** The rows are the stored inbox items of some ids, as they stand in the store. */
  predicate AreStored(rows: seq<Item>, store: Store) {
    forall r | r in rows :: IsInboxSlot(Lookup(store, r.id)) && r == ItemOf(r.id, store[r.id])
  }

  /**
   * In every interleaving, overlapping or not and whatever its events are called, in which no preset
   * time was written out of order, as the service writes none: Stale keeps of a page, in order,
   * exactly the items all of whose events are before the cutoff.
   */
  lemma StaleMeansQuiet(calls: seq<Op>, store: Store, labels: seq<Label>, start: Time, n: nat, rows: seq<Item>,
                         tags: seq<Tag>, pageSize: int, cursor: Option<Time>, cutoff: Time)
    requires n <= |labels| && Runs(calls, labels) && Safety.OnTime(calls, store, labels, start)
    requires AreStored(rows, At(calls, store, labels, n).store)
    requires forall r | r in rows ::
      && (forall m: nat | m < n :: !Safety.MisplacedAt(calls, store, labels, m, r.id))
      && Safety.SlotSorted(Lookup(store, r.id), start) && Safety.SlotLogged(Lookup(store, r.id))
    ensures var page := Listed(rows, tags, pageSize, cursor); StaleOf(page, cutoff) == Quiet(page, cutoff)
  {
    hide Exec;
    var page, s, clock := Listed(rows, tags, pageSize, cursor), At(calls, store, labels, n), Safety.Clock(labels, start, n);
    ListedIsPart(rows, tags, pageSize, cursor);
    forall r | r in page ensures r.doc.events != [] && Safety.SortedUpTo(r.doc.events, clock) {
      assert r in rows;
      Safety.LogsAreNeverEmpty(calls, store, labels, n, r.id);
      Safety.LogsAreSortedIff(calls, store, labels, start, n, r.id);
      assert Safety.SortedAfter(calls, store, labels, start, n, r.id);
    }
    StaleIsQuiet(page, cutoff, clock);
  }

  /** A larger age keeps a part, in order, of what a smaller age keeps. */
  lemma {:induction false} LargerAgeKeepsFewer(items: seq<Item>, now: Time, age: int, larger: int)
    requires age <= larger
    ensures StaleOf(StaleOf(items, now - age), now - larger) == StaleOf(items, now - larger)
    decreases |items|
  {
    if items != [] {
      LargerAgeKeepsFewer(items[1..], now, age, larger);
      StaleAppend(if LastEventBefore(items[0], now - age) then [items[0]] else [], StaleOf(items[1..], now - age), now - larger);
    }
  }

  // ---- the status filter ----

  function WithStatus(rows: seq<Item>, status: string): seq<Item> {
    if rows == [] then []
    else (if rows[0].doc.status == status then [rows[0]] else []) + WithStatus(rows[1..], status)
  }

  lemma {:induction false} MirroredRowsFilter(rows: seq<Item>, status: string)
    requires forall i | 0 <= i < |rows| :: Mirror.MirrorsStatus(rows[i].tags, rows[i].doc.status)
    ensures Matching(rows, {Tag(STATUS, status)}) == WithStatus(rows, status)
    decreases |rows|
  {
    if rows != [] {
      Mirror.StatusTagSelectsStatus(rows[0].tags, rows[0].doc.status, status);
      MirroredRowsFilter(rows[1..], status);
    }
  }

  /**
   * In every interleaving without a straddled event-only write, filtering any listing of the stored
   * items by status:s selects exactly the items whose status field is s.
   */
  lemma StatusFilterSelectsByField(calls: seq<Op>, store: Store, labels: seq<Label>, n: nat, rows: seq<Item>, status: string)
    requires n <= |labels| && Runs(calls, labels)
    requires AreStored(rows, At(calls, store, labels, n).store)
    requires forall r | r in rows ::
      && Mirror.AllLeaveKeyAlone(calls, STATUS, r.id)
      && Mirror.NoStraddle(calls, store, labels, r.id)
      && Mirror.SlotMirrored(Lookup(store, r.id))
    ensures Matching(rows, {Tag(STATUS, status)}) == WithStatus(rows, status)
  {
    forall i | 0 <= i < |rows| ensures Mirror.MirrorsStatus(rows[i].tags, rows[i].doc.status) {
      assert rows[i] in rows;
      Mirror.StatusTagMirrorsStatus(calls, store, labels, n, rows[i].id);
    }
    MirroredRowsFilter(rows, status);
  }
}
