/** Listing tasks in pages: the order the store pages on, and what following the cursor yields. */
module WorkbenchPages {
  import opened Options
  import opened Decimal
  import opened WorkbenchStore
  import opened WorkbenchRuns

  datatype Order = ByPosition | ByCompletion | ByUpdate

  /** `<` on strings, unit by unit. */
  predicate TextBefore(a: string, b: string) {
    if b == [] then false
    else if a == [] then true
    else a[0] < b[0] || (a[0] == b[0] && TextBefore(a[1..], b[1..]))
  }

  /** The number a list is ordered by; completion and update times run newest first. */
  function Key(order: Order, t: Task): int {
    match order
    case ByPosition => t.position
    case ByCompletion => -GetOr(t.completedAt, 0)
    case ByUpdate => -t.updatedAt
  }

  /** Whether the comparator puts `a` before `b`. */
  predicate Precedes(order: Order, a: Task, b: Task) {
    Key(order, a) < Key(order, b) || (Key(order, a) == Key(order, b) && TextBefore(a.id, b.id))
  }

  lemma {:induction false} TextBeforeIsStrict(a: string, b: string)
    ensures !(TextBefore(a, b) && TextBefore(b, a))
    ensures a == b || TextBefore(a, b) || TextBefore(b, a)
    ensures !TextBefore(a, a)
  {
    if a != [] && b != [] {
      TextBeforeIsStrict(a[1..], b[1..]);
      assert a == [a[0]] + a[1..] && b == [b[0]] + b[1..];
    }
    if a != [] { TextBeforeIsStrict(a[1..], a[1..]); }
  }

  lemma {:induction false} TextBeforeTransitive(a: string, b: string, c: string)
    requires TextBefore(a, b) && TextBefore(b, c)
    ensures TextBefore(a, c)
  {
    if a != [] && a[0] == b[0] && b[0] == c[0] { TextBeforeTransitive(a[1..], b[1..], c[1..]); }
  }

  /** The comparator is a strict total order on tasks with distinct ids. */
  lemma ComparatorIsTotal(order: Order, a: Task, b: Task, c: Task)
    ensures !(Precedes(order, a, b) && Precedes(order, b, a))
    ensures a.id != b.id ==> Precedes(order, a, b) || Precedes(order, b, a)
    ensures Precedes(order, a, b) && Precedes(order, b, c) ==> Precedes(order, a, c)
  {
    TextBeforeIsStrict(a.id, b.id);
    if TextBefore(a.id, b.id) && TextBefore(b.id, c.id) { TextBeforeTransitive(a.id, b.id, c.id); }
  }

  function Insert(order: Order, t: Task, sorted: seq<Task>): seq<Task> {
    if sorted == [] then [t]
    else if Precedes(order, sorted[0], t) then [sorted[0]] + Insert(order, t, sorted[1..])
    else [t] + sorted
  }

  function Sorted(order: Order, ts: seq<Task>): seq<Task> {
    if ts == [] then [] else Insert(order, ts[0], Sorted(order, ts[1..]))
  }

  ghost predicate Ordered(order: Order, ts: seq<Task>) {
    forall i, j :: 0 <= i < j < |ts| ==> Precedes(order, ts[i], ts[j])
  }

  lemma {:induction false} InsertMembers(order: Order, t: Task, sorted: seq<Task>)
    ensures multiset(Insert(order, t, sorted)) == multiset(sorted) + multiset{t}
    ensures forall u :: u in Insert(order, t, sorted) <==> u in sorted || u == t
  {
    hide Precedes;
    if sorted != [] {
      assert sorted == [sorted[0]] + sorted[1..];
      InsertMembers(order, t, sorted[1..]);
    }
  }

  lemma {:induction false} InsertKeepsOrder(order: Order, t: Task, sorted: seq<Task>)
    requires Ordered(order, sorted) && forall u <- sorted :: u.id != t.id
    ensures Ordered(order, Insert(order, t, sorted))
  {
    hide Precedes;
    if sorted != [] {
      if Precedes(order, sorted[0], t) {
        InsertKeepsOrder(order, t, sorted[1..]);
        InsertMembers(order, t, sorted[1..]);
        forall u | u in Insert(order, t, sorted[1..]) ensures Precedes(order, sorted[0], u) {}
      } else {
        ComparatorIsTotal(order, sorted[0], t, t);
        forall u | u in sorted ensures Precedes(order, t, u) {
          ComparatorIsTotal(order, t, sorted[0], u);
        }
      }
    }
  }

  /** Sorting rearranges the tasks into the comparator's order. */
  lemma {:induction false} SortedIsOrdered(order: Order, ts: seq<Task>)
    requires DistinctIds(ts)
    ensures Ordered(order, Sorted(order, ts))
    ensures multiset(Sorted(order, ts)) == multiset(ts)
  {
    if ts != [] {
      SortedIsOrdered(order, ts[1..]);
      assert ts == [ts[0]] + ts[1..];
      var sorted := Sorted(order, ts[1..]);
      forall u | u in sorted ensures u.id != ts[0].id {
        assert u in multiset(sorted);
        assert u in ts[1..];
      }
      InsertKeepsOrder(order, ts[0], sorted);
      InsertMembers(order, ts[0], sorted);
    }
  }

  /** There is only one such arrangement, so any correct sort gives this list. */
  lemma {:induction false} OrderIsUnique(order: Order, a: seq<Task>, b: seq<Task>)
    requires Ordered(order, a) && Ordered(order, b) && multiset(a) == multiset(b)
    ensures a == b
  {
    if a == [] {
      assert |multiset(b)| == 0;
    } else {
      assert |multiset(a)| == |a| && |multiset(b)| == |b|;
      assert a[0] in multiset(b) && b[0] in multiset(a);
      if a[0] != b[0] {
        assert a[0] in b[1..] && b[0] in a[1..] by {
          assert b == [b[0]] + b[1..] && a == [a[0]] + a[1..];
        }
        ComparatorIsTotal(order, a[0], b[0], a[0]);
        assert false;
      }
      assert a == [a[0]] + a[1..] && b == [b[0]] + b[1..];
      assert multiset(a[1..]) == multiset(a) - multiset{a[0]};
      OrderIsUnique(order, a[1..], b[1..]);
    }
  }

  // ---- Filtering ---------------------------------------------------------------------------------

  /** What a list request asks for. The text search is an arbitrary test on titles, and a workspace
      stands for the repositories of the one workspace the handler knows. */
  datatype Query = Query(
    deleted: bool, status: Option<string>, archived: Option<bool>, repository: Option<Id>,
    workspace: Option<seq<Id>>, title: Option<Option<string> -> bool>, order: Order)

  predicate Matches(s: Store, q: Query, t: Task) {
    && (t.id in s.deleted) == q.deleted
    && (q.status.Some? ==> t.status == q.status.value)
    && (q.archived.Some? ==> t.archived == q.archived.value)
    && (q.repository.Some? ==> q.repository.value in t.repositoryIds)
    && (q.workspace.Some? ==> exists id :: id in t.repositoryIds && id in q.workspace.value)
    && (q.title.Some? ==> q.title.value(t.texts.title))
  }

  function Filtered(s: Store, q: Query, ts: seq<Task>): seq<Task> {
    if ts == [] then [] else (if Matches(s, q, ts[0]) then [ts[0]] else []) + Filtered(s, q, ts[1..])
  }

  function Listing(s: Store, q: Query): seq<Task> {
    Sorted(q.order, Filtered(s, q, s.tasks))
  }

  lemma {:induction false} FilteredMembers(s: Store, q: Query, ts: seq<Task>)
    requires DistinctIds(ts)
    ensures DistinctIds(Filtered(s, q, ts))
    ensures forall t :: t in Filtered(s, q, ts) <==> t in ts && Matches(s, q, t)
  {
    hide Matches;
    if ts != [] {
      FilteredMembers(s, q, ts[1..]);
      var rest := Filtered(s, q, ts[1..]);
      forall j | 0 <= j < |rest| ensures rest[j].id != ts[0].id {
        assert rest[j] in ts[1..];
      }
    }
  }

  /** A listing holds exactly the matching tasks, each once, in the comparator's order. */
  lemma ListingIsExact(s: Store, q: Query)
    requires DistinctIds(s.tasks)
    ensures forall t :: t in Listing(s, q) <==> t in s.tasks && Matches(s, q, t)
    ensures Ordered(q.order, Listing(s, q)) && DistinctIds(Listing(s, q))
  {
    hide Matches, Precedes;
    FilteredMembers(s, q, s.tasks);
    SortedIsOrdered(q.order, Filtered(s, q, s.tasks));
    var listing := Listing(s, q);
    forall t ensures t in listing <==> t in s.tasks && Matches(s, q, t) {
      assert t in listing <==> t in multiset(listing);
      assert t in Filtered(s, q, s.tasks) <==> t in multiset(Filtered(s, q, s.tasks));
    }
    OrderedIsDistinct(q.order, s, q, listing);
  }

  lemma OrderedIsDistinct(order: Order, s: Store, q: Query, listing: seq<Task>)
    requires DistinctIds(s.tasks) && Ordered(order, listing) && forall t <- listing :: t in s.tasks
    ensures DistinctIds(listing)
  {
    forall i, j | 0 <= i < j < |listing| ensures listing[i].id != listing[j].id {
      ComparatorIsTotal(order, listing[i], listing[j], listing[i]);
      assert listing[i] in s.tasks && listing[j] in s.tasks;
    }
  }

  // ---- Pages -----------------------------------------------------------------------------------------

  datatype Page<T> = Page(items: seq<T>, total: nat, shown: nat, hasMore: bool, nextCursor: Option<string>)

  /** `items.slice(start, start + limit)` with the cursor past it. */
  function PageOf<T>(items: seq<T>, start: nat, limit: nat): Page<T> {
    var from := if start < |items| then start else |items|;
    var to := if start + limit < |items| then start + limit else |items|;
    Page(items[from..to], |items|, to - from, start + limit < |items|,
         if start + limit < |items| then Some(Print(start + limit)) else None)
  }

  predicate IsCursor(cursor: Option<string>) {
    cursor.Some? ==> AllDigits(cursor.value)
  }

  /** The position a cursor stands for; no cursor is the start. */
  function Start(cursor: Option<string>): nat
    requires IsCursor(cursor)
  {
    if cursor.None? then 0 else Value(cursor.value)
  }

  /** Where the k-th page of `limit` items starts. */
  function Offset(k: nat, limit: nat): (r: nat)
    ensures r == k * limit
  {
    if k == 0 then 0 else Offset(k - 1, limit) + limit
  }

  /** Reads the pages of an unchanged list to the end, and counts the reads. */
  method FollowCursor<T>(items: seq<T>, limit: nat) returns (read: seq<T>, count: nat)
    requires limit >= 1
    ensures read == items
    ensures count == if |items| == 0 then 1 else (|items| + limit - 1) / limit
  {
    hide Print, Value;
    var page := PageOf(items, Start(None), limit);
    read, count := page.items, 1;
    ghost var start: nat := 0;
    while page.nextCursor.Some?
      invariant count >= 1 && start == Offset(count - 1, limit)
      invariant start == 0 || start < |items|
      invariant page == PageOf(items, start, limit)
      invariant read == items[..if start + limit < |items| then start + limit else |items|]
      decreases |items| - start
    {
      PrintedValue(start + limit);
      page := PageOf(items, Start(page.nextCursor), limit);
      start := start + limit;
      count := count + 1;
      read := read + page.items;
    }
    if |items| > 0 { Ceiling(|items|, limit, count); }
  }

  /** A client that reads a listing page by page: it gets each matching task once, in order. */
  method ReadListing(s: Store, q: Query, limit: nat) returns (read: seq<Task>, count: nat)
    requires limit >= 1 && DistinctIds(s.tasks)
    ensures read == Listing(s, q)
    ensures forall t :: t in read <==> t in s.tasks && Matches(s, q, t)
    ensures Ordered(q.order, read) && DistinctIds(read)
    ensures count == if |read| == 0 then 1 else (|read| + limit - 1) / limit
  {
    hide Matches, Ordered, DistinctIds, Listing;
    ListingIsExact(s, q);
    read, count := FollowCursor(Listing(s, q), limit);
  }

  lemma {:induction false} Apart(a: nat, b: nat, limit: nat)
    requires a < b
    ensures a * limit + limit <= b * limit
  {
    assert Offset(b, limit) == Offset(b - 1, limit) + limit;
    if a < b - 1 { Apart(a, b - 1, limit); }
  }

  lemma DivideExact(k: nat, limit: nat, d: nat)
    requires d < limit
    ensures (k * limit + d) / limit == k
  {
    var x := k * limit + d;
    var m := x / limit;
    assert m * limit <= x < m * limit + limit;
    if m > k {
      Apart(k, m, limit);
      assert false;
    } else if m < k {
      Apart(m, k, limit);
      assert false;
    }
  }

  lemma Ceiling(n: nat, limit: nat, count: nat)
    requires limit >= 1 && count >= 1 && Offset(count - 1, limit) < n <= Offset(count - 1, limit) + limit
    ensures count == (n + limit - 1) / limit
  {
    DivideExact(count, limit, n - 1 - Offset(count - 1, limit));
  }

  /** A limit of zero never gets past the start of a nonempty list. */
  lemma ZeroLimitNeverAdvances<T>(items: seq<T>)
    requires items != []
    ensures PageOf(items, 0, 0).items == [] && PageOf(items, 0, 0).nextCursor.Some?
    ensures IsCursor(PageOf(items, 0, 0).nextCursor) && Start(PageOf(items, 0, 0).nextCursor) == 0
  {
    PrintedValue(0);
  }
}
