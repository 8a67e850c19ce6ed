/** What the reading requests answer: which tasks a list holds and in which order, what a page tells about the
    rest, what a card's counts count, and which related tasks hold a request up. */
module WorkbenchReads {
  import opened Options
  import opened Decimal
  import opened Text
  import opened WorkbenchStore
  import opened WorkbenchRuns
  import opened WorkbenchPages
  import opened WorkbenchLineage

  // ---- Listing -----------------------------------------------------------------------------------------------

  /** The id of one task comes before another's: it is cut short, or has the smaller character where the two
      first differ. */
  ghost predicate EarlierText(a: string, b: string) {
    || (|a| < |b| && b[..|a|] == a)
    || exists k :: 0 <= k < |a| && k < |b| && a[..k] == b[..k] && a[k] < b[k]
  }

  lemma {:induction false} EarlierExactlyWhen(a: string, b: string)
    ensures TextBefore(a, b) <==> EarlierText(a, b)
  {
    if a != [] && b != [] {
      EarlierExactlyWhen(a[1..], b[1..]);
      if a[0] == b[0] { EarlierBehind(a, b); }
      if a[0] < b[0] { assert a[..0] == b[..0]; }
    }
  }

  /** Behind a common first character the order is the rest's. */
  lemma EarlierBehind(a: string, b: string)
    requires a != [] && b != [] && a[0] == b[0]
    ensures EarlierText(a, b) <==> EarlierText(a[1..], b[1..])
  {
    assert a == [a[0]] + a[1..] && b == [b[0]] + b[1..];
    if EarlierText(a[1..], b[1..]) && !(|a| < |b| && b[1..][..|a| - 1] == a[1..]) {
      var k :| 0 <= k < |a| - 1 && k < |b| - 1 && a[1..][..k] == b[1..][..k] && a[1..][k] < b[1..][k];
      assert a[..k + 1] == [a[0]] + a[1..][..k] && b[..k + 1] == [b[0]] + b[1..][..k];
    }
    if EarlierText(a, b) && !(|a| < |b| && b[..|a|] == a) {
      var k :| 0 <= k < |a| && k < |b| && a[..k] == b[..k] && a[k] < b[k];
      assert a[1..][..k - 1] == a[..k][1..] && b[1..][..k - 1] == b[..k][1..];
    }
    if |a| < |b| {
      assert b[..|a|] == [b[0]] + b[1..][..|a| - 1];
    }
  }

  /** A list holds the live tasks, or the deleted ones when those are asked for, that pass every filter that is
      set: status, archive flag, a repository, some repository of the workspace, and the title. */
  lemma ListedExactlyWhen(s: Store, q: Query, t: Task)
    requires DistinctIds(s.tasks) && t in s.tasks
    ensures t in Listing(s, q)
       <==> && (if q.deleted then t.id in s.deleted else t.id !in s.deleted)
            && (q.status == None || q.status == Some(t.status))
            && (q.archived == None || q.archived == Some(t.archived))
            && (q.repository == None || exists id <- t.repositoryIds :: q.repository == Some(id))
            && (q.workspace == None || exists id <- t.repositoryIds :: id in q.workspace.value)
            && (q.title == None || q.title.value(t.texts.title))
  {
    hide Listing;
    ListingIsExact(s, q);
  }

  /** Of two tasks in a list the earlier one has the lower position, the later completion (none counting as 0) or
      the later update, by the order asked for, and equal tasks are ordered by their ids. */
  lemma ListedInOrder(s: Store, q: Query, i: nat, j: nat)
    requires DistinctIds(s.tasks) && i < j < |Listing(s, q)|
    ensures var a, b := Listing(s, q)[i], Listing(s, q)[j];
            match q.order
            case ByPosition => a.position < b.position || (a.position == b.position && EarlierText(a.id, b.id))
            case ByCompletion =>
              var x := if a.completedAt.Some? then a.completedAt.value else 0;
              var y := if b.completedAt.Some? then b.completedAt.value else 0;
              x > y || (x == y && EarlierText(a.id, b.id))
            case ByUpdate => a.updatedAt > b.updatedAt || (a.updatedAt == b.updatedAt && EarlierText(a.id, b.id))
  {
    hide Listing, EarlierText, TextBefore;
    ListingIsExact(s, q);
    var a, b := Listing(s, q)[i], Listing(s, q)[j];
    assert Precedes(q.order, a, b);
    EarlierExactlyWhen(a.id, b.id);
  }

  /** A page holds the items from its start on, at most as many as its limit and no fewer if there are any, tells how
      many there are in all and on it, and has a cursor, to where it ends, exactly when there are more. */
  lemma PageTells<T>(items: seq<T>, start: nat, limit: nat)
    ensures var page, rest := PageOf(items, start, limit), |items| - start;
            && |page.items| == (if rest <= 0 then 0 else if rest < limit then rest else limit)
            && (forall k :: 0 <= k < |page.items| ==> page.items[k] == items[start + k])
            && page.total == |items| && page.shown == |page.items|
            && (page.hasMore <==> rest > limit) && (page.nextCursor.Some? <==> rest > limit)
            && (page.nextCursor.Some? ==>
                  IsCursor(page.nextCursor) && Start(page.nextCursor) == start + |page.items|)
  {
    PrintedValue(start + limit);
  }

  // ---- Lineage -----------------------------------------------------------------------------------------------

  /** Some task is held under the id and is not marked deleted. */
  ghost predicate Held(s: Store, id: Id) {
    id !in s.deleted && exists t <- s.tasks :: t.id == id
  }

  /** The card's live subtasks are the held tasks whose parent it is, the done ones those with the status of done,
      and a parent is named exactly while it is held. */
  lemma LineageCounts(s: Store, parentOf: map<Id, Id>, id: Id, kids: set<Id>, done: set<Id>)
    requires DistinctIds(s.tasks)
    requires forall c :: c in kids <==> c in parentOf && parentOf[c] == id && Held(s, c)
    requires forall c :: c in done <==> c in kids && exists t <- s.tasks :: t.id == c && t.status == "done"
    ensures var lineage := LineageOf(s, parentOf, id);
            && lineage.total == |kids| && lineage.done == |done|
            && (forall p :: lineage.parent == Some(p) <==> id in parentOf && parentOf[id] == p && Held(s, p))
  {
    forall c ensures Live(s, c) <==> Held(s, c) { LiveIsHeld(s, c); }
    forall c ensures IsDone(s.tasks, c) <==> exists t <- s.tasks :: t.id == c && t.status == "done" {
      DoneIsDone(s.tasks, c);
    }
    hide Live, IsDone, Held;
    assert kids == Kids(s, parentOf, id);
    assert done == DoneKids(s, parentOf, id);
  }

  lemma LiveIsHeld(s: Store, id: Id)
    ensures Live(s, id) <==> Held(s, id)
  {
    if Live(s, id) { assert s.tasks[IndexOf(s.tasks, id).value] in s.tasks; }
  }

  lemma DoneIsDone(tasks: seq<Task>, id: Id)
    requires DistinctIds(tasks)
    ensures IsDone(tasks, id) <==> exists t <- tasks :: t.id == id && t.status == "done"
  {
    match IndexOf(tasks, id)
    case None =>
    case Some(at) =>
      assert tasks[at] in tasks;
      forall t | t in tasks && t.id == id ensures t == tasks[at] {}
  }

  // ---- Related tasks -----------------------------------------------------------------------------------------

  function RelatedName(i: nat): string {
    "ft-rel-" + Padded(Print(i), 3)
  }

  /** The numbers rise, and are those of related tasks the caller has not reviewed. */
  ghost predicate OpenNumbers(ks: seq<nat>, n: nat, reviewed: seq<Id>) {
    && (forall a, b :: 0 <= a < b < |ks| ==> ks[a] < ks[b])
    && (forall k <- ks :: k < n && RelatedName(k) !in reviewed)
  }

  /** The ids from the m-th on that are not reviewed, by their numbers. */
  lemma {:induction false} OpenOnes(n: nat, m: nat, reviewed: seq<Id>) returns (ks: seq<nat>)
    requires m <= n
    ensures OpenNumbers(ks, n, reviewed) && forall k <- ks :: m <= k
    ensures forall k :: m <= k < n && RelatedName(k) !in reviewed ==> k in ks
    ensures |NotIn(RelatedIds(n)[m..], reviewed)| == |ks|
    ensures forall a :: 0 <= a < |ks| ==> NotIn(RelatedIds(n)[m..], reviewed)[a] == RelatedName(ks[a])
    decreases n - m
  {
    hide RelatedName, RelatedIds;
    var ids := RelatedIds(n);
    if m == n {
      ks := [];
    } else {
      ks := OpenOnes(n, m + 1, reviewed);
      assert ids[m..] == [ids[m]] + ids[m + 1..];
      assert ids[m] == RelatedName(m) by { SameName(m); }
      if ids[m] !in reviewed { ks := [m] + ks; }
    }
  }

  lemma SameName(i: nat)
    ensures RelatedId(i) == RelatedName(i)
  {
  }

  /** A request is held up by the first 25 related tasks the caller has not reviewed, in order, and by all of them
      when they are fewer. */
  lemma HeldByTheFirst(n: nat, reviewed: seq<Id>) returns (ks: seq<nat>)
    ensures OpenNumbers(ks, n, reviewed) && |ks| <= 25 && |Unreviewed(n, reviewed)| == |ks|
    ensures forall a :: 0 <= a < |ks| ==> Unreviewed(n, reviewed)[a] == RelatedName(ks[a])
    ensures forall k :: 0 <= k < n && RelatedName(k) !in reviewed ==> k in ks || (|ks| == 25 && ks[24] < k)
  {
    hide RelatedName, RelatedIds, RelatedId, NotIn;
    var all := OpenOnes(n, 0, reviewed);
    assert RelatedIds(n)[0..] == RelatedIds(n);
    ks := if |all| <= 25 then all else all[..25];
    forall k | 0 <= k < n && RelatedName(k) !in reviewed ensures k in ks || (|ks| == 25 && ks[24] < k) {
      assert k in all;
      var a :| 0 <= a < |all| && all[a] == k;
      if a < |ks| { assert ks[a] == k; }
    }
    forall k <- ks ensures k in all {}
  }

  // ---- Criteria as they are stored ---------------------------------------------------------------------------

  /** The code points JavaScript trims. */
  predicate TrimmedAway(n: int) {
    || 9 <= n <= 13 || n == 32 || n == 160 || n == 5760 || 8192 <= n <= 8202
    || n == 8232 || n == 8233 || n == 8239 || n == 8287 || n == 12288 || n == 65279
  }

  lemma {:induction false} StartTrimmed(text: string) returns (a: nat)
    ensures a <= |text| && TrimStart(JsWhite, text) == text[a..]
    ensures forall k :: 0 <= k < a ==> JsWhite(text[k])
    ensures a < |text| ==> !JsWhite(text[a])
  {
    a := 0;
    if text != [] && JsWhite(text[0]) {
      var b := StartTrimmed(text[1..]);
      a := b + 1;
      assert text[1..][b..] == text[a..];
      forall k | 0 <= k < a ensures JsWhite(text[k]) { if k > 0 { assert text[1..][k - 1] == text[k]; } }
    }
  }

  lemma {:induction false} EndTrimmed(text: string) returns (b: nat)
    ensures b <= |text| && TrimEnd(JsWhite, text) == text[..b]
    ensures forall k :: b <= k < |text| ==> JsWhite(text[k])
    ensures b > 0 ==> !JsWhite(text[b - 1])
  {
    b := |text|;
    if text != [] && JsWhite(text[|text| - 1]) {
      b := EndTrimmed(text[..|text| - 1]);
      assert text[..|text| - 1][..b] == text[..b];
    }
  }

  /** Criteria are stored without the blanks around them, and otherwise as they were proposed. */
  lemma CriteriaAreTrimmed(texts: seq<string>, i: nat) returns (front: string, back: string)
    requires i < |texts|
    ensures |Trimmed(texts)| == |texts| && texts[i] == front + Trimmed(texts)[i] + back
    ensures forall c <- front + back :: TrimmedAway(c as int)
    ensures var core := Trimmed(texts)[i];
            core != "" ==> !TrimmedAway(core[0] as int) && !TrimmedAway(core[|core| - 1] as int)
  {
    var text, core := texts[i], Trimmed(texts)[i];
    var a := StartTrimmed(text);
    var b := EndTrimmed(text[a..]);
    front, back := text[..a], text[a..][b..];
    forall c ensures JsWhite(c) <==> TrimmedAway(c as int) {}
    hide JsWhite, TrimmedAway;
    assert text[a..] == core + back && text == front + text[a..];
    if core != "" { assert core[0] == text[a] && core[|core| - 1] == text[a..][b - 1]; }
  }
}
