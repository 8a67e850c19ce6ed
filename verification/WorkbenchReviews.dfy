/** Filing and splitting with related tasks around: how many refusals a client meets before it has
    reviewed them all, what ends up on the task, and that a fingerprint is filed once. */
module WorkbenchReviews {
  import opened Options
  import opened Collections
  import opened Decimal
  import opened WorkbenchStore
  import opened WorkbenchRuns

  lemma RelatedIdsDiffer(i: nat, j: nat)
    requires RelatedId(i) == RelatedId(j)
    ensures i == j
  {
    assert RelatedId(i)[7..] == Padded(Print(i), 3) && RelatedId(j)[7..] == Padded(Print(j), 3);
    PrintInjective(i, j, 3);
  }

  /** The reviewed list after `m` ids leaves out exactly those ids. */
  lemma {:induction false} NotInPrefix(n: nat, m: nat, i: nat)
    requires i <= n && m <= n
    ensures NotIn(RelatedIds(n)[i..], RelatedIds(n)[..m]) == RelatedIds(n)[if i < m then m else i..]
    decreases n - i
  {
    hide RelatedId, RelatedIds;
    var all := RelatedIds(n);
    if i < n {
      NotInPrefix(n, m, i + 1);
      assert all[i..][1..] == all[i + 1..];
      if i < m {
        assert all[..m][i] == all[i];
      } else {
        if all[i] in all[..m] {
          var k :| 0 <= k < m && all[..m][k] == all[i];
          RelatedIdsDiffer(k, i);
        }
        assert all[i..] == [all[i]] + all[i + 1..];
      }
    }
  }

  /** What a client that has reviewed the first m related tasks is still held up by. */
  lemma HeldAfter(n: nat, m: nat)
    requires m <= n
    ensures Unreviewed(n, RelatedIds(n)[..m]) == RelatedIds(n)[m..Min(m + MAX_RELATED, n)]
    ensures Unreviewed(n, RelatedIds(n)[..m]) == [] <==> m == n
  {
    hide NotIn, RelatedIds, RelatedId;
    NotInPrefix(n, m, 0);
    assert RelatedIds(n)[0..] == RelatedIds(n);
  }

  /** The reviewed list a client holds after k refusals. */
  function ReviewedAfter(n: nat, k: nat): seq<Id> {
    RelatedIds(n)[..Min(k * MAX_RELATED, n)]
  }

  /** How often a client is refused with n related tasks: once for every page of 25. */
  function Refusals(n: nat): nat {
    (n + MAX_RELATED - 1) / MAX_RELATED
  }

  lemma RefusalsBound(n: nat, k: nat)
    ensures k < Refusals(n) <==> k * MAX_RELATED < n
  {}

  /** The k-th request of such a client is refused, with the next page, exactly while k is below
      the bound; adding that page to the reviewed list gives the list of the next request. */
  lemma ReviewRound(n: nat, k: nat)
    ensures Unreviewed(n, ReviewedAfter(n, k)) != [] <==> k < Refusals(n)
    ensures ReviewedAfter(n, k) + Unreviewed(n, ReviewedAfter(n, k)) == ReviewedAfter(n, k + 1)
    ensures |ReviewedAfter(n, k)| == Min(k * MAX_RELATED, n)
  {
    HeldAfter(n, Min(k * MAX_RELATED, n));
    RefusalsBound(n, k);
  }

  // ---- Filing -----------------------------------------------------------------------------------

  lemma {:induction false} FilingsStay(s: Store, run: seq<Request>, i: nat, j: nat, fingerprint: string)
    requires i <= j <= |run| && fingerprint in StoreAt(s, run, i).filed
    ensures fingerprint in StoreAt(s, run, j).filed
    ensures StoreAt(s, run, j).filed[fingerprint] == StoreAt(s, run, i).filed[fingerprint]
  {
    if i < j {
      FilingsStay(s, run, i, j - 1, fingerprint);
      StepKeepsFilings(StoreAt(s, run, j - 1), run[j - 1]);
    }
  }

  lemma StepKeepsFilings(s: Store, q: Request)
    ensures forall f :: f in s.filed ==> f in Handle(s, q).store.filed && Handle(s, q).store.filed[f] == s.filed[f]
  {
    hide IndexOf, Unreviewed, NewCriteria, RepositoryIndex, Holder;
  }

  function FiledAs(o: Outcome): Option<Id> {
    match o
    case Answered(Filed(id)) => Some(id)
    case Answered(AlreadyFiled(id)) => Some(id)
    case _ => None
  }

  /** A fingerprint is filed at most once: after any answer naming its item, every later request
      for it answers that it is already filed, with the same item, and changes nothing. */
  lemma FiledOnce(s: Store, run: seq<Request>, i: nat, j: nat)
    requires i < j < |run| && run[i].File? && run[j].File? && run[i].fingerprint == run[j].fingerprint
    requires FiledAs(OutcomeAt(s, run, i)).Some?
    ensures OutcomeAt(s, run, j) == Answered(AlreadyFiled(FiledAs(OutcomeAt(s, run, i)).value))
    ensures StoreAt(s, run, j + 1) == StoreAt(s, run, j)
  {
    hide Unreviewed;
    FilingsStay(s, run, i + 1, j, run[i].fingerprint);
  }

  // ---- Applying -----------------------------------------------------------------------------------

  /** The added criteria are the proposed ones that are nonempty and not held yet, each once. */
  lemma {:induction false} NewCriteriaAreNew(all: seq<string>, n: nat, held: seq<string>)
    requires n <= |all|
    ensures NoRepeats(NewCriteria(all, n, held))
    ensures forall c :: c in NewCriteria(all, n, held) <==> c in all[..n] && c != "" && c !in held
  {
    if n > 0 {
      NewCriteriaAreNew(all, n - 1, held);
      assert all[..n] == all[..n - 1] + [all[n - 1]];
    }
  }

  /** `after` is `before` extended by exactly the nonempty texts of `all` it lacked. */
  ghost predicate Extends(before: seq<string>, all: seq<string>, after: seq<string>) {
    && |before| <= |after| && after[..|before|] == before
    && (forall c <- all :: c != "" ==> c in after)
    && (forall c <- after :: c in before || (c in all && c != ""))
    && (NoRepeats(before) ==> NoRepeats(after))
  }

  lemma NewCriteriaExtend(before: seq<string>, all: seq<string>)
    ensures Extends(before, all, before + NewCriteria(all, |all|, before))
  {
    NewCriteriaAreNew(all, |all|, before);
    assert all[..|all|] == all;
    var added := NewCriteria(all, |all|, before);
    hide NewCriteria;
    forall i, j | 0 <= i < j < |before + added| && NoRepeats(before)
      ensures (before + added)[i] != (before + added)[j]
    {
      if i < |before| <= j { assert added[j - |before|] in added; }
    }
  }

  /** Applying a refinement's criteria extends the task's list: everything proposed is on it after,
      nothing repeats that did not before, and nothing else was added. */
  lemma ApplyExtendsCriteria(s: Store, q: Request)
    requires q.Apply? && WritesTask(s, q) && ACCEPTANCE in q.selected
    ensures q.id in s.refinements
    ensures var r, after := s.refinements[q.id], Handle(s, q).store.tasks;
            && Found(s.tasks, r.taskId).Some? && Found(after, r.taskId).Some?
            && Extends(Found(s.tasks, r.taskId).value.criteria, Trimmed(r.criteria),
                Found(after, r.taskId).value.criteria)
  {
    hide Unreviewed, Extends, NewCriteria, Trimmed;
    var r := s.refinements[q.id];
    var i := IndexOf(s.tasks, r.taskId).value;
    var item := Handle(s, q).store.tasks[i];
    ReplaceFound(s.tasks, r.taskId, item);
    NewCriteriaExtend(s.tasks[i].criteria, Trimmed(r.criteria));
    assert item.criteria == s.tasks[i].criteria + NewCriteria(Trimmed(r.criteria), |r.criteria|, s.tasks[i].criteria);
  }
}
