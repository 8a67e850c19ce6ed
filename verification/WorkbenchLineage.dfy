/** Parent cards and their subtask counts. */
module WorkbenchLineage {
  import opened Options
  import opened WorkbenchStore
  import opened WorkbenchRuns

  datatype Lineage = Lineage(parent: Option<Id>, total: nat, done: nat)

  predicate Live(s: Store, id: Id) {
    IndexOf(s.tasks, id).Some? && id !in s.deleted
  }

  /** The live children of a card, by the links from child to parent. */
  function Kids(s: Store, parentOf: map<Id, Id>, parent: Id): set<Id> {
    set c | c in parentOf && parentOf[c] == parent && Live(s, c)
  }

  function DoneKids(s: Store, parentOf: map<Id, Id>, parent: Id): set<Id> {
    set c | c in Kids(s, parentOf, parent) && IsDone(s.tasks, c)
  }

  function LineageOf(s: Store, parentOf: map<Id, Id>, id: Id): Lineage {
    Lineage(if id in parentOf && Live(s, parentOf[id]) then Some(parentOf[id]) else None,
            |Kids(s, parentOf, id)|, |DoneKids(s, parentOf, id)|)
  }

  /** `done` never exceeds `total`, and equals it exactly when no live child is open. */
  lemma DoneWithinTotal(s: Store, parentOf: map<Id, Id>, id: Id)
    ensures LineageOf(s, parentOf, id).done <= LineageOf(s, parentOf, id).total
    ensures LineageOf(s, parentOf, id).done == LineageOf(s, parentOf, id).total
       <==> forall c :: c in Kids(s, parentOf, id) ==> IsDone(s.tasks, c)
  {
    var kids, done := Kids(s, parentOf, id), DoneKids(s, parentOf, id);
    assert kids == done + (kids - done);
    if kids - done != {} {
      var c :| c in kids - done;
      assert |kids - done| > 0;
    } else {
      assert kids == done;
      forall c | c in kids ensures IsDone(s.tasks, c) { assert c in done; }
    }
  }

  /** The totals of the live cards among the first n tasks, summed. */
  function SumOfTotals(s: Store, parentOf: map<Id, Id>, n: nat): nat
    requires n <= |s.tasks|
  {
    if n == 0 then 0
    else
      SumOfTotals(s, parentOf, n - 1)
      + if Live(s, s.tasks[n - 1].id) then LineageOf(s, parentOf, s.tasks[n - 1].id).total else 0
  }

  /** The live children whose parent is one of the first n tasks and live. */
  function Adopted(s: Store, parentOf: map<Id, Id>, n: nat): set<Id>
    requires n <= |s.tasks|
  {
    set c | && c in parentOf && Live(s, c) && Live(s, parentOf[c])
            && exists i :: 0 <= i < n && s.tasks[i].id == parentOf[c]
  }

  lemma {:induction false} TotalsCountAdopted(s: Store, parentOf: map<Id, Id>, n: nat)
    requires n <= |s.tasks| && DistinctIds(s.tasks)
    ensures SumOfTotals(s, parentOf, n) == |Adopted(s, parentOf, n)|
  {
    hide Live, Adopted, Kids, DoneKids;
    if n == 0 {
      NoneAdopted(s, parentOf);
    } else {
      TotalsCountAdopted(s, parentOf, n - 1);
      AdoptedGrows(s, parentOf, n);
    }
  }

  lemma NoneAdopted(s: Store, parentOf: map<Id, Id>)
    ensures Adopted(s, parentOf, 0) == {}
  {
  }

  /** One task more adopts its own live children, none of whom was adopted before. */
  lemma AdoptedGrows(s: Store, parentOf: map<Id, Id>, n: nat)
    requires 0 < n <= |s.tasks| && DistinctIds(s.tasks)
    ensures var id, before := s.tasks[n - 1].id, Adopted(s, parentOf, n - 1);
            if Live(s, id)
            then Adopted(s, parentOf, n) == before + Kids(s, parentOf, id) && before !! Kids(s, parentOf, id)
            else Adopted(s, parentOf, n) == before
  {
    hide Live;
    var id := s.tasks[n - 1].id;
    forall c
      ensures c in Adopted(s, parentOf, n)
         <==> c in Adopted(s, parentOf, n - 1) || (Live(s, id) && c in Kids(s, parentOf, id))
    {
      assert forall i :: 0 <= i < n ==> i < n - 1 || s.tasks[i].id == id;
    }
  }

  /** Conservation: summed over all live cards, the totals count every live child with a live
      parent exactly once. */
  lemma TotalsAreConserved(s: Store, parentOf: map<Id, Id>)
    requires DistinctIds(s.tasks)
    ensures SumOfTotals(s, parentOf, |s.tasks|)
         == |set c | c in parentOf && Live(s, c) && Live(s, parentOf[c])|
  {
    TotalsCountAdopted(s, parentOf, |s.tasks|);
    forall id | Live(s, id) ensures exists i :: 0 <= i < |s.tasks| && s.tasks[i].id == id {
      assert s.tasks[IndexOf(s.tasks, id).value].id == id;
    }
    assert Adopted(s, parentOf, |s.tasks|) == set c | c in parentOf && Live(s, c) && Live(s, parentOf[c]);
  }

  /** Deleting or restoring a task changes which cards are live by exactly that task. */
  lemma LiveAfter(s: Store, q: Request, id: Id)
    requires (q.Delete? || q.Restore?) && WritesTask(s, q)
    ensures Live(s, q.id) == q.Delete? && Live(Handle(s, q).store, q.id) == q.Restore?
    ensures id != q.id ==> Live(Handle(s, q).store, id) == Live(s, id)
    ensures IsDone(Handle(s, q).store.tasks, id) == IsDone(s.tasks, id)
  {
    var i := IndexOf(s.tasks, q.id).value;
    var item := Handle(s, q).store.tasks[i];
    ReplaceKeepsIndex(s.tasks, i, item, id);
    ReplaceKeepsIndex(s.tasks, i, item, q.id);
    ReplaceFound(s.tasks, q.id, item);
  }

  lemma OneMoreLive(s: Store, s': Store, c: Id, parentOf: map<Id, Id>, parent: Id)
    requires !Live(s, c) && Live(s', c)
    requires forall id :: id != c ==> Live(s', id) == Live(s, id)
    requires forall id :: IsDone(s'.tasks, id) == IsDone(s.tasks, id)
    ensures var before, after := LineageOf(s, parentOf, parent), LineageOf(s', parentOf, parent);
            var shift := if c in parentOf && parentOf[c] == parent then 1 else 0;
            && after.total == before.total + shift
            && after.done == before.done + if IsDone(s.tasks, c) then shift else 0
  {
    hide Live, IsDone;
    var kids, kids' := Kids(s, parentOf, parent), Kids(s', parentOf, parent);
    var done, done' := DoneKids(s, parentOf, parent), DoneKids(s', parentOf, parent);
    if c in parentOf && parentOf[c] == parent {
      assert kids' == kids + {c};
      assert done' == if IsDone(s.tasks, c) then done + {c} else done;
    } else {
      assert kids' == kids && done' == done;
    }
  }

  /** Deleting or restoring a child shifts its parent's total by exactly one, and its done count
      by one if the child is Done; every other card keeps both. */
  lemma TotalsShiftByOne(s: Store, q: Request, parentOf: map<Id, Id>, parent: Id)
    requires (q.Delete? || q.Restore?) && WritesTask(s, q)
    ensures var before, after := LineageOf(s, parentOf, parent), LineageOf(Handle(s, q).store, parentOf, parent);
            var shift := if q.id in parentOf && parentOf[q.id] == parent then if q.Delete? then -1 else 1 else 0;
            && after.total == before.total + shift
            && after.done == before.done + if IsDone(s.tasks, q.id) then shift else 0
  {
    var s' := Handle(s, q).store;
    hide Handle, Live, IsDone, LineageOf;
    forall id
      ensures id != q.id ==> Live(s', id) == Live(s, id)
      ensures IsDone(s'.tasks, id) == IsDone(s.tasks, id)
    {
      LiveAfter(s, q, id);
    }
    LiveAfter(s, q, q.id);
    if q.Delete? {
      OneMoreLive(s', s, q.id, parentOf, parent);
    } else {
      OneMoreLive(s, s', q.id, parentOf, parent);
    }
  }

  /** The lineage request: one entry for every named live card. */
  method ReadLineage(s: Store, parentOf: map<Id, Id>, ids: seq<Id>) returns (items: map<Id, Lineage>)
    ensures items.Keys == set id | id in ids && Live(s, id)
    ensures forall id :: id in items ==> items[id] == LineageOf(s, parentOf, id)
  {
    hide Live, LineageOf;
    items := map[];
    for i := 0 to |ids|
      invariant items.Keys == set id | id in ids[..i] && Live(s, id)
      invariant forall id :: id in items ==> items[id] == LineageOf(s, parentOf, id)
    {
      if Live(s, ids[i]) {
        items := items[ids[i] := LineageOf(s, parentOf, ids[i])];
      }
    }
    assert ids[..|ids|] == ids;
  }
}
