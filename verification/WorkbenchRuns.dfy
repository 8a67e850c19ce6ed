/** What holds of every run of requests against the store: receipts make writes happen once,
    revisions lose no update, and a refusal changes nothing. */
module WorkbenchRuns {
  import opened Options
  import opened WorkbenchStore

  // ---- Task lists -----------------------------------------------------------------------------

  ghost predicate DistinctIds(tasks: seq<Task>) {
    forall i, j :: 0 <= i < j < |tasks| ==> tasks[i].id != tasks[j].id
  }

  lemma {:induction false} ReplaceKeepsIndex(tasks: seq<Task>, i: nat, item: Task, id: Id)
    requires i < |tasks| && item.id == tasks[i].id
    ensures IndexOf(tasks[i := item], id) == IndexOf(tasks, id)
  {
    if i == 0 {
      assert tasks[0 := item][1..] == tasks[1..];
    } else {
      assert tasks[i := item][1..] == tasks[1..][i - 1 := item];
      ReplaceKeepsIndex(tasks[1..], i - 1, item, id);
    }
  }

  /** Replacing the task `IndexOf` finds changes what is found under its id and nothing else. */
  lemma ReplaceFound(tasks: seq<Task>, id: Id, item: Task)
    requires IndexOf(tasks, id).Some? && item.id == id
    ensures var tasks' := tasks[IndexOf(tasks, id).value := item];
            && Found(tasks', id) == Some(item)
            && forall other :: other != id ==> Found(tasks', other) == Found(tasks, other)
  {
    var i := IndexOf(tasks, id).value;
    forall other
      ensures IndexOf(tasks[i := item], other) == IndexOf(tasks, other)
    {
      ReplaceKeepsIndex(tasks, i, item, other);
    }
  }

  lemma {:induction false} AppendFound(tasks: seq<Task>, item: Task, id: Id)
    ensures Found(Without(tasks, item.id) + [item], id) == if id == item.id then Some(item) else Found(tasks, id)
  {
    hide Found, Without;
    if tasks == [] {
      NoneFound(item, id);
    } else {
      var first, rest := tasks[0], Without(tasks[1..], item.id);
      AppendFound(tasks[1..], item, id);
      assert tasks == [first] + tasks[1..];
      FoundHead(first, tasks[1..], id);
      WithoutHead(first, tasks[1..], item.id);
      if first.id != item.id {
        assert [first] + rest + [item] == [first] + (rest + [item]);
        FoundHead(first, rest + [item], id);
      } else {
        assert [] + rest == rest;
      }
    }
  }

  lemma NoneFound(item: Task, id: Id)
    ensures Found(Without([], item.id) + [item], id) == if id == item.id then Some(item) else Found([], id)
  {
    assert [] + [item] == [item];
  }

  lemma WithoutHead(task: Task, rest: seq<Task>, id: Id)
    ensures Without([task] + rest, id) == (if task.id == id then [] else [task]) + Without(rest, id)
  {
    assert ([task] + rest)[1..] == rest;
  }

  lemma FoundHead(task: Task, rest: seq<Task>, id: Id)
    ensures Found([task] + rest, id) == if task.id == id then Some(task) else Found(rest, id)
  {
    assert ([task] + rest)[1..] == rest;
  }

  lemma {:induction false} WithoutKeepsDistinct(tasks: seq<Task>, id: Id)
    requires DistinctIds(tasks)
    ensures DistinctIds(Without(tasks, id))
  {
    if tasks != [] {
      WithoutKeepsDistinct(tasks[1..], id);
    }
  }

  // ---- Receipts ---------------------------------------------------------------------------------

  /** The receipt a request is filed under. Refinements and filings keep none. */
  function ReceiptKey(s: Store, q: Request): Option<Id> {
    if q.Refine? || q.Apply? || q.File? || q.Register? then None
    else if q.Dismiss? && q.id in s.refinements then None
    else Some(q.requestId)
  }

  /** An answered id is answered again without a change, a new answer is filed, nothing else
      touches the receipts, and a refusal changes nothing. */
  ghost predicate HonoursReceipts(s: Store, k: Option<Id>, r: Step) {
    && (k.Some? && k.value in s.receipts ==> r == Step(s, Answered(s.receipts[k.value])))
    && (k.Some? && k.value !in s.receipts && r.outcome.Answered?
        ==> r.store.receipts == s.receipts[k.value := r.outcome.reply])
    && (k.None? || r.outcome.Refused? ==> r.store.receipts == s.receipts)
    && (r.outcome.Refused? ==> r.store == s)
  }

  lemma SaveHonoursReceipts(s: Store, q: Request)
    requires q.Put? || q.Delete? || q.Restore?
    ensures HonoursReceipts(s, Some(q.requestId), Handle(s, q))
  {}

  lemma EnhancementHonoursReceipts(s: Store, q: Request)
    requires IsEnhancement(q)
    ensures HonoursReceipts(s, ReceiptKey(s, q), EnhancementStep(s, q))
  {
    hide IndexOf;
  }

  lemma OtherHonoursReceipts(s: Store, q: Request)
    requires q.Refine? || q.Apply? || q.File? || q.Register?
    ensures HonoursReceipts(s, None, Handle(s, q))
  {
    hide IndexOf, Unreviewed, NewCriteria, Trimmed, Holder;
  }

  lemma RelinkHonoursReceipts(s: Store, q: Request)
    requires q.Relink?
    ensures HonoursReceipts(s, Some(q.requestId), RelinkStep(s, q))
  {
    hide RepositoryIndex, Holder;
  }

  lemma ReceiptStep(s: Store, q: Request)
    ensures HonoursReceipts(s, ReceiptKey(s, q), Handle(s, q))
  {
    hide HonoursReceipts, EnhancementStep, RelinkStep, ApplyStep, PutStep, DeleteStep, RestoreStep;
    if q.Put? || q.Delete? || q.Restore? {
      SaveHonoursReceipts(s, q);
    } else if q.Relink? {
      RelinkHonoursReceipts(s, q);
    } else if IsEnhancement(q) {
      EnhancementHonoursReceipts(s, q);
    } else {
      OtherHonoursReceipts(s, q);
    }
  }

  /** The stores a run goes through, the first one included. */
  function StoreAt(s: Store, run: seq<Request>, i: nat): Store
    requires i <= |run|
  {
    if i == 0 then s else Handle(StoreAt(s, run, i - 1), run[i - 1]).store
  }

  lemma NextStore(s: Store, run: seq<Request>, i: nat)
    requires i < |run|
    ensures StoreAt(s, run, i + 1) == Handle(StoreAt(s, run, i), run[i]).store
  {
  }

  function OutcomeAt(s: Store, run: seq<Request>, i: nat): Outcome
    requires i < |run|
  {
    Handle(StoreAt(s, run, i), run[i]).outcome
  }

  predicate Attempt(s: Store, run: seq<Request>, i: nat, key: Id)
    requires i < |run|
  {
    ReceiptKey(StoreAt(s, run, i), run[i]) == Some(key)
  }

  /** The attempt that does the work: the first to be answered under its id. */
  predicate CommitsAt(s: Store, run: seq<Request>, i: nat, key: Id)
    requires i < |run|
  {
    Attempt(s, run, i, key) && key !in StoreAt(s, run, i).receipts && OutcomeAt(s, run, i).Answered?
  }

  lemma {:induction false} ReceiptsStay(s: Store, run: seq<Request>, i: nat, j: nat, key: Id)
    requires i <= j <= |run| && key in StoreAt(s, run, i).receipts
    ensures key in StoreAt(s, run, j).receipts
    ensures StoreAt(s, run, j).receipts[key] == StoreAt(s, run, i).receipts[key]
  {
    hide Handle;
    if i < j {
      ReceiptsStay(s, run, i, j - 1, key);
      ReceiptStep(StoreAt(s, run, j - 1), run[j - 1]);
    }
  }

  /** Exactly once: after an attempt has been answered, every later attempt with its id gets the
      same answer and leaves the whole store as it is, whatever happened in between. */
  lemma LaterAttemptsRepeatTheAnswer(s: Store, run: seq<Request>, i: nat, j: nat, key: Id)
    requires i < j < |run| && Attempt(s, run, i, key) && Attempt(s, run, j, key)
    requires OutcomeAt(s, run, i).Answered?
    ensures OutcomeAt(s, run, j) == OutcomeAt(s, run, i)
    ensures StoreAt(s, run, j + 1) == StoreAt(s, run, j)
  {
    hide Handle;
    ReceiptStep(StoreAt(s, run, i), run[i]);
    ReceiptsStay(s, run, i + 1, j, key);
    ReceiptStep(StoreAt(s, run, j), run[j]);
  }

  /** Of all the attempts with one id, at most one changes the store. */
  lemma AtMostOneAttemptChanges(s: Store, run: seq<Request>, i: nat, j: nat, key: Id)
    requires i < j < |run| && Attempt(s, run, i, key) && Attempt(s, run, j, key)
    ensures StoreAt(s, run, i + 1) == StoreAt(s, run, i) || StoreAt(s, run, j + 1) == StoreAt(s, run, j)
  {
    hide Handle;
    ReceiptStep(StoreAt(s, run, i), run[i]);
    if OutcomeAt(s, run, i).Answered? {
      LaterAttemptsRepeatTheAnswer(s, run, i, j, key);
    }
  }

  /** A reply can be lost or corrupted on its way, but only the reply of the attempt that did the
      work: the store answers a repeated id straight from the receipt. */
  datatype Fate = Delivered | Lost | Corrupted

  datatype Seen = Clean(outcome: Outcome) | TransportError | Garbage

  function SeenAt(s: Store, run: seq<Request>, i: nat, key: Id, fate: Fate): Seen
    requires i < |run|
  {
    if !CommitsAt(s, run, i, key) || fate.Delivered? then Clean(OutcomeAt(s, run, i))
    else if fate.Lost? then TransportError else Garbage
  }

  lemma {:induction false} ReceiptHasACommit(s: Store, run: seq<Request>, n: nat, key: Id) returns (c: nat)
    requires n <= |run| && key !in s.receipts && key in StoreAt(s, run, n).receipts
    ensures c < n && CommitsAt(s, run, c, key)
    ensures OutcomeAt(s, run, c) == Answered(StoreAt(s, run, n).receipts[key])
  {
    hide Handle;
    ReceiptStep(StoreAt(s, run, n - 1), run[n - 1]);
    if key in StoreAt(s, run, n - 1).receipts {
      c := ReceiptHasACommit(s, run, n - 1, key);
      ReceiptsStay(s, run, n - 1, n, key);
    } else {
      c := n - 1;
    }
  }

  /** A client that keeps sending one request over such a channel, with other clients in between,
      learns the truth from the first clean answer: exactly one of its attempts did the work, and
      the answer is that attempt's. */
  lemma CleanAnswerIsTheCommit(s: Store, run: seq<Request>, n: nat, key: Id, fate: Fate) returns (c: nat)
    requires n < |run| && key !in s.receipts && Attempt(s, run, n, key)
    requires SeenAt(s, run, n, key, fate).Clean? && OutcomeAt(s, run, n).Answered?
    ensures c <= n && CommitsAt(s, run, c, key)
    ensures SeenAt(s, run, n, key, fate) == Clean(OutcomeAt(s, run, c))
    ensures forall i: nat :: i < |run| && CommitsAt(s, run, i, key) ==> i == c
    ensures forall i: nat :: i < |run| && i != c && Attempt(s, run, i, key)
              ==> StoreAt(s, run, i + 1) == StoreAt(s, run, i)
  {
    hide Handle;
    if key in StoreAt(s, run, n).receipts {
      c := ReceiptHasACommit(s, run, n, key);
      ReceiptStep(StoreAt(s, run, n), run[n]);
    } else {
      c := n;
    }
    forall i: nat | i < |run| && i != c && Attempt(s, run, i, key)
      ensures !CommitsAt(s, run, i, key) && StoreAt(s, run, i + 1) == StoreAt(s, run, i)
    {
      OthersDoNotCommit(s, run, c, i, key);
    }
  }

  lemma OthersDoNotCommit(s: Store, run: seq<Request>, c: nat, i: nat, key: Id)
    requires c < |run| && i < |run| && i != c && CommitsAt(s, run, c, key) && Attempt(s, run, i, key)
    ensures !CommitsAt(s, run, i, key) && StoreAt(s, run, i + 1) == StoreAt(s, run, i)
  {
    hide Handle;
    ReceiptStep(StoreAt(s, run, i), run[i]);
    if c < i {
      ReceiptStep(StoreAt(s, run, c), run[c]);
      ReceiptsStay(s, run, c + 1, i, key);
    } else if OutcomeAt(s, run, i).Answered? {
      ReceiptsStay(s, run, i + 1, c, key);
      assert false;
    }
  }

  // ---- Revisions ------------------------------------------------------------------------------------

  /** The task a request writes, if it writes one. */
  function Target(s: Store, q: Request): Option<Id> {
    if q.Put? then Some(q.draft.id)
    else if q.Delete? || q.Restore? then Some(q.id)
    else if (q.Accept? || q.Undo?) && q.id in s.proposals then Some(s.proposals[q.id].taskId)
    else if q.Apply? && q.id in s.refinements then Some(s.refinements[q.id].taskId)
    else None
  }

  /** The task revision its sender last saw. */
  function SeenRevision(q: Request): nat {
    if q.Put? || q.Delete? || q.Restore? then q.expected
    else if q.Accept? || q.Undo? || q.Apply? then q.expectedTask
    else 0
  }

  predicate WritesTask(s: Store, q: Request) {
    Handle(s, q).store.tasks != s.tasks
  }

  /** At most the named task is written: from the revision the sender saw to the next one, with
      every other task found as before. */
  ghost predicate WritesOne(before: seq<Task>, t: Option<Id>, seen: nat, after: seq<Task>) {
    && DistinctIds(after)
    && (after != before ==>
        && t.Some?
        && RevisionOf(before, t.value) == seen
        && RevisionOf(after, t.value) == seen + 1
        && forall id :: id != t.value ==> Found(after, id) == Found(before, id))
  }

  lemma PutWritesOne(s: Store, q: Request)
    requires q.Put? && DistinctIds(s.tasks)
    ensures WritesOne(s.tasks, Some(q.draft.id), q.expected, PutStep(s, q).store.tasks)
  {
    if PutStep(s, q).store.tasks != s.tasks {
      var item := Saved(Found(s.tasks, q.draft.id), q.draft, q.expected, q.now);
      WithoutKeepsDistinct(s.tasks, item.id);
      forall id
        ensures Found(Without(s.tasks, item.id) + [item], id)
             == if id == item.id then Some(item) else Found(s.tasks, id)
      {
        AppendFound(s.tasks, item, id);
      }
    }
  }

  /** Replacing one task by its next revision. */
  lemma ReplaceWritesOne(tasks: seq<Task>, id: Id, item: Task)
    requires DistinctIds(tasks) && IndexOf(tasks, id).Some? && item.id == id
    requires item.revision == RevisionOf(tasks, id) + 1
    ensures WritesOne(tasks, Some(id), RevisionOf(tasks, id), tasks[IndexOf(tasks, id).value := item])
  {
    ReplaceFound(tasks, id, item);
  }

  lemma DeleteOrRestoreWritesOne(s: Store, q: Request)
    requires (q.Delete? || q.Restore?) && DistinctIds(s.tasks)
    ensures WritesOne(s.tasks, Some(q.id), q.expected, Handle(s, q).store.tasks)
  {
    hide WritesOne;
    var tasks := Handle(s, q).store.tasks;
    if tasks != s.tasks {
      ReplaceWritesOne(s.tasks, q.id, tasks[IndexOf(s.tasks, q.id).value]);
    } else {
      NothingWritten(s.tasks, Some(q.id), q.expected);
    }
  }

  lemma NothingWritten(tasks: seq<Task>, t: Option<Id>, seen: nat)
    requires DistinctIds(tasks)
    ensures WritesOne(tasks, t, seen, tasks)
  {}

  lemma WriteStepWritesOne(s: Store, requestId: Id, p: Proposal, expectedTask: nat,
                           fields: Option<seq<Field>>, from: Option<Texts>, state: ProposalState)
    requires DistinctIds(s.tasks)
    ensures WritesOne(s.tasks, Some(p.taskId), expectedTask,
              WriteStep(s, requestId, p, expectedTask, fields, from, state).store.tasks)
  {
    hide WritesOne;
    var tasks := WriteStep(s, requestId, p, expectedTask, fields, from, state).store.tasks;
    if tasks != s.tasks {
      ReplaceWritesOne(s.tasks, p.taskId, tasks[IndexOf(s.tasks, p.taskId).value]);
    } else {
      NothingWritten(s.tasks, Some(p.taskId), expectedTask);
    }
  }

  lemma EnhancementWritesOne(s: Store, q: Request)
    requires IsEnhancement(q) && DistinctIds(s.tasks)
    ensures WritesOne(s.tasks, Target(s, q), SeenRevision(q), EnhancementStep(s, q).store.tasks)
  {
    hide WritesOne, WriteStep;
    NothingWritten(s.tasks, Target(s, q), SeenRevision(q));
    if (q.Accept? || q.Undo?) && q.id in s.proposals {
      var p := s.proposals[q.id].(revision := s.proposals[q.id].revision + 1);
      if q.Accept? {
        WriteStepWritesOne(s, q.requestId, p, q.expectedTask, Some(q.fields), p.proposed, Accepted);
      } else {
        WriteStepWritesOne(s, q.requestId, p, q.expectedTask, p.accepted, Some(p.source.texts), Undone);
      }
    }
  }

  lemma ApplyWritesOne(s: Store, q: Request)
    requires q.Apply? && DistinctIds(s.tasks)
    ensures WritesOne(s.tasks, Target(s, q), q.expectedTask, ApplyStep(s, q).store.tasks)
  {
    hide WritesOne, NewCriteria, Trimmed, Unreviewed;
    var tasks := ApplyStep(s, q).store.tasks;
    if tasks != s.tasks {
      var id := s.refinements[q.id].taskId;
      ReplaceWritesOne(s.tasks, id, tasks[IndexOf(s.tasks, id).value]);
    } else {
      NothingWritten(s.tasks, Target(s, q), q.expectedTask);
    }
  }

  lemma StepWritesOneTask(s: Store, q: Request)
    requires DistinctIds(s.tasks)
    ensures WritesOne(s.tasks, Target(s, q), SeenRevision(q), Handle(s, q).store.tasks)
  {
    hide WritesOne, PutStep, DeleteStep, RestoreStep, ApplyStep, EnhancementStep;
    if q.Put? {
      PutWritesOne(s, q);
    } else if q.Delete? || q.Restore? {
      DeleteOrRestoreWritesOne(s, q);
    } else if q.Apply? {
      ApplyWritesOne(s, q);
    } else if IsEnhancement(q) {
      EnhancementWritesOne(s, q);
    } else {
      NothingWritten(s.tasks, Target(s, q), SeenRevision(q));
    }
  }

  function Writes(s: Store, run: seq<Request>, i: nat, id: Id): nat
    requires i <= |run|
  {
    if i == 0 then 0
    else
      Writes(s, run, i - 1, id)
      + if WritesTask(StoreAt(s, run, i - 1), run[i - 1])
          && Target(StoreAt(s, run, i - 1), run[i - 1]) == Some(id) then 1 else 0
  }

  /** Over a whole run, a task's revision rises by exactly the number of committed writes to it. */
  lemma {:induction false} RevisionsCountWrites(s: Store, run: seq<Request>, i: nat, id: Id)
    requires i <= |run| && DistinctIds(s.tasks)
    ensures DistinctIds(StoreAt(s, run, i).tasks)
    ensures RevisionOf(StoreAt(s, run, i).tasks, id) == RevisionOf(s.tasks, id) + Writes(s, run, i, id)
  {
    hide Handle, Target;
    if i > 0 {
      RevisionsCountWrites(s, run, i - 1, id);
      StepWritesOneTask(StoreAt(s, run, i - 1), run[i - 1]);
      SameFoundSameRevision(StoreAt(s, run, i - 1).tasks, StoreAt(s, run, i).tasks, id);
    }
  }

  lemma SameFoundSameRevision(tasks: seq<Task>, others: seq<Task>, id: Id)
    ensures Found(tasks, id) == Found(others, id) ==> RevisionOf(tasks, id) == RevisionOf(others, id)
  {}

  lemma {:induction false} WritesGrow(s: Store, run: seq<Request>, i: nat, j: nat, id: Id)
    requires i <= j <= |run|
    ensures Writes(s, run, i, id) <= Writes(s, run, j, id)
  {
    hide Handle, Target;
    if i < j { WritesGrow(s, run, i, j - 1, id); }
  }

  /** No lost update: of two writers who saw the same revision of a task, at most one commits. */
  lemma NoLostUpdate(s: Store, run: seq<Request>, i: nat, j: nat, id: Id)
    requires i < j < |run| && DistinctIds(s.tasks)
    requires Target(StoreAt(s, run, i), run[i]) == Some(id) && Target(StoreAt(s, run, j), run[j]) == Some(id)
    requires SeenRevision(run[i]) == SeenRevision(run[j])
    ensures !WritesTask(StoreAt(s, run, i), run[i]) || !WritesTask(StoreAt(s, run, j), run[j])
  {
    hide Handle, Target, SeenRevision;
    RevisionsCountWrites(s, run, i, id);
    RevisionsCountWrites(s, run, i + 1, id);
    RevisionsCountWrites(s, run, j, id);
    WritesGrow(s, run, i + 1, j, id);
    StepWritesOneTask(StoreAt(s, run, i), run[i]);
    StepWritesOneTask(StoreAt(s, run, j), run[j]);
  }

  // ---- Completion times -------------------------------------------------------------------------------

  /** A task carries a completion time exactly while it is Done. */
  ghost predicate Stamped(tasks: seq<Task>) {
    forall t <- tasks :: t.status == DONE <==> t.completedAt.Some?
  }

  lemma PutKeepsStamps(s: Store, q: Request)
    requires q.Put? && Stamped(s.tasks)
    ensures Stamped(Handle(s, q).store.tasks)
  {
    var p := Found(s.tasks, q.draft.id);
    if p.Some? { assert p.value in s.tasks; }
    hide IndexOf;
  }

  /** Any other write puts a task in the place of one with the same status, completion time and links. */
  lemma OtherWritesKeepFields(s: Store, q: Request) returns (i: nat)
    requires WritesTask(s, q) && !q.Put?
    ensures i < |s.tasks| == |Handle(s, q).store.tasks|
    ensures var item := Handle(s, q).store.tasks[i];
            && Handle(s, q).store.tasks == s.tasks[i := item]
            && item.status == s.tasks[i].status && item.completedAt == s.tasks[i].completedAt
            && item.repositoryIds == s.tasks[i].repositoryIds
  {
    hide CopyFields, NewCriteria, Trimmed, Unreviewed, RepositoryIndex, Holder, IndexOf;
    i := IndexOf(s.tasks, Target(s, q).value).value;
  }

  lemma StepKeepsStamps(s: Store, q: Request)
    requires Stamped(s.tasks)
    ensures Stamped(Handle(s, q).store.tasks)
  {
    hide Handle;
    if q.Put? {
      PutKeepsStamps(s, q);
    } else if WritesTask(s, q) {
      var i := OtherWritesKeepFields(s, q);
      assert s.tasks[i] in s.tasks;
      var tasks := Handle(s, q).store.tasks;
      forall t <- tasks ensures t.status == DONE <==> t.completedAt.Some? {
        assert t in s.tasks || t == tasks[i];
      }
    }
  }

  lemma {:induction false} RunKeepsStamps(s: Store, run: seq<Request>, i: nat)
    requires i <= |run| && Stamped(s.tasks)
    ensures Stamped(StoreAt(s, run, i).tasks)
  {
    hide Handle;
    if i > 0 {
      RunKeepsStamps(s, run, i - 1);
      StepKeepsStamps(StoreAt(s, run, i - 1), run[i - 1]);
    }
  }
}
