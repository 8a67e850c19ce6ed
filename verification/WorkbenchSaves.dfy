/** Saving a task: what becomes of the fields a save leaves out, and of the completion time. */
module WorkbenchSaves {
  import opened Options
  import opened WorkbenchStore
  import opened WorkbenchRuns
  import opened WorkbenchSuggestions

  /** A save that does its work. */
  predicate Saves(s: Store, q: Request) {
    q.Put? && q.requestId !in s.receipts && Handle(s, q).outcome.Answered?
  }

  /** The field of a task before and after a save that may leave it out. */
  predicate Stays<T(==)>(sent: Option<T>, before: T, after: T) {
    sent.None? ==> after == before
  }

  lemma SaveReplaces(s: Store, q: Request)
    requires Saves(s, q)
    ensures Found(Handle(s, q).store.tasks, q.draft.id)
         == Some(Saved(Found(s.tasks, q.draft.id), q.draft, q.expected, q.now))
  {
    AppendFound(s.tasks, Saved(Found(s.tasks, q.draft.id), q.draft, q.expected, q.now), q.draft.id);
  }

  /** A save that leaves out the archive flag, the checklist or the links keeps what is stored. One that
      leaves out the due date, the title or the description keeps it exactly when there is none to keep. */
  lemma OmittedFieldsStayExactlyWhen(s: Store, q: Request)
    requires Saves(s, q) && Found(s.tasks, q.draft.id).Some?
    ensures Found(Handle(s, q).store.tasks, q.draft.id).Some?
    ensures var d, before, after := q.draft, Found(s.tasks, q.draft.id).value,
              Found(Handle(s, q).store.tasks, q.draft.id).value;
            && Stays(d.archived, before.archived, after.archived)
            && Stays(d.checklist, before.checklist, after.checklist)
            && Stays(d.links, before.links, after.links)
            && (d.dueAt.None? ==> (after.dueAt == before.dueAt <==> before.dueAt.None?))
            && (d.texts.title.None? ==> (after.texts.title == before.texts.title <==> before.texts.title.None?))
            && (d.texts.description.None?
                ==> (after.texts.description == before.texts.description <==> before.texts.description.None?))
  {
    hide Handle;
    SaveReplaces(s, q);
  }

  /** The input on which the promise fails, from the empty store: a task saved with a due date, and saved
      again without naming one. The second save drops it. */
  lemma OmittedDueDateIsLost(run: seq<Request>)
    requires run == [Put("r1", DueDraft(Some(7)), 0, 0), Put("r2", DueDraft(None), 1, 0)]
    ensures Saves(NOTHING, run[0]) && Saves(StoreAt(NOTHING, run, 1), run[1])
    ensures Found(StoreAt(NOTHING, run, 1).tasks, "t") == Some(DueTask(Some(7), 1))
    ensures Found(StoreAt(NOTHING, run, 2).tasks, "t") == Some(DueTask(None, 2))
  {
    var s := StoreAt(NOTHING, run, 1);
    NextStore(NOTHING, run, 0);
    NextStore(NOTHING, run, 1);
    assert StoreAt(NOTHING, run, 0) == NOTHING;
    hide StoreAt;
    assert Saves(NOTHING, run[0]);
    SaveReplaces(NOTHING, run[0]);
    assert Saves(s, run[1]);
    SaveReplaces(s, run[1]);
  }

  function DueDraft(dueAt: Option<int>): Draft {
    Draft("t", Texts(Some("title"), None), "ready", None, dueAt, None, None, [], [], [], 0, false)
  }

  function DueTask(dueAt: Option<int>, revision: nat): Task {
    Task("t", revision, 2, Texts(Some("title"), None), "ready", false, None, dueAt, [], [], [], [], [], 0)
  }

  // ---- Completion times -------------------------------------------------------------------------------

  function TimeOf(tasks: seq<Task>, id: Id): Option<int> {
    if Found(tasks, id).Some? then Found(tasks, id).value.completedAt else None
  }

  /** The completion time is the moment of the save that made the task Done, and every request that
      leaves it Done keeps it. */
  lemma StepKeepsTimes(s: Store, q: Request, id: Id)
    requires DistinctIds(s.tasks) && IsDone(Handle(s, q).store.tasks, id)
    ensures IsDone(s.tasks, id) ==> TimeOf(Handle(s, q).store.tasks, id) == TimeOf(s.tasks, id)
    ensures !IsDone(s.tasks, id) ==>
              Saves(s, q) && q.draft.id == id && TimeOf(Handle(s, q).store.tasks, id) == Some(q.now)
  {
    if Saves(s, q) {
      hide Handle;
      SaveReplaces(s, q);
      StepWritesOneTask(s, q);
    } else if Handle(s, q).store.tasks != s.tasks {
      OtherStepsKeepTimes(s, q);
    }
  }

  /** The same tasks are found, with the same status and completion time. */
  ghost predicate SameTimes(before: seq<Task>, after: seq<Task>) {
    forall id :: Found(before, id).Some? == Found(after, id).Some?
                 && (Found(before, id).Some?
                     ==> && Found(after, id).value.status == Found(before, id).value.status
                         && Found(after, id).value.completedAt == Found(before, id).value.completedAt)
  }

  lemma ReplaceKeepsTimes(tasks: seq<Task>, id: Id, item: Task)
    requires IndexOf(tasks, id).Some? && item.id == id
    requires var t := tasks[IndexOf(tasks, id).value]; item.status == t.status && item.completedAt == t.completedAt
    ensures SameTimes(tasks, tasks[IndexOf(tasks, id).value := item])
  {
    ReplaceFound(tasks, id, item);
  }

  lemma DeleteOrRestoreKeepsTimes(s: Store, q: Request)
    requires (q.Delete? || q.Restore?) && WritesTask(s, q)
    ensures SameTimes(s.tasks, Handle(s, q).store.tasks)
  {
    hide SameTimes;
    var at := IndexOf(s.tasks, q.id);
    ReplaceKeepsTimes(s.tasks, q.id, Handle(s, q).store.tasks[at.value]);
  }

  lemma ApplyKeepsTimes(s: Store, q: Request)
    requires q.Apply? && WritesTask(s, q)
    ensures SameTimes(s.tasks, Handle(s, q).store.tasks)
  {
    hide SameTimes, NewCriteria, Trimmed, Unreviewed;
    var id := s.refinements[q.id].taskId;
    ReplaceKeepsTimes(s.tasks, id, Handle(s, q).store.tasks[IndexOf(s.tasks, id).value]);
  }

  lemma WriteKeepsTimes(s: Store, requestId: Id, p: Proposal, expectedTask: nat,
                        fields: Option<seq<Field>>, from: Option<Texts>, state: ProposalState)
    requires WriteStep(s, requestId, p, expectedTask, fields, from, state).store.tasks != s.tasks
    ensures SameTimes(s.tasks, WriteStep(s, requestId, p, expectedTask, fields, from, state).store.tasks)
  {
    hide SameTimes, CopyFields;
    var s' := WriteStep(s, requestId, p, expectedTask, fields, from, state).store;
    ReplaceKeepsTimes(s.tasks, p.taskId, s'.tasks[IndexOf(s.tasks, p.taskId).value]);
  }

  /** Every other request leaves all tasks' status and completion time. */
  lemma OtherStepsKeepTimes(s: Store, q: Request)
    requires WritesTask(s, q) && !q.Put?
    ensures SameTimes(s.tasks, Handle(s, q).store.tasks)
  {
    hide SameTimes, WriteStep, IndexOf, RepositoryIndex, Holder, Unreviewed, NewCriteria, Trimmed;
    if q.Delete? || q.Restore? {
      DeleteOrRestoreKeepsTimes(s, q);
    } else if q.Apply? {
      ApplyKeepsTimes(s, q);
    } else if q.Accept? {
      AcceptIsWrite(s, q);
      var p := s.proposals[q.id];
      WriteKeepsTimes(s, q.requestId, Raised(p), q.expectedTask, Some(q.fields), p.proposed, Accepted);
    } else {
      UndoIsWrite(s, q);
      var p := s.proposals[q.id];
      WriteKeepsTimes(s, q.requestId, Raised(p), q.expectedTask, p.accepted, Some(p.source.texts), Undone);
    }
  }

  /** While a task stays Done its completion time stays what it was, over every run. */
  lemma {:induction false} CompletionTimeStays(s: Store, run: seq<Request>, i: nat, j: nat, id: Id)
    requires i <= j <= |run| && DistinctIds(s.tasks)
    requires forall k :: i <= k <= j ==> IsDone(StoreAt(s, run, k).tasks, id)
    ensures TimeOf(StoreAt(s, run, j).tasks, id) == TimeOf(StoreAt(s, run, i).tasks, id)
  {
    hide Handle, IsDone, TimeOf;
    if i < j {
      CompletionTimeStays(s, run, i, j - 1, id);
      NextStore(s, run, j - 1);
      assert IsDone(StoreAt(s, run, j).tasks, id) && IsDone(StoreAt(s, run, j - 1).tasks, id);
      RevisionsCountWrites(s, run, j - 1, id);
      StepKeepsTimes(StoreAt(s, run, j - 1), run[j - 1], id);
    }
  }
}
