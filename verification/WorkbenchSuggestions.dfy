/** Suggestions for a task: accepting one, undoing it again, and what stays as it was. */
module WorkbenchSuggestions {
  import opened Options
  import opened WorkbenchStore
  import opened WorkbenchRuns

  function FieldOf(t: Texts, f: Field): Option<string> {
    if f.Title? then t.title else t.description
  }

  lemma CopyNothing(t: Texts)
    ensures CopyFields(t, t, []) == t
  {}

  /** The task a suggestion is written into, as it is after. */
  function Written(before: Task, fields: seq<Field>, from: Option<Texts>): Task {
    before.(texts := CopyFields(before.texts, GetOr(from, before.texts), fields), revision := before.revision + 1)
  }

  lemma WriteStepParts(s: Store, requestId: Id, p: Proposal, expectedTask: nat,
                       fields: Option<seq<Field>>, from: Option<Texts>, state: ProposalState)
    requires WriteStep(s, requestId, p, expectedTask, fields, from, state).store.tasks != s.tasks
    ensures IndexOf(s.tasks, p.taskId).Some? && fields.Some?
    ensures var i, s' := IndexOf(s.tasks, p.taskId).value,
              WriteStep(s, requestId, p, expectedTask, fields, from, state).store;
            && s'.tasks == s.tasks[i := Written(s.tasks[i], fields.value, from)]
            && s'.proposals == s.proposals[p.id := p.(state := state, accepted := fields)]
            && s'.receipts.Keys == s.receipts.Keys + {requestId}
  {
    CopyNothing(s.tasks[IndexOf(s.tasks, p.taskId).value].texts);
    hide CopyFields, IndexOf;
  }

  /** What writing a suggestion's fields does when it goes through. */
  lemma WriteStepEffect(s: Store, requestId: Id, p: Proposal, expectedTask: nat,
                        fields: Option<seq<Field>>, from: Option<Texts>, state: ProposalState)
    requires WriteStep(s, requestId, p, expectedTask, fields, from, state).store.tasks != s.tasks
    ensures Found(s.tasks, p.taskId).Some? && fields.Some?
    ensures var s' := WriteStep(s, requestId, p, expectedTask, fields, from, state).store;
            && Found(s'.tasks, p.taskId) == Some(Written(Found(s.tasks, p.taskId).value, fields.value, from))
            && s'.proposals == s.proposals[p.id := p.(state := state, accepted := fields)]
            && s'.receipts.Keys == s.receipts.Keys + {requestId}
  {
    hide WriteStep, CopyFields, IndexOf;
    WriteStepParts(s, requestId, p, expectedTask, fields, from, state);
    var i := IndexOf(s.tasks, p.taskId).value;
    ReplaceFound(s.tasks, p.taskId, Written(s.tasks[i], fields.value, from));
  }

  /** The suggestion as accepting or undoing picks it up. */
  function Raised(p: Proposal): Proposal {
    p.(revision := p.revision + 1)
  }

  lemma AcceptIsWrite(s: Store, q: Request)
    requires q.Accept? && WritesTask(s, q)
    ensures q.id in s.proposals
    ensures Handle(s, q)
         == WriteStep(s, q.requestId, Raised(s.proposals[q.id]), q.expectedTask, Some(q.fields),
             s.proposals[q.id].proposed, Accepted)
  {
    hide WriteStep;
  }

  lemma UndoIsWrite(s: Store, q: Request)
    requires q.Undo? && WritesTask(s, q)
    ensures q.id in s.proposals
    ensures var p := s.proposals[q.id];
            Handle(s, q) == WriteStep(s, q.requestId, Raised(p), q.expectedTask, p.accepted, Some(p.source.texts),
                Undone)
  {
    hide WriteStep;
  }

  /** What accepting and undoing do to the task when they go through. */
  lemma AcceptAndUndoWrite(s: Store, q: Request)
    requires (q.Accept? || q.Undo?) && WritesTask(s, q)
    ensures q.id in s.proposals && Found(s.tasks, s.proposals[q.id].taskId).Some?
    ensures var p, s' := s.proposals[q.id], Handle(s, q).store;
            var before := Found(s.tasks, p.taskId).value;
            var fields := if q.Accept? then q.fields else GetOr(p.accepted, []);
            var from := if q.Accept? then GetOr(p.proposed, before.texts) else p.source.texts;
            && Found(s'.tasks, p.taskId)
               == Some(before.(texts := CopyFields(before.texts, from, fields), revision := before.revision + 1))
            && s'.proposals == s.proposals[p.id := p.(revision := p.revision + 1, accepted := Some(fields),
                                                      state := if q.Accept? then Accepted else Undone)]
            && s'.receipts.Keys == s.receipts.Keys + {q.requestId}
  {
    hide WriteStep, CopyFields, Found, Handle;
    if q.Accept? {
      AcceptIsWrite(s, q);
      var p := s.proposals[q.id];
      WriteStepEffect(s, q.requestId, Raised(p), q.expectedTask, Some(q.fields), p.proposed, Accepted);
    } else {
      UndoIsWrite(s, q);
      var p := s.proposals[q.id];
      WriteStepEffect(s, q.requestId, Raised(p), q.expectedTask, p.accepted, Some(p.source.texts), Undone);
    }
  }

  /** Accepting writes the selected fields of the suggestion, undoing writes the same fields of the
      task as it was when the suggestion was made, and no other field changes either time. */
  lemma OnlySelectedFieldsChange(s: Store, q: Request, f: Field)
    requires (q.Accept? || q.Undo?) && WritesTask(s, q)
    ensures q.id in s.proposals && Found(s.tasks, s.proposals[q.id].taskId).Some?
    ensures var p := s.proposals[q.id];
            var before, after := Found(s.tasks, p.taskId).value, Found(Handle(s, q).store.tasks, p.taskId);
            var chosen := if q.Accept? then q.fields else GetOr(p.accepted, []);
            && after.Some?
            && (f !in chosen ==> FieldOf(after.value.texts, f) == FieldOf(before.texts, f))
            && (q.Undo? && f in chosen ==> FieldOf(after.value.texts, f) == FieldOf(p.source.texts, f))
            && (q.Accept? && f in chosen && p.proposed.Some?
                ==> FieldOf(after.value.texts, f) == FieldOf(p.proposed.value, f))
  {
    hide Handle, Found;
    AcceptAndUndoWrite(s, q);
  }

  /** Whether the fields still read as they do in `from`. */
  predicate FieldsAgree(t: Texts, from: Texts, fields: seq<Field>) {
    forall f :: f in fields ==> FieldOf(t, f) == FieldOf(from, f)
  }

  lemma CopyRestoresWhenAgreeing(t: Texts, via: Texts, from: Texts, fields: seq<Field>)
    ensures CopyFields(CopyFields(t, via, fields), from, fields) == CopyFields(t, from, fields)
    ensures CopyFields(t, from, fields) == t <==> FieldsAgree(t, from, fields)
  {
    if CopyFields(t, from, fields) != t {
      assert (Title in fields && FieldOf(t, Title) != FieldOf(from, Title))
          || (Description in fields && FieldOf(t, Description) != FieldOf(from, Description));
    }
  }

  lemma UndoGoesThrough(s: Store, q: Request)
    requires q.Undo? && q.requestId !in s.receipts && q.id in s.proposals
    requires s.proposals[q.id].revision == q.expected && s.proposals[q.id].accepted.Some?
    requires Found(s.tasks, s.proposals[q.id].taskId).Some?
    requires RevisionOf(s.tasks, s.proposals[q.id].taskId) == q.expectedTask
    ensures WritesTask(s, q) && Handle(s, q).outcome.Answered?
  {
    var i := IndexOf(s.tasks, s.proposals[q.id].taskId).value;
    assert Handle(s, q).store.tasks[i].revision == s.tasks[i].revision + 1;
  }

  // ---- Undoing an acceptance ------------------------------------------------------------------------

  /** Suggestions are stored under their own ids. */
  ghost predicate ProposalsKeyed(s: Store) {
    forall id :: id in s.proposals ==> s.proposals[id].id == id
  }

  lemma EnhancementKeepsProposalKeys(s: Store, q: Request)
    requires IsEnhancement(q) && ProposalsKeyed(s)
    ensures ProposalsKeyed(EnhancementStep(s, q).store)
  {
    hide IndexOf;
  }

  lemma StepKeepsProposalKeys(s: Store, q: Request)
    requires ProposalsKeyed(s)
    ensures ProposalsKeyed(Handle(s, q).store)
  {
    hide IndexOf, Unreviewed, NewCriteria, RepositoryIndex, Holder, EnhancementStep;
    if IsEnhancement(q) { EnhancementKeepsProposalKeys(s, q); }
  }

  lemma {:induction false} RunKeepsProposalKeys(s: Store, run: seq<Request>, i: nat)
    requires i <= |run| && ProposalsKeyed(s)
    ensures ProposalsKeyed(StoreAt(s, run, i))
  {
    hide Handle, ProposalsKeyed;
    if i > 0 {
      RunKeepsProposalKeys(s, run, i - 1);
      StepKeepsProposalKeys(StoreAt(s, run, i - 1), run[i - 1]);
    }
  }

  /** A request that writes neither the task nor the suggestion. */
  ghost predicate LeavesAlone(s: Store, q: Request, taskId: Id, id: Id) {
    && (WritesTask(s, q) ==> Target(s, q) != Some(taskId))
    && (id in s.proposals ==> id in Handle(s, q).store.proposals && Handle(s, q).store.proposals[id] == s.proposals[id])
  }

  lemma {:induction false} LeftAlone(s: Store, run: seq<Request>, i: nat, j: nat, taskId: Id, id: Id)
    requires i <= j <= |run| && DistinctIds(s.tasks) && id in StoreAt(s, run, i).proposals
    requires forall k :: i <= k < j ==> LeavesAlone(StoreAt(s, run, k), run[k], taskId, id)
    ensures Found(StoreAt(s, run, j).tasks, taskId) == Found(StoreAt(s, run, i).tasks, taskId)
    ensures id in StoreAt(s, run, j).proposals
    ensures StoreAt(s, run, j).proposals[id] == StoreAt(s, run, i).proposals[id]
  {
    hide Handle, Target, Found, DistinctIds;
    if i < j {
      LeftAlone(s, run, i, j - 1, taskId, id);
      RevisionsCountWrites(s, run, j - 1, taskId);
      assert LeavesAlone(StoreAt(s, run, j - 1), run[j - 1], taskId, id);
      StepWritesOneTask(StoreAt(s, run, j - 1), run[j - 1]);
    }
  }

  lemma AcceptGuards(s: Store, q: Request)
    requires q.Accept? && WritesTask(s, q)
    ensures q.id in s.proposals && s.proposals[q.id].revision == q.expected && q.requestId !in s.receipts
    ensures RevisionOf(s.tasks, s.proposals[q.id].taskId) == q.expectedTask
  {
  }

  /** Accepting, seen from the task and from the suggestion. */
  lemma AcceptPart(s: Store, q: Request, p: Proposal)
    requires q.Accept? && WritesTask(s, q) && ProposalsKeyed(s) && q.id in s.proposals && p == s.proposals[q.id]
    ensures Found(s.tasks, p.taskId).Some?
    ensures var before, s' := Found(s.tasks, p.taskId).value, Handle(s, q).store;
            && before.revision == q.expectedTask && p.revision == q.expected
            && q.id in s'.proposals
            && s'.proposals[q.id] == p.(revision := p.revision + 1, accepted := Some(q.fields), state := Accepted)
            && Found(s'.tasks, p.taskId)
               == Some(before.(texts := CopyFields(before.texts, GetOr(p.proposed, before.texts), q.fields),
                               revision := before.revision + 1))
  {
    hide Handle, Found, CopyFields, RevisionOf;
    AcceptGuards(s, q);
    AcceptAndUndoWrite(s, q);
    FoundRevision(s.tasks, p.taskId);
  }

  lemma UndoPart(s: Store, q: Request, p: Proposal, task: Task)
    requires q.Undo? && q.requestId !in s.receipts && q.id in s.proposals && p == s.proposals[q.id]
    requires p.revision == q.expected && p.accepted.Some?
    requires Found(s.tasks, p.taskId) == Some(task) && task.revision == q.expectedTask
    ensures WritesTask(s, q) && Handle(s, q).outcome.Answered?
    ensures Found(Handle(s, q).store.tasks, p.taskId)
         == Some(task.(texts := CopyFields(task.texts, p.source.texts, p.accepted.value),
             revision := task.revision + 1))
  {
    hide Handle, Found, CopyFields, RevisionOf;
    FoundRevision(s.tasks, p.taskId);
    UndoGoesThrough(s, q);
    AcceptAndUndoWrite(s, q);
  }

  /** No task but the named one differs. */
  ghost predicate SameElsewhere(before: Store, after: Store, taskId: Id) {
    forall id :: id != taskId ==> Found(after.tasks, id) == Found(before.tasks, id)
  }

  /** Accepting and later undoing, under the revisions the first answer reports, with any requests in
      between that leave this task and this suggestion alone, always goes through. It restores the
      task up to two revisions exactly when the accepted fields still read as they did when the
      suggestion was made; neither of the two touches another task. */
  lemma AcceptThenUndo(s: Store, run: seq<Request>, i: nat, j: nat, p: Proposal)
    requires i < j < |run| && DistinctIds(s.tasks) && ProposalsKeyed(s)
    requires run[i].Accept? && run[j].Undo? && run[i].id == run[j].id
    requires run[i].id in StoreAt(s, run, i).proposals && p == StoreAt(s, run, i).proposals[run[i].id]
    requires WritesTask(StoreAt(s, run, i), run[i]) && run[j].requestId !in StoreAt(s, run, j).receipts
    requires run[j].expected == run[i].expected + 1 && run[j].expectedTask == run[i].expectedTask + 1
    requires forall k :: i < k < j ==> LeavesAlone(StoreAt(s, run, k), run[k], p.taskId, run[i].id)
    ensures WritesTask(StoreAt(s, run, j), run[j]) && OutcomeAt(s, run, j).Answered?
    ensures Found(StoreAt(s, run, i).tasks, p.taskId).Some?
    ensures var before, after := Found(StoreAt(s, run, i).tasks, p.taskId).value,
              Found(StoreAt(s, run, j + 1).tasks, p.taskId);
            && after.Some?
            && (after.value == before.(revision := before.revision + 2)
                <==> FieldsAgree(before.texts, p.source.texts, run[i].fields))
    ensures SameElsewhere(StoreAt(s, run, i), StoreAt(s, run, i + 1), p.taskId)
    ensures SameElsewhere(StoreAt(s, run, j), StoreAt(s, run, j + 1), p.taskId)
  {
    hide Handle, Found, CopyFields, FieldsAgree, LeavesAlone, SameElsewhere, WritesTask, ProposalsKeyed, DistinctIds;
    RunKeepsProposalKeys(s, run, i);
    RevisionsCountWrites(s, run, i, p.taskId);
    RevisionsCountWrites(s, run, j, p.taskId);
    AcceptPart(StoreAt(s, run, i), run[i], p);
    LeftAlone(s, run, i + 1, j, p.taskId, run[i].id);
    UndoAfterAccept(StoreAt(s, run, i), run[i], StoreAt(s, run, j), run[j], p);
  }

  /** The same with the stores before the two requests at hand. */
  lemma UndoAfterAccept(s: Store, q: Request, t: Store, u: Request, p: Proposal)
    requires DistinctIds(s.tasks) && DistinctIds(t.tasks) && ProposalsKeyed(s)
    requires q.Accept? && WritesTask(s, q) && q.id in s.proposals && p == s.proposals[q.id]
    requires u.Undo? && u.requestId !in t.receipts && u.id == q.id
    requires u.expected == q.expected + 1 && u.expectedTask == q.expectedTask + 1
    requires u.id in t.proposals && u.id in Handle(s, q).store.proposals
    requires t.proposals[u.id] == Handle(s, q).store.proposals[u.id]
    requires Found(t.tasks, p.taskId) == Found(Handle(s, q).store.tasks, p.taskId)
    ensures WritesTask(t, u) && Handle(t, u).outcome.Answered? && Found(s.tasks, p.taskId).Some?
    ensures var before, after := Found(s.tasks, p.taskId).value, Found(Handle(t, u).store.tasks, p.taskId);
            && after.Some?
            && (after.value == before.(revision := before.revision + 2)
                <==> FieldsAgree(before.texts, p.source.texts, q.fields))
    ensures SameElsewhere(s, Handle(s, q).store, p.taskId) && SameElsewhere(t, Handle(t, u).store, p.taskId)
  {
    hide Handle, Found, CopyFields, FieldsAgree, SameElsewhere, WritesTask, ProposalsKeyed, DistinctIds;
    AcceptPart(s, q, p);
    UndoPart(t, u, t.proposals[u.id], Found(t.tasks, p.taskId).value);
    var before := Found(s.tasks, p.taskId).value;
    CopyRestoresWhenAgreeing(before.texts, GetOr(p.proposed, before.texts), p.source.texts, q.fields);
    OthersStay(s, q, p.taskId);
    OthersStay(t, u, p.taskId);
  }

  lemma FoundRevision(tasks: seq<Task>, id: Id)
    requires Found(tasks, id).Some?
    ensures Found(tasks, id).value.revision == RevisionOf(tasks, id)
  {
  }

  lemma OthersStay(s: Store, q: Request, taskId: Id)
    requires DistinctIds(s.tasks) && WritesTask(s, q) && (q.Accept? || q.Undo?)
    requires q.id in s.proposals && s.proposals[q.id].taskId == taskId
    ensures SameElsewhere(s, Handle(s, q).store, taskId)
  {
    hide Handle, Found, DistinctIds;
    StepWritesOneTask(s, q);
  }

  // ---- An acceptance that cannot be undone -------------------------------------------------------------

  function TitleDraft(title: string): Draft {
    Draft("t", Texts(Some(title), None), "ready", None, None, None, None, [], [], [], 0, false)
  }

  function TitleTask(title: string, revision: nat): Task {
    Task("t", revision, 2, Texts(Some(title), None), "ready", false, None, None, [], [], [], [], [], 0)
  }

  /** The suggestion once it is complete. */
  function TitleSuggestion(): Proposal {
    Proposal("p", 2, "t", 1, TitleTask("a", 1), [Title], Ready, Some(Texts(Some("c"), None)), None, None, Some(""))
  }

  /** A title saved as "a", a suggestion "c" for it, and the title saved as "b". */
  function EditedMeanwhile(): seq<Request> {
    [Put("r1", TitleDraft("a"), 0, 0), Create("r2", "p", "t", [Title]),
     Complete("r3", "p", 1, None, Texts(Some("c"), None), None), Put("r4", TitleDraft("b"), 1, 0)]
  }

  lemma SaveTitle(s: Store, requestId: Id, title: string, revision: nat)
    requires requestId !in s.receipts
    requires s.tasks == if revision == 0 then [] else [TitleTask("a", revision)]
    ensures var s' := Handle(s, Put(requestId, TitleDraft(title), revision, 0)).store;
            && s'.tasks == [TitleTask(title, revision + 1)] && s'.proposals == s.proposals
            && s'.receipts.Keys == s.receipts.Keys + {requestId}
  {
    if revision > 0 { assert Without(s.tasks, "t") == []; }
    assert [] + [TitleTask(title, revision + 1)] == [TitleTask(title, revision + 1)];
  }

  lemma SuggestTitle(s: Store)
    requires s.tasks == [TitleTask("a", 1)] && "r2" !in s.receipts && "r3" !in s.receipts
    ensures var s' := Handle(Handle(s, Create("r2", "p", "t", [Title])).store,
                             Complete("r3", "p", 1, None, Texts(Some("c"), None), None)).store;
            && s'.tasks == s.tasks && s'.receipts.Keys == s.receipts.Keys + {"r2", "r3"}
            && "p" in s'.proposals
            && s'.proposals["p"] == TitleSuggestion()
  {
  }

  lemma AcceptGoesThrough(s: Store, q: Request)
    requires q.Accept? && q.requestId !in s.receipts && q.id in s.proposals
    requires s.proposals[q.id].revision == q.expected && s.proposals[q.id].proposed.Some?
    requires Found(s.tasks, s.proposals[q.id].taskId).Some?
    requires RevisionOf(s.tasks, s.proposals[q.id].taskId) == q.expectedTask
    ensures WritesTask(s, q) && Handle(s, q).outcome.Answered?
  {
    var i := IndexOf(s.tasks, s.proposals[q.id].taskId).value;
    assert Handle(s, q).store.tasks[i].revision == s.tasks[i].revision + 1;
  }

  /** The input on which undoing does not restore: the title read "b" before the suggestion was accepted,
      and reads "a" after it was undone. */
  lemma UndoLosesAnEdit(run: seq<Request>)
    requires run == EditedMeanwhile() + [Accept("r5", "p", 2, 2, [Title]), Undo("r6", "p", 3, 3)]
    ensures Found(StoreAt(NOTHING, run, 4).tasks, "t") == Some(TitleTask("b", 2))
    ensures WritesTask(StoreAt(NOTHING, run, 4), run[4]) && WritesTask(StoreAt(NOTHING, run, 5), run[5])
    ensures Found(StoreAt(NOTHING, run, 6).tasks, "t") == Some(TitleTask("a", 4))
  {
    var s1, s3, s4 := StoreAt(NOTHING, run, 1), StoreAt(NOTHING, run, 3), StoreAt(NOTHING, run, 4);
    assert StoreAt(NOTHING, run, 0) == NOTHING;
    hide Handle, Found, WritesTask, TitleTask, TitleDraft, CopyFields, StoreAt;
    NextStore(NOTHING, run, 0);
    NextStore(NOTHING, run, 1);
    NextStore(NOTHING, run, 2);
    NextStore(NOTHING, run, 3);
    NextStore(NOTHING, run, 4);
    NextStore(NOTHING, run, 5);
    SaveTitle(NOTHING, "r1", "a", 0);
    SuggestTitle(s1);
    SaveTitle(s3, "r4", "b", 1);
    AcceptsAndUndoes(s4);
  }

  lemma AcceptsAndUndoes(s: Store)
    requires s.tasks == [TitleTask("b", 2)] && s.receipts.Keys == {"r1", "r2", "r3", "r4"} && "p" in s.proposals
    requires s.proposals["p"] == TitleSuggestion()
    ensures var q, u := Accept("r5", "p", 2, 2, [Title]), Undo("r6", "p", 3, 3);
            && Found(s.tasks, "t") == Some(TitleTask("b", 2))
            && WritesTask(s, q) && WritesTask(Handle(s, q).store, u)
            && Found(Handle(Handle(s, q).store, u).store.tasks, "t") == Some(TitleTask("a", 4))
  {
    var q, u := Accept("r5", "p", 2, 2, [Title]), Undo("r6", "p", 3, 3);
    assert Found(s.tasks, "t") == Some(TitleTask("b", 2));
    hide Handle, Found, WritesTask;
    FoundRevision(s.tasks, "t");
    AcceptGoesThrough(s, q);
    AcceptAndUndoWrite(s, q);
    var t := Handle(s, q).store;
    FoundRevision(t.tasks, "t");
    UndoGoesThrough(t, u);
    AcceptAndUndoWrite(t, u);
  }
}
