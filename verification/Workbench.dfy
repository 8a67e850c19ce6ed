/** The request handler as the program runs it: fields updated in place, one method per request,
    each proved against its step in `WorkbenchStore`. */
module Workbench {
  import opened Options
  import opened Collections
  import opened Decimal
  import opened WorkbenchStore
  import opened WorkbenchRuns
  import opened WorkbenchReviews
  import opened WorkbenchMerge

  class Handler {
    var tasks: seq<Task>
    var deleted: set<Id>
    var receipts: map<Id, Reply>
    var proposals: map<Id, Proposal>
    var refinements: map<Id, Refinement>
    var filed: map<string, Id>
    var repositories: seq<Repository>
    var relatedCount: nat

    constructor (s: Store)
      ensures Contents() == s
    {
      tasks, deleted, receipts := s.tasks, s.deleted, s.receipts;
      proposals, refinements, filed := s.proposals, s.refinements, s.filed;
      repositories, relatedCount := s.repositories, s.relatedCount;
    }

    function Contents(): Store
      reads this
    {
      Store(tasks, deleted, receipts, proposals, refinements, filed, repositories, relatedCount)
    }

    method Put(q: Request) returns (outcome: Outcome)
      requires q.Put?
      modifies this
      ensures Step(Contents(), outcome) == PutStep(old(Contents()), q)
    {
      if q.requestId in receipts { return Answered(receipts[q.requestId]); }
      var previous := Found(tasks, q.draft.id);
      var revision := if previous.Some? then previous.value.revision else 0;
      if revision != q.expected { return Refused(Conflict); }
      if q.draft.namesCompletedAt { return Refused(InvalidInput); }
      var item := Saved(previous, q.draft, q.expected, q.now);
      tasks := Without(tasks, item.id) + [item];
      receipts := receipts[q.requestId := TaskReply(item, false)];
      return Answered(TaskReply(item, false));
    }

    method Delete(q: Request) returns (outcome: Outcome)
      requires q.Delete?
      modifies this
      ensures Step(Contents(), outcome) == DeleteStep(old(Contents()), q)
    {
      if q.requestId in receipts { return Answered(receipts[q.requestId]); }
      var at := IndexOf(tasks, q.id);
      if at.None? || q.id in deleted || tasks[at.value].revision != q.expected { return Refused(RevisionConflict); }
      deleted := deleted + {q.id};
      var item := tasks[at.value].(revision := tasks[at.value].revision + 1, updatedAt := q.now);
      tasks := tasks[at.value := item];
      receipts := receipts[q.requestId := TaskReply(item, true)];
      return Answered(TaskReply(item, true));
    }

    method Restore(q: Request) returns (outcome: Outcome)
      requires q.Restore?
      modifies this
      ensures Step(Contents(), outcome) == RestoreStep(old(Contents()), q)
    {
      if q.requestId in receipts { return Answered(receipts[q.requestId]); }
      var at := IndexOf(tasks, q.id);
      if at.None? { return Refused(NotFound); }
      if q.id !in deleted { return Refused(InvalidState); }
      if tasks[at.value].revision != q.expected { return Refused(Conflict); }
      deleted := deleted - {q.id};
      var item := tasks[at.value].(revision := tasks[at.value].revision + 1, updatedAt := q.now);
      tasks := tasks[at.value := item];
      receipts := receipts[q.requestId := TaskReply(item, false)];
      return Answered(TaskReply(item, false));
    }

    method Enhance(q: Request) returns (outcome: Outcome)
      requires IsEnhancement(q)
      modifies this
      ensures Step(Contents(), outcome) == EnhancementStep(old(Contents()), q)
    {
      if q.Dismiss? && q.id in refinements {
        var stored := refinements[q.id];
        if stored.revision != q.expected { return Refused(RevisionConflict); }
        var dismissed := stored.(revision := stored.revision + 1, state := RefinementDismissed);
        refinements := refinements[stored.id := dismissed];
        return Answered(RefinementReply(dismissed));
      }
      if q.requestId in receipts { return Answered(receipts[q.requestId]); }
      var proposal: Proposal;
      if q.Create? {
        var source := Found(tasks, q.taskId);
        if source.None? { return Refused(TypeError); }
        proposal := Proposal(q.id, 1, q.taskId, source.value.revision, source.value, q.fields, Pending, None, None,
            None, None);
      } else {
        if q.id !in proposals || proposals[q.id].revision != q.expected { return Refused(RevisionConflict); }
        proposal := proposals[q.id].(revision := proposals[q.id].revision + 1);
        if q.Generate? {
          proposal := proposal.(state := Running);
        } else if q.Complete? {
          var done := Completed(proposal, q);
          if done.None? { return Refused(InvalidInput); }
          proposal := done.value;
        } else if q.Dismiss? {
          proposal := proposal.(state := if proposal.state.Running? then CancelRequested else Dismissed);
        } else {
          var at := IndexOf(tasks, proposal.taskId);
          if at.None? { return Refused(TypeError); }
          if tasks[at.value].revision != q.expectedTask { return Refused(RevisionConflict); }
          var fields := if q.Accept? then Some(q.fields) else proposal.accepted;
          var from := if q.Accept? then proposal.proposed else Some(proposal.source.texts);
          if fields.None? || (from.None? && fields.value != []) { return Refused(TypeError); }
          var texts := if from.None? then tasks[at.value].texts else CopyFields(tasks[at.value].texts, from.value,
              fields.value);
          tasks := tasks[at.value := tasks[at.value].(texts := texts, revision := tasks[at.value].revision + 1)];
          proposal := proposal.(state := if q.Accept? then Accepted else Undone, accepted := fields);
        }
      }
      proposals := proposals[proposal.id := proposal];
      receipts := receipts[q.requestId := ProposalReply(proposal)];
      return Answered(ProposalReply(proposal));
    }

    method Refine(q: Request) returns (outcome: Outcome)
      requires q.Refine?
      modifies this
      ensures Step(Contents(), outcome) == RefineStep(old(Contents()), q)
    {
      var source := Found(tasks, q.taskId);
      if source.None? { return Refused(TypeError); }
      var id := "enh-refine-" + Print(|refinements| + 1);
      var refinement := Refinement(id, 2, source.value.id, source.value.revision, RefinementReady, q.criteria,
          q.splits, [], []);
      refinements := refinements[id := refinement];
      return Answered(RefinementReply(refinement));
    }

    method Apply(q: Request) returns (outcome: Outcome)
      requires q.Apply?
      modifies this
      ensures Step(Contents(), outcome) == ApplyStep(old(Contents()), q)
    {
      hide Unreviewed, NewCriteria, Trimmed, CreatedIds, SplitRefusal;
      if q.id !in refinements || refinements[q.id].revision != q.expected || !refinements[q.id].state.RefinementReady? {
        return Refused(RevisionConflict);
      }
      var stored := refinements[q.id];
      var at := IndexOf(tasks, stored.taskId);
      if at.None? { return Refused(TypeError); }
      var task := tasks[at.value];
      if task.revision != q.expectedTask { return Refused(RevisionConflict); }
      if exists f :: f in q.selected && f in task.locked { return Refused(FieldLocked); }
      if SPLIT in q.selected {
        var held := Unreviewed(relatedCount, q.reviewed);
        if held != [] { return SplitRefusal(stored, held); }
      }
      var criteria := [];
      if ACCEPTANCE in q.selected {
        criteria := FilterCriteria(Trimmed(stored.criteria), task.criteria);
      }
      task := task.(criteria := task.criteria + criteria, revision := task.revision + 1);
      tasks := tasks[at.value := task];
      refinements := refinements[stored.id := stored.(revision := stored.revision + 1, state := RefinementAccepted,
          accepted := q.selected)];
      return Answered(Applied(stored.taskId, task.revision, |criteria|, CreatedIds(q.selected)));
    }

    method File(q: Request) returns (outcome: Outcome)
      requires q.File?
      modifies this
      ensures Step(Contents(), outcome) == FileStep(old(Contents()), q)
    {
      if q.fingerprint in filed { return Answered(AlreadyFiled(filed[q.fingerprint])); }
      var held := Unreviewed(relatedCount, q.reviewed);
      if held != [] { return Answered(RelatedExist(held)); }
      filed := filed[q.fingerprint := FiledId(q.fingerprint)];
      return Answered(Filed(FiledId(q.fingerprint)));
    }

    method Register(q: Request) returns (outcome: Outcome)
      requires q.Register?
      modifies this
      ensures Step(Contents(), outcome) == RegisterStep(old(Contents()), q)
    {
      var known := Holder(repositories, IdentityKey(q.path), None);
      if known.Some? { return Answered(RepositoryReply(Some(repositories[known.value]))); }
      if !q.registerUnknown { return Answered(RepositoryReply(None)); }
      var created := Repository(q.id, FolderName(q.path), 1, 1, IdentityKey(q.path));
      repositories := repositories + [created];
      return Answered(RepositoryReply(Some(created)));
    }

    method Relink(q: Request) returns (outcome: Outcome)
      requires q.Relink?
      modifies this
      ensures Step(Contents(), outcome) == RelinkStep(old(Contents()), q)
    {
      hide FolderName, IdentityKey, Linked, RepositoryIndex, Holder;
      if q.requestId in receipts { return Answered(receipts[q.requestId]); }
      var index := RepositoryIndex(repositories, q.repositoryId);
      if index.None? { return Refused(NotFound); }
      if repositories[index.value].revision != q.expected { return Refused(RevisionConflict); }
      var identity := IdentityKey(q.path);
      var holder := Holder(repositories, identity, Some(q.repositoryId));
      if holder.Some? && Linked(tasks, repositories[holder.value].id) { return Refused(RepositoryNotEmpty); }
      assert repositories[index.value] in repositories;
      DropKeepsOthers(repositories, holder, q.repositoryId);
      if holder.Some? {
        repositories := repositories[..holder.value] + repositories[holder.value + 1..];
      }
      var at := RepositoryIndex(repositories, q.repositoryId).value;
      var moved := repositories[at].(identityKey := identity, name := FolderName(q.path),
          revision := repositories[at].revision + 1);
      repositories := repositories[at := moved];
      receipts := receipts[q.requestId := RepositoryReply(Some(moved))];
      return Answered(RepositoryReply(Some(moved)));
    }

    /** Writes one source of a merge. */
    method WriteSource(source: Id, stuck: Id, rows: seq<Row>) returns (more: seq<Row>, failed: bool)
      modifies this
      ensures Folding(tasks, deleted, more, failed)
           == FoldSource(Folding(old(tasks), old(deleted), rows, false), source, stuck)
      ensures Contents() == old(Contents()).(tasks := tasks, deleted := deleted)
    {
      var at := IndexOf(tasks, source);
      if source != stuck { deleted := deleted + {source}; }
      if at.None? { return rows, true; }
      var task := tasks[at.value];
      if source != stuck { tasks := tasks[at.value := task.(revision := task.revision + 1)]; }
      return rows + [Row(source, task.texts.title, source != stuck, task.revision)], false;
    }

    /** Writes the sources one by one; a failure leaves those before it written. */
    method WriteSources(sources: seq<Id>, stuck: Id) returns (rows: seq<Row>, failed: bool)
      modifies this
      ensures Folding(tasks, deleted, rows, failed) == FoldSources(old(Contents()), sources, stuck)
      ensures Contents() == old(Contents()).(tasks := tasks, deleted := deleted)
    {
      hide IndexOf, FoldSource;
      rows, failed := [], false;
      assert sources[..0] == [];
      for k := 0 to |sources|
        invariant Folding(tasks, deleted, rows, failed) == FoldSources(old(Contents()), sources[..k], stuck)
        invariant Contents() == old(Contents()).(tasks := tasks, deleted := deleted)
        invariant !failed
      {
        assert sources[..k + 1] == sources[..k] + [sources[k]];
        FoldLast(old(Contents()), sources[..k], sources[k], stuck);
        rows, failed := WriteSource(sources[k], stuck, rows);
        if failed {
          FailedStays(old(Contents()), sources, stuck, k + 1);
          return;
        }
      }
      assert sources[..|sources|] == sources;
    }

    /** A merge: its sources, and then the target. */
    method Merge(m: MergeRequest) returns (outcome: MergeOutcome)
      modifies this
      ensures MergeEnd(Contents(), outcome) == MergeStep(old(Contents()), m)
    {
      hide IndexOf, Extended, MergedText, FoldSources;
      var target := IndexOf(tasks, m.into);
      if target.None? || tasks[target.value].revision != m.expected { return MergeRefused(RevisionConflict); }
      var rows, failed := WriteSources(m.sources, m.stuck);
      if failed { return MergeRefused(TypeError); }
      var item := Extended(tasks[target.value], MergedText(rows));
      tasks := tasks[target.value := item];
      return Merged(m.into, item.revision, rows);
    }

    /** One request, whichever it is: it honours the receipts and writes one task at most. */
    method Serve(q: Request) returns (outcome: Outcome)
      modifies this
      ensures Step(Contents(), outcome) == Handle(old(Contents()), q)
      ensures HonoursReceipts(old(Contents()), ReceiptKey(old(Contents()), q), Step(Contents(), outcome))
      ensures DistinctIds(old(tasks)) ==> WritesOne(old(tasks), Target(old(Contents()), q), SeenRevision(q), tasks)
      ensures old(Stamped(tasks)) ==> Stamped(tasks)
    {
      hide HonoursReceipts, WritesOne, DistinctIds, Stamped, Target, ReceiptKey;
      ReceiptStep(Contents(), q);
      if DistinctIds(tasks) { StepWritesOneTask(Contents(), q); }
      if Stamped(tasks) { StepKeepsStamps(Contents(), q); }
      if q.Put? { outcome := Put(q); }
      else if q.Delete? { outcome := Delete(q); }
      else if q.Restore? { outcome := Restore(q); }
      else if q.Refine? { outcome := Refine(q); }
      else if q.Apply? { outcome := Apply(q); }
      else if q.File? { outcome := File(q); }
      else if q.Register? { outcome := Register(q); }
      else if q.Relink? { outcome := Relink(q); }
      else { outcome := Enhance(q); }
    }

    /** A client that files whatever happens: it adds each refusal's list to what it has reviewed
        and asks again. `sent` holds how many tasks each of its requests had reviewed. It is
        refused once for every 25 related tasks, or part of that, and then succeeds; a fingerprint
        filed before is answered at once with the same item. */
    method FileAnyway(fingerprint: string) returns (sent: seq<nat>, itemId: Id)
      modifies this
      ensures forall k :: 0 <= k < |sent| ==> sent[k] == Min(k * MAX_RELATED, relatedCount)
      ensures if fingerprint in old(filed)
              then |sent| == 1 && itemId == old(filed)[fingerprint] && Contents() == old(Contents())
              else |sent| == Refusals(relatedCount) + 1 && itemId == FiledId(fingerprint)
                   && Contents() == old(Contents()).(filed := old(filed)[fingerprint := itemId])
    {
      var reviewed := [];
      sent, itemId := [], "";
      ghost var n := relatedCount;
      ReviewRound(n, 0);
      while true
        invariant reviewed == ReviewedAfter(n, |sent|) && |sent| <= Refusals(n)
        invariant forall k :: 0 <= k < |sent| ==> sent[k] == Min(k * MAX_RELATED, n)
        invariant fingerprint in filed ==> sent == []
        invariant Contents() == old(Contents())
        decreases Refusals(n) - |sent|
      {
        ReviewRound(n, |sent|);
        var outcome := File(WorkbenchStore.File(fingerprint, reviewed));
        sent := sent + [|reviewed|];
        match outcome
        case Answered(RelatedExist(held)) => reviewed := reviewed + held;
        case Answered(Filed(id)) => return sent, id;
        case Answered(AlreadyFiled(id)) => return sent, id;
      }
    }
  }

  /** The nonempty texts that are new to `held`, each at its first place in the list. */
  method FilterCriteria(all: seq<string>, held: seq<string>) returns (criteria: seq<string>)
    ensures criteria == NewCriteria(all, |all|, held)
  {
    criteria := [];
    for at := 0 to |all|
      invariant criteria == NewCriteria(all, at, held)
    {
      if all[at] != "" && all[at] !in all[..at] && all[at] !in held {
        criteria := criteria + [all[at]];
      }
    }
  }
}
