/** What each request leaves in the store and answers, field by field. */
module WorkbenchEffects {
  import opened Options
  import opened Decimal
  import opened WorkbenchStore
  import opened WorkbenchRuns
  import opened WorkbenchSaves
  import opened WorkbenchRepositories
  import Text

  /** The request has no answer on file yet. */
  predicate IsNew(s: Store, requestId: Id) {
    requestId !in s.receipts
  }

  /** The store but for its tasks, the marks on them and the receipts. */
  predicate OnlyTasks(s: Store, t: Store) {
    t == s.(tasks := t.tasks, deleted := t.deleted, receipts := t.receipts)
  }

  // ---- Saving, deleting, restoring -------------------------------------------------------------------

  /** A new save is refused for a revision other than the stored one (0 for a task not held), then for naming
      the completion time, and goes through otherwise. */
  lemma SaveGuards(s: Store, q: Request)
    requires q.Put? && IsNew(s, q.requestId)
    ensures var stored := Found(s.tasks, q.draft.id);
            var current := if stored.Some? then stored.value.revision else 0;
            && (Handle(s, q).outcome == Refused(Conflict) <==> current != q.expected)
            && (Handle(s, q).outcome == Refused(InvalidInput) <==> current == q.expected && q.draft.namesCompletedAt)
            && (Saves(s, q) <==> current == q.expected && !q.draft.namesCompletedAt)
  {
  }

  /** A save stores and answers the same task, each field of the draft under its own name. The archive flag,
      the checklist and the links of a task not held before default to false and empty. */
  lemma SaveStoresTheDraft(s: Store, q: Request)
    requires Saves(s, q)
    ensures Found(Handle(s, q).store.tasks, q.draft.id).Some?
    ensures var d, before := q.draft, Found(s.tasks, q.draft.id);
            var stored := Found(Handle(s, q).store.tasks, q.draft.id).value;
            && Handle(s, q).outcome == Answered(TaskReply(stored, false))
            && stored.id == d.id && stored.revision == q.expected + 1 && stored.updatedAt == 2
            && stored.texts == d.texts && stored.status == d.status && stored.position == d.position
            && stored.repositoryIds == d.repositoryIds && stored.criteria == d.criteria && stored.locked == d.locked
            && stored.dueAt == d.dueAt
            && (d.archived.Some? ==> stored.archived == d.archived.value)
            && (d.checklist.Some? ==> stored.checklist == d.checklist.value)
            && (d.links.Some? ==> stored.links == d.links.value)
            && (before.None? && d.archived.None? ==> !stored.archived)
            && (before.None? && d.checklist.None? ==> stored.checklist == [])
            && (before.None? && d.links.None? ==> stored.links == [])
    ensures OnlyTasks(s, Handle(s, q).store) && Handle(s, q).store.deleted == s.deleted
  {
    SaveReplaces(s, q);
  }

  lemma ReplacedIsFound(tasks: seq<Task>, id: Id, item: Task)
    requires IndexOf(tasks, id).Some? && item.id == id
    ensures Found(tasks[IndexOf(tasks, id).value := item], id) == Some(item)
  {
    ReplaceFound(tasks, id, item);
  }

  /** A new delete goes through exactly for a task that is held, not deleted and at the revision its sender
      saw. It marks the task, raises its revision and stamps it; every other delete is a revision conflict. */
  lemma DeleteEffect(s: Store, q: Request)
    requires q.Delete? && IsNew(s, q.requestId)
    ensures var before, after := Found(s.tasks, q.id), Handle(s, q).store;
            && (Handle(s, q).outcome.Answered?
                <==> before.Some? && q.id !in s.deleted && before.value.revision == q.expected)
            && (Handle(s, q).outcome.Refused? ==> Handle(s, q).outcome == Refused(RevisionConflict))
            && (Handle(s, q).outcome.Answered? ==>
                  var item := before.value.(revision := before.value.revision + 1, updatedAt := q.now);
                  && Found(after.tasks, q.id) == Some(item) && Handle(s, q).outcome == Answered(TaskReply(item, true))
                  && after.deleted == s.deleted + {q.id} && OnlyTasks(s, after))
  {
    hide IndexOf;
    var at := IndexOf(s.tasks, q.id);
    if at.Some? {
      var task := s.tasks[at.value];
      ReplacedIsFound(s.tasks, q.id, task.(revision := task.revision + 1, updatedAt := q.now));
    }
  }

  /** A new restore is refused when the task is not held, not deleted, or at another revision, in this order;
      else it takes the mark off, raises the revision and stamps the task. */
  lemma RestoreEffect(s: Store, q: Request)
    requires q.Restore? && IsNew(s, q.requestId)
    ensures var before, after := Found(s.tasks, q.id), Handle(s, q).store;
            && (Handle(s, q).outcome == Refused(NotFound) <==> before.None?)
            && (Handle(s, q).outcome == Refused(InvalidState) <==> before.Some? && q.id !in s.deleted)
            && (Handle(s, q).outcome == Refused(Conflict)
                <==> before.Some? && q.id in s.deleted && before.value.revision != q.expected)
            && (Handle(s, q).outcome.Answered?
                <==> before.Some? && q.id in s.deleted && before.value.revision == q.expected)
            && (Handle(s, q).outcome.Answered? ==>
                  var item := before.value.(revision := before.value.revision + 1, updatedAt := q.now);
                  && Found(after.tasks, q.id) == Some(item) && Handle(s, q).outcome == Answered(TaskReply(item, false))
                  && after.deleted == s.deleted - {q.id} && OnlyTasks(s, after))
  {
    hide IndexOf;
    var at := IndexOf(s.tasks, q.id);
    if at.Some? {
      var task := s.tasks[at.value];
      ReplacedIsFound(s.tasks, q.id, task.(revision := task.revision + 1, updatedAt := q.now));
    }
  }

  // ---- Suggestions ----------------------------------------------------------------------------------------

  /** The suggestion is stored under its id, answered, and filed under the request; nothing else changes. */
  predicate KeepsProposal(s: Store, requestId: Id, p: Proposal, r: Step) {
    && r.outcome == Answered(ProposalReply(p))
    && r.store == s.(proposals := s.proposals[p.id := p], receipts := s.receipts[requestId := ProposalReply(p)])
  }

  /** A new suggestion is at revision 1, pending, with the task as it is now for its source; without the task
      the handler fails. */
  lemma CreateEffect(s: Store, q: Request)
    requires q.Create? && IsNew(s, q.requestId)
    ensures Found(s.tasks, q.taskId).None? ==> Handle(s, q) == Step(s, Refused(TypeError))
    ensures Found(s.tasks, q.taskId).Some? ==>
              exists p: Proposal ::
                && KeepsProposal(s, q.requestId, p, Handle(s, q))
                && p.id == q.id && p.revision == 1 && p.state == Pending && p.fields == q.fields
                && p.taskId == q.taskId && p.source == Found(s.tasks, q.taskId).value
                && p.sourceRevision == Found(s.tasks, q.taskId).value.revision
                && p.proposed.None? && p.accepted.None? && p.failure.None? && p.rationale.None?
  {
    hide IndexOf;
    if Found(s.tasks, q.taskId).Some? {
      assert Handle(s, q).outcome.Answered?;
      assert KeepsProposal(s, q.requestId, Handle(s, q).outcome.reply.proposal, Handle(s, q));
    }
  }

  /** The suggestion the request names, at the revision its sender saw. */
  predicate Current(s: Store, q: Request)
    requires q.Generate? || q.Complete? || q.Dismiss? || q.Accept? || q.Undo?
  {
    q.id in s.proposals && s.proposals[q.id].revision == q.expected
  }

  lemma StaleSuggestion(s: Store, q: Request)
    requires q.Generate? || q.Complete? || q.Dismiss? || q.Accept? || q.Undo?
    requires IsNew(s, q.requestId) && !Current(s, q) && (q.Dismiss? ==> q.id !in s.refinements)
    ensures Handle(s, q) == Step(s, Refused(RevisionConflict))
  {
  }

  lemma GenerateEffect(s: Store, q: Request)
    requires q.Generate? && IsNew(s, q.requestId) && Current(s, q)
    ensures var p := s.proposals[q.id].(revision := q.expected + 1, state := Running);
            KeepsProposal(s, q.requestId, p, Handle(s, q))
  {
  }

  /** A completion with a failure fails the suggestion. One without is refused unless it sends exactly the
      requested fields; then the suggestion is ready with them, and with a rationale, empty if none is sent. */
  lemma CompleteEffect(s: Store, q: Request)
    requires q.Complete? && IsNew(s, q.requestId) && Current(s, q)
    ensures var p := s.proposals[q.id].(revision := q.expected + 1);
            var exactly := && (q.texts.title.Some? <==> Title in p.fields)
                           && (q.texts.description.Some? <==> Description in p.fields);
            && (q.failure.Some? ==>
                  KeepsProposal(s, q.requestId, p.(state := Failed, failure := q.failure), Handle(s, q)))
            && (q.failure.None? && !exactly ==> Handle(s, q) == Step(s, Refused(InvalidInput)))
            && (q.failure.None? && exactly ==>
                  KeepsProposal(s, q.requestId,
                    p.(state := Ready, proposed := Some(q.texts),
                       rationale := Some(if q.rationale.Some? then q.rationale.value else "")), Handle(s, q)))
  {
  }

  /** Dismissing asks a running suggestion to stop and dismisses any other. A refinement under that id comes
      first: it is dismissed at its own revision, without a receipt. */
  lemma DismissEffect(s: Store, q: Request)
    requires q.Dismiss?
    ensures q.id in s.refinements ==>
              var r := s.refinements[q.id];
              var dismissed := r.(revision := r.revision + 1, state := RefinementDismissed);
              Handle(s, q) == if r.revision != q.expected then Step(s, Refused(RevisionConflict))
                              else
                                Step(s.(refinements := s.refinements[r.id := dismissed]),
                                     Answered(RefinementReply(dismissed)))
    ensures q.id !in s.refinements && IsNew(s, q.requestId) && Current(s, q) ==>
              var p := s.proposals[q.id].(revision := q.expected + 1);
              var state := if p.state == Running then CancelRequested else Dismissed;
              KeepsProposal(s, q.requestId, p.(state := state), Handle(s, q))
  {
  }

  /** Accepting and undoing are refused for another task revision, and fail without the task, without accepted
      fields to undo, or without proposed texts for the fields; else they go through. */
  lemma WriteGuards(s: Store, q: Request)
    requires (q.Accept? || q.Undo?) && IsNew(s, q.requestId) && Current(s, q)
    ensures var p := s.proposals[q.id];
            var task := Found(s.tasks, p.taskId);
            var able := if q.Accept? then p.proposed.Some? || q.fields == [] else p.accepted.Some?;
            && (Handle(s, q).outcome == Refused(RevisionConflict)
                <==> task.Some? && task.value.revision != q.expectedTask)
            && (Handle(s, q).outcome == Refused(TypeError)
                <==> task.None? || (task.value.revision == q.expectedTask && !able))
            && (Handle(s, q).outcome.Answered? <==> task.Some? && task.value.revision == q.expectedTask && able)
  {
    hide IndexOf, CopyFields;
  }

  // ---- Refinements and filing ----------------------------------------------------------------------------

  /** A refinement is numbered after those there are, ready at revision 2, and holds what was proposed. */
  lemma RefineEffect(s: Store, q: Request)
    requires q.Refine?
    ensures Found(s.tasks, q.taskId).None? ==> Handle(s, q) == Step(s, Refused(TypeError))
    ensures Found(s.tasks, q.taskId).Some? ==>
              exists r: Refinement ::
                && Handle(s, q) == Step(s.(refinements := s.refinements[r.id := r]), Answered(RefinementReply(r)))
                && r.id == "enh-refine-" + Print(|s.refinements| + 1) && r.revision == 2 && r.state == RefinementReady
                && r.taskId == q.taskId && r.sourceRevision == Found(s.tasks, q.taskId).value.revision
                && r.criteria == q.criteria && r.splits == q.splits && r.duplicates == [] && r.accepted == []
  {
    hide IndexOf, Print;
    if Found(s.tasks, q.taskId).Some? {
      assert Handle(s, q).outcome.reply.RefinementReply?;
      var r := Handle(s, q).outcome.reply.refinement;
      assert r.id == "enh-refine-" + Print(|s.refinements| + 1);
    }
  }

  /** When a refinement can be applied: it is ready at the revision its sender saw, its task is held at the one
      its sender saw, and no selected field is locked. */
  predicate CanApply(s: Store, q: Request)
    requires q.Apply?
  {
    && q.id in s.refinements && s.refinements[q.id].revision == q.expected
    && s.refinements[q.id].state == RefinementReady
    && Found(s.tasks, s.refinements[q.id].taskId).Some?
    && Found(s.tasks, s.refinements[q.id].taskId).value.revision == q.expectedTask
    && forall f <- q.selected :: f !in Found(s.tasks, s.refinements[q.id].taskId).value.locked
  }

  /** An apply that cannot be done is refused: for a locked field when everything else is in order, as a failure
      when the task is gone, and as a revision conflict otherwise. */
  lemma ApplyRefusals(s: Store, q: Request)
    requires q.Apply? && !CanApply(s, q)
    ensures Handle(s, q).store == s && Handle(s, q).outcome.Refused?
    ensures var ready := q.id in s.refinements && s.refinements[q.id].revision == q.expected
                         && s.refinements[q.id].state == RefinementReady;
            var task := if ready then Found(s.tasks, s.refinements[q.id].taskId) else None;
            Handle(s, q).outcome.error == if ready && task.None? then TypeError
                                          else if ready && task.value.revision == q.expectedTask then FieldLocked
                                          else RevisionConflict
  {
    hide IndexOf, Unreviewed, NewCriteria, Trimmed;
  }

  /** A split with tasks unreviewed is held up: the store stays, and the answer names the first part and the
      tasks, or fails when there is no part. */
  lemma ApplyHeldUp(s: Store, q: Request)
    requires q.Apply? && CanApply(s, q) && "split_into" in q.selected && Unreviewed(s.relatedCount, q.reviewed) != []
    ensures Handle(s, q).store == s
    ensures var splits := s.refinements[q.id].splits;
            Handle(s, q).outcome == if splits == [] then Refused(TypeError)
                                    else Answered(SplitHeld(splits[0], Unreviewed(s.relatedCount, q.reviewed)))
  {
    hide IndexOf, Unreviewed, NewCriteria, Trimmed;
  }

  /** Any other apply goes through: the refinement is accepted with the selected fields, one revision on; the
      task is one revision on and changes in nothing but its criteria, and in those only when they are
      selected; the answer counts what was added and names the part made of a split. */
  lemma ApplyEffect(s: Store, q: Request)
    requires q.Apply? && CanApply(s, q)
    requires !("split_into" in q.selected && Unreviewed(s.relatedCount, q.reviewed) != [])
    ensures var r := s.refinements[q.id];
            var before, after := Found(s.tasks, r.taskId).value, Found(Handle(s, q).store.tasks, r.taskId);
            && after.Some?
            && after.value == before.(revision := before.revision + 1, criteria := after.value.criteria)
            && |before.criteria| <= |after.value.criteria|
            && ("acceptance_criteria" !in q.selected ==> after.value.criteria == before.criteria)
            && Handle(s, q).outcome
               == Answered(Applied(r.taskId, before.revision + 1, |after.value.criteria| - |before.criteria|,
                                   if "split_into" in q.selected then ["ft-split-1"] else []))
            && Handle(s, q).store.refinements
               == s.refinements[r.id :=
                                  r.(revision := r.revision + 1, state := RefinementAccepted, accepted := q.selected)]
            && Handle(s, q).store
               == s.(tasks := Handle(s, q).store.tasks, refinements := Handle(s, q).store.refinements)
  {
    hide IndexOf, Unreviewed, NewCriteria, Trimmed;
    var r := s.refinements[q.id];
    var i := IndexOf(s.tasks, r.taskId).value;
    ReplacedIsFound(s.tasks, r.taskId, Handle(s, q).store.tasks[i]);
  }

  /** A fingerprint on file is answered with its item; one that is not is held up by unreviewed tasks, and filed
      under an item of its own when there are none. */
  lemma FileEffect(s: Store, q: Request)
    requires q.File?
    ensures var held := Unreviewed(s.relatedCount, q.reviewed);
            Handle(s, q) == if q.fingerprint in s.filed then Step(s, Answered(AlreadyFiled(s.filed[q.fingerprint])))
                            else if held != [] then Step(s, Answered(RelatedExist(held)))
                            else Step(s.(filed := s.filed[q.fingerprint := "ft-filed-" + q.fingerprint]),
                                      Answered(Filed("ft-filed-" + q.fingerprint)))
  {
    hide Unreviewed;
  }

  // ---- Repositories ---------------------------------------------------------------------------------------

  /** The last part of a path, or all of it without a slash. */
  ghost predicate LastPart(path: string, name: string) {
    '/' !in name && (path == name || exists before :: path == before + "/" + name)
  }

  lemma LongerPath(c: char, path: string, name: string)
    requires LastPart(path, name) && (path == name ==> c == '/')
    ensures LastPart([c] + path, name)
  {
    if path == name {
      assert [c] + path == "" + "/" + name;
    } else {
      var before :| path == before + "/" + name;
      assert [c] + path == ([c] + before) + "/" + name;
    }
  }

  lemma {:induction false} SplitEnds(path: string)
    ensures var parts := Text.Split(path, '/');
            && LastPart(path, parts[|parts| - 1]) && (|parts| == 1 ==> parts[0] == path)
  {
    if path != "" {
      var tail, parts := Text.Split(path[1..], '/'), Text.Split(path, '/');
      assert path == [path[0]] + path[1..];
      SplitEnds(path[1..]);
      if '/' !in path[1..] { Text.SplitWhole(path[1..], '/'); }
      if path[0] == '/' || |tail| > 1 {
        assert parts[|parts| - 1] == tail[|tail| - 1];
        assert '/' !in tail[|tail| - 1];
        hide LastPart;
        LongerPath(path[0], path[1..], tail[|tail| - 1]);
      }
    }
  }

  /** Registering a folder no record has adds one under the given id, with the folder's name and identity, when
      unknown folders are registered; otherwise it answers the record there is, or none. */
  lemma RegisterEffect(s: Store, q: Request)
    requires q.Register?
    ensures var identity := "local:" + q.path + "/.git";
            var known := exists r :: r in s.repositories && r.identityKey == identity;
            && (known ==> exists r :: r in s.repositories && r.identityKey == identity
                                      && Handle(s, q) == Step(s, Answered(RepositoryReply(Some(r)))))
            && (!known && !q.registerUnknown ==> Handle(s, q) == Step(s, Answered(RepositoryReply(None))))
            && (!known && q.registerUnknown ==>
                  exists r: Repository ::
                    && Handle(s, q)
                       == Step(s.(repositories := s.repositories + [r]), Answered(RepositoryReply(Some(r))))
                    && r.id == q.id && r.revision == 1 && r.updatedAt == 1 && r.identityKey == identity
                    && LastPart(q.path, r.name))
  {
    hide FolderName, LastPart;
    var at := Holder(s.repositories, IdentityKey(q.path), None);
    FolderIsLastPart(q.path);
    if at.Some? {
      assert s.repositories[at.value] in s.repositories;
    } else if q.registerUnknown {
      var r := Repository(q.id, FolderName(q.path), 1, 1, IdentityKey(q.path));
      assert Handle(s, q) == Step(s.(repositories := s.repositories + [r]), Answered(RepositoryReply(Some(r))));
    }
  }

  lemma FolderIsLastPart(path: string)
    ensures LastPart(path, FolderName(path))
  {
    SplitEnds(path);
  }

  /** The first record under that id, if there is one. */
  ghost predicate FirstRecord(repos: seq<Repository>, id: Id, i: nat) {
    i < |repos| && repos[i].id == id && forall k :: 0 <= k < i ==> repos[k].id != id
  }

  lemma {:induction false} RecordIsFirst(repos: seq<Repository>, id: Id)
    requires RepositoryIndex(repos, id).Some?
    ensures FirstRecord(repos, id, RepositoryIndex(repos, id).value)
  {
    if repos[0].id != id { RecordIsFirst(repos[1..], id); }
  }

  /** A new relink is refused when no record has the id, then when the first that has it is at another revision,
      then when another record holds the new identity and a task links the first such. */
  lemma RelinkGuards(s: Store, q: Request)
    requires q.Relink? && IsNew(s, q.requestId)
    ensures (forall r <- s.repositories :: r.id != q.repositoryId) ==> Handle(s, q) == Step(s, Refused(NotFound))
    ensures forall i: nat :: FirstRecord(s.repositories, q.repositoryId, i) ==>
              && (s.repositories[i].revision != q.expected ==> Handle(s, q) == Step(s, Refused(RevisionConflict)))
              && (s.repositories[i].revision == q.expected ==>
                    && (Handle(s, q).outcome.Refused? <==> HolderIsLinked(s, q))
                    && (HolderIsLinked(s, q) ==> Handle(s, q) == Step(s, Refused(RepositoryNotEmpty))))
  {
    hide FolderName, IdentityKey;
    var at := RepositoryIndex(s.repositories, q.repositoryId);
    if at.Some? {
      assert s.repositories[at.value] in s.repositories;
      RecordIsFirst(s.repositories, q.repositoryId);
      HolderIs(s, q);
    }
  }

  /** The first other record of the new identity is linked by a task. */
  ghost predicate HolderIsLinked(s: Store, q: Request)
    requires q.Relink?
  {
    exists i: nat, task :: FirstOther(s.repositories, "local:" + q.path + "/.git", q.repositoryId, i)
                           && task in s.tasks && s.repositories[i].id in task.repositoryIds
  }

  ghost predicate FirstOther(repos: seq<Repository>, identity: string, id: Id, i: nat) {
    && i < |repos| && repos[i].identityKey == identity && repos[i].id != id
    && forall k :: 0 <= k < i ==> repos[k].identityKey != identity || repos[k].id == id
  }

  /** The records without the first other one of the identity, if there is one. */
  ghost predicate WithoutFirstOther(repos: seq<Repository>, identity: string, id: Id, rest: seq<Repository>) {
    || (rest == repos && forall i: nat :: !FirstOther(repos, identity, id, i))
    || (exists i: nat :: FirstOther(repos, identity, id, i) && rest == repos[..i] + repos[i + 1..])
  }

  lemma {:induction false} HolderIsFirst(repos: seq<Repository>, identity: string, id: Id)
    ensures var at := Holder(repos, identity, Some(id));
            && (at.Some? ==> FirstOther(repos, identity, id, at.value))
            && (at.None? ==> forall i: nat :: !FirstOther(repos, identity, id, i))
  {
    if repos != [] && !(repos[0].identityKey == identity && repos[0].id != id) {
      HolderIsFirst(repos[1..], identity, id);
    }
  }

  lemma HolderIs(s: Store, q: Request)
    requires q.Relink?
    ensures var holder := Holder(s.repositories, IdentityKey(q.path), Some(q.repositoryId));
            HolderIsLinked(s, q) <==> holder.Some? && Linked(s.tasks, s.repositories[holder.value].id)
  {
    HolderIsFirst(s.repositories, IdentityKey(q.path), q.repositoryId);
    var holder := Holder(s.repositories, IdentityKey(q.path), Some(q.repositoryId));
    if HolderIsLinked(s, q) {
      var i: nat, task :| FirstOther(s.repositories, "local:" + q.path + "/.git", q.repositoryId, i)
                          && task in s.tasks && s.repositories[i].id in task.repositoryIds;
      assert i == holder.value;
    }
  }

  /** A relink that goes through answers the record with its new name and identity, one revision on, and puts it
      where the first record under the id stood, once the first other holder of the identity is taken out. */
  lemma RelinkWrites(s: Store, q: Request) returns (moved: Repository, rest: seq<Repository>, at: nat)
    requires Relinks(s, q)
    ensures WithoutFirstOther(s.repositories, "local:" + q.path + "/.git", q.repositoryId, rest)
    ensures FirstRecord(rest, q.repositoryId, at)
    ensures moved.id == q.repositoryId
    ensures moved.revision == rest[at].revision + 1 && moved.updatedAt == rest[at].updatedAt
    ensures moved.identityKey == "local:" + q.path + "/.git" && LastPart(q.path, moved.name)
    ensures Handle(s, q).outcome == Answered(RepositoryReply(Some(moved)))
    ensures Handle(s, q).store == s.(repositories := rest[at := moved],
                                     receipts := s.receipts[q.requestId := RepositoryReply(Some(moved))])
  {
    hide FolderName, LastPart;
    var holder := Holder(s.repositories, IdentityKey(q.path), Some(q.repositoryId));
    HolderIsFirst(s.repositories, IdentityKey(q.path), q.repositoryId);
    FolderIsLastPart(q.path);
    var index := RepositoryIndex(s.repositories, q.repositoryId).value;
    assert s.repositories[index] in s.repositories;
    DropKeepsOthers(s.repositories, holder, q.repositoryId);
    rest := Drop(s.repositories, holder);
    RecordIsFirst(rest, q.repositoryId);
    at := RepositoryIndex(rest, q.repositoryId).value;
    moved := rest[at].(identityKey := IdentityKey(q.path), name := FolderName(q.path));
    moved := moved.(revision := rest[at].revision + 1);
  }
}
