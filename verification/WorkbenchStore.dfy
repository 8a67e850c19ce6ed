/** The task store behind the workbench requests, as a value, and what each request does to it.
    A request either answers or is refused; the class in `Workbench` runs the same requests on
    fields it updates in place. */
module WorkbenchStore {
  import opened Options
  import opened Text
  import opened Decimal

  type Id = string

  datatype Field = Title | Description

  /** The two fields a suggestion can rewrite. `None` is a field that is not there. */
  datatype Texts = Texts(title: Option<string>, description: Option<string>)

  datatype Task = Task(
    id: Id, revision: nat, updatedAt: int,
    texts: Texts, status: string, archived: bool, completedAt: Option<int>, dueAt: Option<int>,
    checklist: seq<string>, links: seq<string>, repositoryIds: seq<Id>,
    criteria: seq<string>, locked: seq<string>, position: int)

  /** What a save request carries. The optional fields keep their stored value when left out. */
  datatype Draft = Draft(
    id: Id, texts: Texts, status: string, archived: Option<bool>, dueAt: Option<int>,
    checklist: Option<seq<string>>, links: Option<seq<string>>, repositoryIds: seq<Id>,
    criteria: seq<string>, locked: seq<string>, position: int, namesCompletedAt: bool)

  datatype ProposalState = Pending | Running | Ready | Failed | CancelRequested | Dismissed | Accepted | Undone

  datatype Proposal = Proposal(
    id: Id, revision: nat, taskId: Id, sourceRevision: nat, source: Task, fields: seq<Field>,
    state: ProposalState, proposed: Option<Texts>, accepted: Option<seq<Field>>,
    failure: Option<string>, rationale: Option<string>)

  datatype RefinementState = RefinementReady | RefinementAccepted | RefinementDismissed

  datatype Refinement = Refinement(
    id: Id, revision: nat, taskId: Id, sourceRevision: nat, state: RefinementState,
    criteria: seq<string>, splits: seq<string>, duplicates: seq<Id>, accepted: seq<string>)

  datatype Repository = Repository(id: Id, name: string, revision: nat, updatedAt: int, identityKey: string)

  datatype Store = Store(
    tasks: seq<Task>, deleted: set<Id>, receipts: map<Id, Reply>,
    proposals: map<Id, Proposal>, refinements: map<Id, Refinement>, filed: map<string, Id>,
    repositories: seq<Repository>, relatedCount: nat)

  const NOTHING: Store := Store([], {}, map[], map[], map[], map[], [], 0)

  datatype Reply =
    | TaskReply(task: Task, deleted: bool)
    | ProposalReply(proposal: Proposal)
    | RefinementReply(refinement: Refinement)
    | Applied(taskId: Id, revision: nat, criteriaAdded: nat, created: seq<Id>)
    | RelatedExist(held: seq<Id>)
    | SplitHeld(title: string, held: seq<Id>)
    | Filed(itemId: Id)
    | AlreadyFiled(itemId: Id)
    | RepositoryReply(repository: Option<Repository>)

  datatype Error =
    | RevisionConflict | Conflict | NotFound | InvalidState | InvalidInput | FieldLocked | RepositoryNotEmpty
    | TypeError  // the handler read a member of `undefined`

  datatype Outcome = Answered(reply: Reply) | Refused(error: Error)

  datatype Step = Step(store: Store, outcome: Outcome)

  datatype Request =
    | Put(requestId: Id, draft: Draft, expected: nat, now: int)
    | Delete(requestId: Id, id: Id, expected: nat, now: int)
    | Restore(requestId: Id, id: Id, expected: nat, now: int)
    | Create(requestId: Id, id: Id, taskId: Id, fields: seq<Field>)
    | Generate(requestId: Id, id: Id, expected: nat)
    | Complete(requestId: Id, id: Id, expected: nat, failure: Option<string>, texts: Texts, rationale: Option<string>)
    | Dismiss(requestId: Id, id: Id, expected: nat)
    | Accept(requestId: Id, id: Id, expected: nat, expectedTask: nat, fields: seq<Field>)
    | Undo(requestId: Id, id: Id, expected: nat, expectedTask: nat)
    | Refine(taskId: Id, criteria: seq<string>, splits: seq<string>)
    | Apply(id: Id, expected: nat, expectedTask: nat, selected: seq<string>, reviewed: seq<Id>)
    | File(fingerprint: string, reviewed: seq<Id>)
    | Register(id: Id, path: string, registerUnknown: bool)
    | Relink(requestId: Id, repositoryId: Id, expected: nat, path: string)

  // ---- Looking things up ----------------------------------------------------------------------

  function IndexOf(tasks: seq<Task>, id: Id): (at: Option<nat>)
    ensures at.Some? ==> at.value < |tasks| && tasks[at.value].id == id
    ensures at.Some? ==> forall i :: 0 <= i < at.value ==> tasks[i].id != id
    ensures at.None? ==> forall t <- tasks :: t.id != id
  {
    if tasks == [] then None
    else if tasks[0].id == id then Some(0)
    else
      match IndexOf(tasks[1..], id)
      case None => None
      case Some(i) => Some(i + 1)
  }

  function RepositoryIndex(repos: seq<Repository>, id: Id): (at: Option<nat>)
    ensures at.Some? ==> at.value < |repos| && repos[at.value].id == id
    ensures at.None? ==> forall r <- repos :: r.id != id
  {
    if repos == [] then None
    else if repos[0].id == id then Some(0)
    else
      match RepositoryIndex(repos[1..], id)
      case None => None
      case Some(i) => Some(i + 1)
  }

  /** The first repository registered under `key`, other than the one named. */
  function Holder(repos: seq<Repository>, key: string, except: Option<Id>): (at: Option<nat>)
    ensures at.Some? ==> at.value < |repos| && repos[at.value].identityKey == key && Some(repos[at.value].id) != except
    ensures at.None? ==> forall r <- repos :: r.identityKey == key ==> Some(r.id) == except
  {
    if repos == [] then None
    else if repos[0].identityKey == key && Some(repos[0].id) != except then Some(0)
    else
      match Holder(repos[1..], key, except)
      case None => None
      case Some(i) => Some(i + 1)
  }

  function Without(tasks: seq<Task>, id: Id): (rest: seq<Task>)
    ensures forall t :: t in rest <==> t in tasks && t.id != id
  {
    if tasks == [] then []
    else (if tasks[0].id == id then [] else [tasks[0]]) + Without(tasks[1..], id)
  }

  /** What a task's revision is compared with; 0 for a task the store does not hold. */
  function RevisionOf(tasks: seq<Task>, id: Id): nat {
    match IndexOf(tasks, id)
    case None => 0
    case Some(i) => tasks[i].revision
  }

  // ---- Saving, deleting and restoring -----------------------------------------------------------

  const DONE := "done"

  /** A task saved as Done has a completion time: its own if it was Done before, else the moment of the save. */
  function CompletedAt(previous: Option<Task>, status: string, now: int): Option<int> {
    if status != DONE then None
    else if previous.Some? && previous.value.status == DONE then previous.value.completedAt
    else Some(now)
  }

  function GetOr<T>(o: Option<T>, default: T): T {
    if o.Some? then o.value else default
  }

  function Saved(previous: Option<Task>, d: Draft, expected: nat, now: int): Task {
    Task(d.id, expected + 1, 2, d.texts, d.status,
         GetOr(d.archived, previous.Some? && previous.value.archived),
         CompletedAt(previous, d.status, now), d.dueAt,
         GetOr(d.checklist, if previous.Some? then previous.value.checklist else []),
         GetOr(d.links, if previous.Some? then previous.value.links else []),
         d.repositoryIds, d.criteria, d.locked, d.position)
  }

  function Found(tasks: seq<Task>, id: Id): Option<Task> {
    match IndexOf(tasks, id)
    case None => None
    case Some(i) => Some(tasks[i])
  }

  predicate IsDone(tasks: seq<Task>, id: Id) {
    Found(tasks, id).Some? && Found(tasks, id).value.status == DONE
  }

  function PutStep(s: Store, q: Request): Step
    requires q.Put?
  {
    if q.requestId in s.receipts then Step(s, Answered(s.receipts[q.requestId]))
    else if RevisionOf(s.tasks, q.draft.id) != q.expected then Step(s, Refused(Conflict))
    else if q.draft.namesCompletedAt then Step(s, Refused(InvalidInput))
    else
      var item := Saved(Found(s.tasks, q.draft.id), q.draft, q.expected, q.now);
      var reply := TaskReply(item, false);
      Step(s.(tasks := Without(s.tasks, item.id) + [item], receipts := s.receipts[q.requestId := reply]),
          Answered(reply))
  }

  function DeleteStep(s: Store, q: Request): Step
    requires q.Delete?
  {
    if q.requestId in s.receipts then Step(s, Answered(s.receipts[q.requestId]))
    else
      match IndexOf(s.tasks, q.id)
      case None => Step(s, Refused(RevisionConflict))
      case Some(i) =>
        if q.id in s.deleted || s.tasks[i].revision != q.expected then Step(s, Refused(RevisionConflict))
        else
          var item := s.tasks[i].(revision := s.tasks[i].revision + 1, updatedAt := q.now);
          var reply := TaskReply(item, true);
          Step(s.(tasks := s.tasks[i := item], deleted := s.deleted + {q.id},
                  receipts := s.receipts[q.requestId := reply]), Answered(reply))
  }

  function RestoreStep(s: Store, q: Request): Step
    requires q.Restore?
  {
    if q.requestId in s.receipts then Step(s, Answered(s.receipts[q.requestId]))
    else
      match IndexOf(s.tasks, q.id)
      case None => Step(s, Refused(NotFound))
      case Some(i) =>
        if q.id !in s.deleted then Step(s, Refused(InvalidState))
        else if s.tasks[i].revision != q.expected then Step(s, Refused(Conflict))
        else
          var item := s.tasks[i].(revision := s.tasks[i].revision + 1, updatedAt := q.now);
          var reply := TaskReply(item, false);
          Step(s.(tasks := s.tasks[i := item], deleted := s.deleted - {q.id},
                  receipts := s.receipts[q.requestId := reply]), Answered(reply))
  }

  // ---- Suggestions ----------------------------------------------------------------------------------

  /** `to` with the named fields taken from `from`. */
  function CopyFields(to: Texts, from: Texts, fields: seq<Field>): Texts {
    Texts(if Title in fields then from.title else to.title,
          if Description in fields then from.description else to.description)
  }

  function Keep(s: Store, requestId: Id, p: Proposal): Step {
    Step(s.(proposals := s.proposals[p.id := p], receipts := s.receipts[requestId := ProposalReply(p)]),
         Answered(ProposalReply(p)))
  }

  function CreateStep(s: Store, q: Request): Step
    requires q.Create?
  {
    if q.requestId in s.receipts then Step(s, Answered(s.receipts[q.requestId]))
    else
      match Found(s.tasks, q.taskId)
      case None => Step(s, Refused(TypeError))
      case Some(source) =>
        Keep(s, q.requestId,
             Proposal(q.id, 1, q.taskId, source.revision, source, q.fields, Pending, None, None, None, None))
  }

  /** A completion carries a failure, or exactly the requested fields. */
  function Completed(p: Proposal, q: Request): Option<Proposal>
    requires q.Complete?
  {
    if q.failure.Some? then Some(p.(state := Failed, failure := q.failure))
    else if q.texts.title.Some? != (Title in p.fields) then None
    else if q.texts.description.Some? != (Description in p.fields) then None
    else Some(p.(state := Ready, proposed := Some(q.texts), rationale := Some(GetOr(q.rationale, ""))))
  }

  /** Writes the fields of a suggestion, or of its snapshot, into the task. */
  function WriteStep(s: Store, requestId: Id, p: Proposal, expectedTask: nat,
                     fields: Option<seq<Field>>, from: Option<Texts>, state: ProposalState): Step
  {
    match IndexOf(s.tasks, p.taskId)
    case None => Step(s, Refused(TypeError))
    case Some(i) =>
      if s.tasks[i].revision != expectedTask then Step(s, Refused(RevisionConflict))
      else if fields.None? || (from.None? && fields.value != []) then Step(s, Refused(TypeError))
      else
        var texts := if from.None? then s.tasks[i].texts else CopyFields(s.tasks[i].texts, from.value, fields.value);
        var item := s.tasks[i].(texts := texts, revision := s.tasks[i].revision + 1);
        Keep(s.(tasks := s.tasks[i := item]), requestId, p.(state := state, accepted := fields))
  }

  predicate IsEnhancement(q: Request) {
    q.Create? || q.Generate? || q.Complete? || q.Dismiss? || q.Accept? || q.Undo?
  }

  function EnhancementStep(s: Store, q: Request): Step
    requires IsEnhancement(q)
  {
    if q.Create? then CreateStep(s, q)
    else if q.Dismiss? && q.id in s.refinements then
      var r := s.refinements[q.id];
      if r.revision != q.expected then Step(s, Refused(RevisionConflict))
      else
        var r' := r.(revision := r.revision + 1, state := RefinementDismissed);
        Step(s.(refinements := s.refinements[r.id := r']), Answered(RefinementReply(r')))
    else if q.requestId in s.receipts then Step(s, Answered(s.receipts[q.requestId]))
    else if q.id !in s.proposals || s.proposals[q.id].revision != q.expected then Step(s, Refused(RevisionConflict))
    else
      var p := s.proposals[q.id].(revision := s.proposals[q.id].revision + 1);
      match q
      case Generate(_, _, _) => Keep(s, q.requestId, p.(state := Running))
      case Complete(_, _, _, _, _, _) =>
        (match Completed(p, q)
         case None => Step(s, Refused(InvalidInput))
         case Some(done) => Keep(s, q.requestId, done))
      case Dismiss(_, _, _) =>
        Keep(s, q.requestId, p.(state := if p.state.Running? then CancelRequested else Dismissed))
      case Accept(_, _, _, expectedTask, fields) =>
        WriteStep(s, q.requestId, p, expectedTask, Some(fields), p.proposed, Accepted)
      case Undo(_, _, _, expectedTask) =>
        WriteStep(s, q.requestId, p, expectedTask, p.accepted, Some(p.source.texts), Undone)
  }

  // ---- Refinements and filing -----------------------------------------------------------------------

  const MAX_RELATED: nat := 25
  const ACCEPTANCE := "acceptance_criteria"
  const SPLIT := "split_into"

  function RelatedId(i: nat): Id {
    "ft-rel-" + Padded(Print(i), 3)
  }

  function RelatedIds(n: nat): (ids: seq<Id>)
    ensures |ids| == n && forall i :: 0 <= i < n ==> ids[i] == RelatedId(i)
  {
    if n == 0 then [] else RelatedIds(n - 1) + [RelatedId(n - 1)]
  }

  function NotIn(ids: seq<Id>, reviewed: seq<Id>): seq<Id> {
    if ids == [] then []
    else (if ids[0] in reviewed then [] else [ids[0]]) + NotIn(ids[1..], reviewed)
  }

  /** The first related tasks the caller has not reviewed. */
  function Unreviewed(related: nat, reviewed: seq<Id>): (held: seq<Id>)
    ensures |held| <= MAX_RELATED
  {
    var open := NotIn(RelatedIds(related), reviewed);
    if |open| <= MAX_RELATED then open else open[..MAX_RELATED]
  }

  predicate JsWhite(c: char) {
    || '\t' <= c <= '\r' || c == ' ' || c == '\U{A0}' || c == '\U{1680}' || '\U{2000}' <= c <= '\U{200A}'
    || c == '\U{2028}' || c == '\U{2029}' || c == '\U{202F}' || c == '\U{205F}' || c == '\U{3000}' || c == '\U{FEFF}'
  }

  function Trimmed(texts: seq<string>): (r: seq<string>)
    ensures |r| == |texts|
    ensures forall i :: 0 <= i < |r| ==> r[i] == Trim(JsWhite, texts[i])
  {
    if texts == [] then [] else [Trim(JsWhite, texts[0])] + Trimmed(texts[1..])
  }

  /** The nonempty texts among the first n that are new to `held` and not repeated before. */
  function NewCriteria(all: seq<string>, n: nat, held: seq<string>): seq<string>
    requires n <= |all|
  {
    if n == 0 then []
    else
      NewCriteria(all, n - 1, held)
      + if all[n - 1] != "" && all[n - 1] !in all[..n - 1] && all[n - 1] !in held then [all[n - 1]] else []
  }

  function ApplyStep(s: Store, q: Request): Step
    requires q.Apply?
  {
    if q.id !in s.refinements then Step(s, Refused(RevisionConflict))
    else
      var r := s.refinements[q.id];
      if r.revision != q.expected || !r.state.RefinementReady? then Step(s, Refused(RevisionConflict))
      else
        match IndexOf(s.tasks, r.taskId)
        case None => Step(s, Refused(TypeError))
        case Some(i) =>
          if s.tasks[i].revision != q.expectedTask then Step(s, Refused(RevisionConflict))
          else if exists f :: f in q.selected && f in s.tasks[i].locked then Step(s, Refused(FieldLocked))
          else if SPLIT in q.selected && Unreviewed(s.relatedCount, q.reviewed) != [] then
            Step(s, SplitRefusal(r, Unreviewed(s.relatedCount, q.reviewed)))
          else
            var added := if ACCEPTANCE in q.selected
                         then NewCriteria(Trimmed(r.criteria), |r.criteria|, s.tasks[i].criteria) else [];
            var item := s.tasks[i].(criteria := s.tasks[i].criteria + added, revision := s.tasks[i].revision + 1);
            var r' := r.(revision := r.revision + 1, state := RefinementAccepted, accepted := q.selected);
            Step(s.(tasks := s.tasks[i := item], refinements := s.refinements[r.id := r']),
                 Answered(Applied(r.taskId, item.revision, |added|, CreatedIds(q.selected))))
  }

  /** A held-up split is answered under the title of the first part, which must be there. */
  function SplitRefusal(r: Refinement, held: seq<Id>): Outcome {
    if r.splits == [] then Refused(TypeError) else Answered(SplitHeld(r.splits[0], held))
  }

  function CreatedIds(selected: seq<string>): seq<Id> {
    if SPLIT in selected then ["ft-split-1"] else []
  }

  function RefineStep(s: Store, q: Request): Step
    requires q.Refine?
  {
    match Found(s.tasks, q.taskId)
    case None => Step(s, Refused(TypeError))
    case Some(source) =>
      var id := "enh-refine-" + Print(|s.refinements| + 1);
      var r := Refinement(id, 2, source.id, source.revision, RefinementReady, q.criteria, q.splits, [], []);
      Step(s.(refinements := s.refinements[id := r]), Answered(RefinementReply(r)))
  }

  function FiledId(fingerprint: string): Id {
    "ft-filed-" + fingerprint
  }

  function FileStep(s: Store, q: Request): Step
    requires q.File?
  {
    if q.fingerprint in s.filed then Step(s, Answered(AlreadyFiled(s.filed[q.fingerprint])))
    else if Unreviewed(s.relatedCount, q.reviewed) != [] then
      Step(s, Answered(RelatedExist(Unreviewed(s.relatedCount, q.reviewed))))
    else
      Step(s.(filed := s.filed[q.fingerprint := FiledId(q.fingerprint)]), Answered(Filed(FiledId(q.fingerprint))))
  }

  // ---- Repositories -------------------------------------------------------------------------------------

  function IdentityKey(path: string): string {
    "local:" + path + "/.git"
  }

  function FolderName(path: string): string {
    var parts := Split(path, '/');
    parts[|parts| - 1]
  }

  function RegisterStep(s: Store, q: Request): Step
    requires q.Register?
  {
    match Holder(s.repositories, IdentityKey(q.path), None)
    case Some(i) => Step(s, Answered(RepositoryReply(Some(s.repositories[i]))))
    case None =>
      if !q.registerUnknown then Step(s, Answered(RepositoryReply(None)))
      else
        var created := Repository(q.id, FolderName(q.path), 1, 1, IdentityKey(q.path));
        Step(s.(repositories := s.repositories + [created]), Answered(RepositoryReply(Some(created))))
  }

  function Drop(repos: seq<Repository>, at: Option<nat>): seq<Repository>
    requires at.Some? ==> at.value < |repos|
  {
    if at.None? then repos else repos[..at.value] + repos[at.value + 1..]
  }

  predicate Linked(tasks: seq<Task>, repositoryId: Id) {
    exists t :: t in tasks && repositoryId in t.repositoryIds
  }

  lemma DropKeepsOthers(repos: seq<Repository>, at: Option<nat>, id: Id)
    requires at.Some? ==> at.value < |repos| && repos[at.value].id != id
    requires exists r :: r in repos && r.id == id
    ensures RepositoryIndex(Drop(repos, at), id).Some?
  {
    if at.Some? {
      var r :| r in repos && r.id == id;
      assert r in repos[..at.value] || r in repos[at.value + 1..];
      assert r in Drop(repos, at);
    }
  }

  /** Gives the record the new folder's identity; a record already holding it makes way when no
      task links it. */
  function RelinkStep(s: Store, q: Request): Step
    requires q.Relink?
  {
    if q.requestId in s.receipts then Step(s, Answered(s.receipts[q.requestId]))
    else
      match RepositoryIndex(s.repositories, q.repositoryId)
      case None => Step(s, Refused(NotFound))
      case Some(index) =>
        if s.repositories[index].revision != q.expected then Step(s, Refused(RevisionConflict))
        else
          var holder := Holder(s.repositories, IdentityKey(q.path), Some(q.repositoryId));
          if holder.Some? && Linked(s.tasks, s.repositories[holder.value].id) then Step(s, Refused(RepositoryNotEmpty))
          else
            assert s.repositories[index] in s.repositories;
            DropKeepsOthers(s.repositories, holder, q.repositoryId);
            var rest := Drop(s.repositories, holder);
            var at := RepositoryIndex(rest, q.repositoryId).value;
            var moved := rest[at].(identityKey := IdentityKey(q.path), name := FolderName(q.path),
                revision := rest[at].revision + 1);
            var reply := RepositoryReply(Some(moved));
            Step(s.(repositories := rest[at := moved], receipts := s.receipts[q.requestId := reply]), Answered(reply))
  }

  // ---- Every request --------------------------------------------------------------------------------------

  function Handle(s: Store, q: Request): Step {
    if q.Put? then PutStep(s, q)
    else if q.Delete? then DeleteStep(s, q)
    else if q.Restore? then RestoreStep(s, q)
    else if q.Refine? then RefineStep(s, q)
    else if q.Apply? then ApplyStep(s, q)
    else if q.File? then FileStep(s, q)
    else if q.Register? then RegisterStep(s, q)
    else if q.Relink? then RelinkStep(s, q)
    else EnhancementStep(s, q)
  }
}
