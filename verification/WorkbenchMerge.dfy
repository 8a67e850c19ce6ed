/** Merging cards: the sources are deleted one after the other and the target takes their names. The
    request keeps no receipt, and it can fail with some sources already written. */
module WorkbenchMerge {
  import opened Options
  import opened WorkbenchStore
  import opened WorkbenchRuns

  /** `stuck` is the source whose delete is made to fail, "" for none. */
  datatype MergeRequest = MergeRequest(into: Id, expected: nat, sources: seq<Id>, stuck: Id)

  datatype Row = Row(id: Id, title: Option<string>, merged: bool, copied: nat)

  datatype MergeOutcome = Merged(itemId: Id, revision: nat, rows: seq<Row>) | MergeRefused(error: Error)

  datatype MergeEnd = MergeEnd(store: Store, outcome: MergeOutcome)

  /** The sources written so far. */
  datatype Folding = Folding(tasks: seq<Task>, deleted: set<Id>, rows: seq<Row>, failed: bool)

  /** One source more. A missing one is marked deleted before the handler fails on it, unless it is the
      stuck one. */
  function FoldSource(f: Folding, source: Id, stuck: Id): (g: Folding)
    ensures |g.tasks| == |f.tasks|
  {
    if f.failed then f
    else
      match IndexOf(f.tasks, source)
      case None => f.(failed := true, deleted := if source == stuck then f.deleted else f.deleted + {source})
      case Some(i) =>
        var task := f.tasks[i];
        var row := Row(source, task.texts.title, source != stuck, task.revision);
        if source == stuck then f.(rows := f.rows + [row])
        else
          f.(tasks := f.tasks[i := task.(revision := task.revision + 1)], deleted := f.deleted + {source},
             rows := f.rows + [row])
  }

  function FoldSources(s: Store, sources: seq<Id>, stuck: Id): (f: Folding)
    ensures |f.tasks| == |s.tasks|
  {
    if sources == [] then Folding(s.tasks, s.deleted, [], false)
    else FoldSource(FoldSources(s, sources[..|sources| - 1], stuck), sources[|sources| - 1], stuck)
  }

  function MergedText(rows: seq<Row>): string {
    if rows == [] then ""
    else
      MergedText(rows[..|rows| - 1])
      + if rows[|rows| - 1].merged then "\n\n## Merged from " + rows[|rows| - 1].id else ""
  }

  /** The target with the text added; a description that is not there reads "undefined". */
  function Extended(task: Task, text: string): Task {
    task.(revision := task.revision + 1,
          texts := task.texts.(description := Some(GetOr(task.texts.description, "undefined") + text)))
  }

  function MergeStep(s: Store, m: MergeRequest): MergeEnd {
    match IndexOf(s.tasks, m.into)
    case None => MergeEnd(s, MergeRefused(RevisionConflict))
    case Some(i) =>
      if s.tasks[i].revision != m.expected then MergeEnd(s, MergeRefused(RevisionConflict))
      else
        var f := FoldSources(s, m.sources, m.stuck);
        if f.failed then MergeEnd(s.(tasks := f.tasks, deleted := f.deleted), MergeRefused(TypeError))
        else
          var item := Extended(f.tasks[i], MergedText(f.rows));
          MergeEnd(s.(tasks := f.tasks[i := item], deleted := f.deleted), Merged(m.into, item.revision, f.rows))
  }

  // ---- What the sources become -------------------------------------------------------------------

  /** How often a source is written. */
  function Times(sources: seq<Id>, stuck: Id, id: Id): nat {
    if sources == [] then 0
    else
      Times(sources[..|sources| - 1], stuck, id)
      + if sources[|sources| - 1] == id && id != stuck then 1 else 0
  }

  ghost predicate AllHeld(s: Store, sources: seq<Id>) {
    forall source <- sources :: IndexOf(s.tasks, source).Some?
  }

  /** The same tasks in the same places, each with its revision raised by as often as it was written. */
  ghost predicate Raised(before: seq<Task>, sources: seq<Id>, stuck: Id, after: seq<Task>) {
    && |after| == |before|
    && forall k :: 0 <= k < |before| ==>
         after[k] == before[k].(revision := before[k].revision + Times(sources, stuck, before[k].id))
  }

  lemma {:induction false} SameIdsSameIndex(before: seq<Task>, after: seq<Task>, id: Id)
    requires |before| == |after| && forall k :: 0 <= k < |before| ==> before[k].id == after[k].id
    ensures IndexOf(before, id) == IndexOf(after, id)
  {
    if before != [] { SameIdsSameIndex(before[1..], after[1..], id); }
  }

  lemma RaisedOne(before: seq<Task>, sources: seq<Id>, source: Id, stuck: Id, tasks: seq<Task>)
    requires DistinctIds(before) && Raised(before, sources, stuck, tasks) && IndexOf(tasks, source).Some?
    ensures var i := IndexOf(tasks, source).value;
            Raised(before, sources + [source], stuck,
                   if source == stuck then tasks else tasks[i := tasks[i].(revision := tasks[i].revision + 1)])
  {
    var i := IndexOf(tasks, source).value;
    OnlyAt(before, source, i);
    hide IndexOf, DistinctIds;
    if source == stuck {
      RaisedStuck(before, sources, stuck, tasks);
    } else {
      RaisedAt(before, sources, source, stuck, tasks, i);
    }
  }

  lemma RaisedStuck(before: seq<Task>, sources: seq<Id>, stuck: Id, tasks: seq<Task>)
    requires Raised(before, sources, stuck, tasks)
    ensures Raised(before, sources + [stuck], stuck, tasks)
  {
    hide Times;
    forall k | 0 <= k < |before|
      ensures Times(sources + [stuck], stuck, before[k].id) == Times(sources, stuck, before[k].id)
    {
      TimesOneMore(sources, stuck, stuck, before[k].id);
    }
  }

  lemma RaisedAt(before: seq<Task>, sources: seq<Id>, source: Id, stuck: Id, tasks: seq<Task>, i: nat)
    requires Raised(before, sources, stuck, tasks) && source != stuck && i < |before|
    requires forall k :: 0 <= k < |before| ==> (before[k].id == source <==> k == i)
    ensures Raised(before, sources + [source], stuck, tasks[i := tasks[i].(revision := tasks[i].revision + 1)])
  {
    hide Times;
    var after := tasks[i := tasks[i].(revision := tasks[i].revision + 1)];
    forall k | 0 <= k < |before|
      ensures after[k] == before[k].(revision := before[k].revision + Times(sources + [source], stuck, before[k].id))
    {
      TimesOneMore(sources, source, stuck, before[k].id);
    }
  }

  lemma OnlyAt(tasks: seq<Task>, id: Id, i: nat)
    requires DistinctIds(tasks) && i < |tasks| && tasks[i].id == id
    ensures forall k :: 0 <= k < |tasks| ==> (tasks[k].id == id <==> k == i)
  {
  }

  lemma TimesOneMore(sources: seq<Id>, source: Id, stuck: Id, id: Id)
    ensures Times(sources + [source], stuck, id)
         == Times(sources, stuck, id) + if id == source && source != stuck then 1 else 0
  {
    assert (sources + [source])[..|sources|] == sources;
  }

  function WrittenSources(sources: seq<Id>, stuck: Id): set<Id> {
    set source | source in sources && source != stuck
  }

  /** One row for each source, in order. */
  ghost predicate Reports(rows: seq<Row>, sources: seq<Id>, stuck: Id) {
    && |rows| == |sources|
    && forall k :: 0 <= k < |sources| ==> rows[k].id == sources[k] && rows[k].merged == (sources[k] != stuck)
  }

  ghost predicate Folded(s: Store, sources: seq<Id>, stuck: Id, f: Folding) {
    && !f.failed && Raised(s.tasks, sources, stuck, f.tasks)
    && f.deleted == s.deleted + WrittenSources(sources, stuck)
    && Reports(f.rows, sources, stuck)
  }

  lemma ReportsOneMore(rows: seq<Row>, sources: seq<Id>, stuck: Id, row: Row)
    requires Reports(rows, sources, stuck) && row.merged == (row.id != stuck)
    ensures Reports(rows + [row], sources + [row.id], stuck)
  {
  }

  lemma FoldOneMore(s: Store, sources: seq<Id>, source: Id, stuck: Id, f: Folding)
    requires DistinctIds(s.tasks) && IndexOf(s.tasks, source).Some? && Folded(s, sources, stuck, f)
    ensures Folded(s, sources + [source], stuck, FoldSource(f, source, stuck))
  {
    hide IndexOf, DistinctIds, Times, WrittenSources;
    RaisedKeepsIds(s.tasks, sources, stuck, f.tasks, source);
    RaisedOne(s.tasks, sources, source, stuck, f.tasks);
    hide Raised, Reports;
    var task := f.tasks[IndexOf(f.tasks, source).value];
    ReportsOneMore(f.rows, sources, stuck, Row(source, task.texts.title, source != stuck, task.revision));
    WrittenOneMore(sources, source, stuck);
  }

  lemma RaisedKeepsIds(before: seq<Task>, sources: seq<Id>, stuck: Id, after: seq<Task>, id: Id)
    requires Raised(before, sources, stuck, after)
    ensures IndexOf(after, id) == IndexOf(before, id)
  {
    SameIdsSameIndex(before, after, id);
  }

  /** While every source is held, folding fails nowhere, raises the tasks and reports row by row. */
  lemma {:induction false} FoldEffect(s: Store, sources: seq<Id>, stuck: Id)
    requires DistinctIds(s.tasks) && AllHeld(s, sources)
    ensures Folded(s, sources, stuck, FoldSources(s, sources, stuck))
  {
    hide DistinctIds, IndexOf, FoldSource;
    if sources != [] {
      hide Folded;
      var init, last := sources[..|sources| - 1], sources[|sources| - 1];
      assert sources == init + [last];
      FoldEffect(s, init, stuck);
      FoldOneMore(s, init, last, stuck, FoldSources(s, init, stuck));
    }
  }

  lemma {:induction false} FailedStays(s: Store, sources: seq<Id>, stuck: Id, j: nat)
    requires j <= |sources| && FoldSources(s, sources[..j], stuck).failed
    ensures FoldSources(s, sources, stuck) == FoldSources(s, sources[..j], stuck)
    decreases |sources|
  {
    if j == |sources| {
      assert sources[..j] == sources;
    } else {
      assert sources[..|sources| - 1][..j] == sources[..j];
      FailedStays(s, sources[..|sources| - 1], stuck, j);
    }
  }

  // ---- Merges that go through -----------------------------------------------------------------------

  predicate Takes(s: Store, m: MergeRequest) {
    IndexOf(s.tasks, m.into).Some? && RevisionOf(s.tasks, m.into) == m.expected
  }

  /** A merge onto a card at the revision its sender saw is answered exactly when every source is held. */
  lemma MergedExactlyWhen(s: Store, m: MergeRequest)
    requires DistinctIds(s.tasks) && Takes(s, m)
    ensures MergeStep(s, m).outcome.Merged? <==> AllHeld(s, m.sources)
    ensures !AllHeld(s, m.sources) ==> MergeStep(s, m).outcome == MergeRefused(TypeError)
  {
    hide DistinctIds, IndexOf, FoldSources, Folded;
    if AllHeld(s, m.sources) {
      FoldEffect(s, m.sources, m.stuck);
      assert !FoldSources(s, m.sources, m.stuck).failed by { FoldedIsWhole(s, m.sources, m.stuck); }
    } else {
      var j := FirstMissing(s, m.sources);
      FoldFailsAt(s, m.sources, m.stuck, j);
    }
  }

  lemma FoldedIsWhole(s: Store, sources: seq<Id>, stuck: Id)
    requires Folded(s, sources, stuck, FoldSources(s, sources, stuck))
    ensures !FoldSources(s, sources, stuck).failed
  {
    hide FoldSources;
  }

  /** Where folding fails. */
  ghost predicate MissingAt(s: Store, sources: seq<Id>, j: nat) {
    j < |sources| && IndexOf(s.tasks, sources[j]).None? && AllHeld(s, sources[..j])
  }

  lemma {:induction false} FirstMissing(s: Store, sources: seq<Id>) returns (j: nat)
    requires !AllHeld(s, sources)
    ensures MissingAt(s, sources, j)
  {
    hide IndexOf;
    var init, last := sources[..|sources| - 1], sources[|sources| - 1];
    assert sources == init + [last];
    if AllHeld(s, init) {
      j := |init|;
    } else {
      j := FirstMissing(s, init);
      assert init[..j] == sources[..j];
    }
  }

  /** What is written when folding fails: the sources before the missing one, and the missing one's mark. */
  lemma FoldFailsAt(s: Store, sources: seq<Id>, stuck: Id, j: nat)
    requires DistinctIds(s.tasks) && MissingAt(s, sources, j)
    ensures var f := FoldSources(s, sources, stuck);
            && f.failed && Raised(s.tasks, sources[..j], stuck, f.tasks)
            && f.deleted == s.deleted + WrittenSources(sources[..j + 1], stuck)
  {
    hide IndexOf, DistinctIds, Raised, FoldSource, FoldSources;
    FoldEffect(s, sources[..j], stuck);
    FoldMissing(s, sources[..j], sources[j], stuck);
    assert sources[..j + 1] == sources[..j] + [sources[j]];
    FailedStays(s, sources, stuck, j + 1);
  }

  lemma FoldMissing(s: Store, sources: seq<Id>, source: Id, stuck: Id)
    requires Folded(s, sources, stuck, FoldSources(s, sources, stuck)) && IndexOf(s.tasks, source).None?
    ensures var f := FoldSources(s, sources + [source], stuck);
            && f.failed && Raised(s.tasks, sources, stuck, f.tasks)
            && f.deleted == s.deleted + WrittenSources(sources + [source], stuck)
  {
    var f := FoldSources(s, sources, stuck);
    RaisedKeepsIds(s.tasks, sources, stuck, f.tasks, source);
    hide IndexOf, Raised, Reports;
    FoldLast(s, sources, source, stuck);
    WrittenOneMore(sources, source, stuck);
  }

  lemma FoldLast(s: Store, sources: seq<Id>, source: Id, stuck: Id)
    ensures FoldSources(s, sources + [source], stuck) == FoldSource(FoldSources(s, sources, stuck), source, stuck)
  {
    hide FoldSource;
    assert (sources + [source])[..|sources|] == sources;
  }

  lemma WrittenOneMore(sources: seq<Id>, source: Id, stuck: Id)
    ensures WrittenSources(sources + [source], stuck)
         == WrittenSources(sources, stuck) + if source == stuck then {} else {source}
  {
  }

  /** A merge that is answered: the sources are deleted, every card's revision rises by as often as it was
      written, the target takes the text, and nothing else changes. */
  lemma MergeEffect(s: Store, m: MergeRequest)
    requires DistinctIds(s.tasks) && MergeStep(s, m).outcome.Merged?
    ensures Takes(s, m)
    ensures var i, s', rows := IndexOf(s.tasks, m.into).value, MergeStep(s, m).store, MergeStep(s, m).outcome.rows;
            && s' == s.(tasks := s'.tasks, deleted := s.deleted + WrittenSources(m.sources, m.stuck))
            && Reports(rows, m.sources, m.stuck)
            && |s'.tasks| == |s.tasks|
            && forall k :: 0 <= k < |s.tasks| ==>
                 var raised := s.tasks[k].(revision := s.tasks[k].revision + Times(m.sources, m.stuck, s.tasks[k].id));
                 s'.tasks[k] == if k == i then Extended(raised, MergedText(rows)) else raised
  {
    hide DistinctIds, FoldSources, IndexOf;
    MergedExactlyWhen(s, m);
    FoldEffect(s, m.sources, m.stuck);
  }

  /** The reply to a partial merge says to run the same merge again. That is always refused: the first run
      has raised the target's revision. */
  lemma SameMergeAgainIsRefused(s: Store, m: MergeRequest)
    requires DistinctIds(s.tasks) && MergeStep(s, m).outcome.Merged?
    ensures MergeStep(MergeStep(s, m).store, m) == MergeEnd(MergeStep(s, m).store, MergeRefused(RevisionConflict))
  {
    MergeEffect(s, m);
    var s' := MergeStep(s, m).store;
    SameIdsSameIndex(s.tasks, s'.tasks, m.into);
    hide DistinctIds, FoldSources, IndexOf, Times;
  }

  // ---- Merges that fail --------------------------------------------------------------------------------

  /** A failed merge leaves the store as it is exactly when nothing is written up to the missing source:
      every source before it is the stuck one, and the missing one is stuck too or marked deleted already. */
  lemma FailedMergeLeavesStoreExactlyWhen(s: Store, m: MergeRequest, j: nat)
    requires DistinctIds(s.tasks) && Takes(s, m) && MissingAt(s, m.sources, j)
    ensures MergeStep(s, m).outcome == MergeRefused(TypeError)
    ensures MergeStep(s, m).store == s
       <==> (&& (forall k :: 0 <= k < j ==> m.sources[k] == m.stuck)
             && (m.sources[j] == m.stuck || m.sources[j] in s.deleted))
  {
    var f := FoldSources(s, m.sources, m.stuck);
    FoldFailsAt(s, m.sources, m.stuck, j);
    assert MergeStep(s, m).store == s.(tasks := f.tasks, deleted := f.deleted);
    hide MergeStep, FoldSources;
    if forall k :: 0 <= k < j ==> m.sources[k] == m.stuck {
      NothingRaised(s.tasks, m.sources[..j], m.stuck, f.tasks);
      assert WrittenSources(m.sources[..j + 1], m.stuck) == if m.sources[j] == m.stuck then {} else {m.sources[j]};
    } else {
      var k :| 0 <= k < j && m.sources[k] != m.stuck;
      SomethingRaised(s, m.sources[..j], m.stuck, f.tasks, k);
    }
  }

  lemma {:induction false} NothingTimes(sources: seq<Id>, stuck: Id, id: Id)
    requires forall source <- sources :: source == stuck
    ensures Times(sources, stuck, id) == 0
  {
    if sources != [] {
      var init := sources[..|sources| - 1];
      assert sources[|sources| - 1] in sources;
      forall source | source in init ensures source == stuck { assert source in sources; }
      NothingTimes(init, stuck, id);
    }
  }

  lemma NothingRaised(before: seq<Task>, sources: seq<Id>, stuck: Id, after: seq<Task>)
    requires Raised(before, sources, stuck, after) && forall source <- sources :: source == stuck
    ensures after == before
  {
    forall k | 0 <= k < |before| ensures after[k] == before[k] {
      NothingTimes(sources, stuck, before[k].id);
    }
  }

  lemma {:induction false} SomeTimes(sources: seq<Id>, stuck: Id, k: nat)
    requires k < |sources| && sources[k] != stuck
    ensures Times(sources, stuck, sources[k]) > 0
  {
    if k < |sources| - 1 { SomeTimes(sources[..|sources| - 1], stuck, k); }
  }

  lemma SomethingRaised(s: Store, sources: seq<Id>, stuck: Id, after: seq<Task>, k: nat)
    requires k < |sources| && sources[k] != stuck && AllHeld(s, sources) && Raised(s.tasks, sources, stuck, after)
    ensures after != s.tasks
  {
    var i := IndexOf(s.tasks, sources[k]).value;
    SomeTimes(sources, stuck, k);
    assert after[i].revision > s.tasks[i].revision;
  }

  function BlankDraft(id: Id): Draft {
    Draft(id, Texts(None, None), "ready", None, None, None, None, [], [], [], 0, false)
  }

  /** The input: from the empty store, one card saved, and a merge onto it that names a card nobody holds.
      It fails, and marks that card deleted. */
  lemma FailedMergeMarksTheMissing(run: seq<Request>, m: MergeRequest)
    requires run == [Put("r", BlankDraft("t"), 0, 0)]
    requires m == MergeRequest("t", 1, ["gone"], "")
    ensures var s := StoreAt(NOTHING, run, 1);
            && MergeStep(s, m).outcome == MergeRefused(TypeError)
            && s.deleted == {} && MergeStep(s, m).store == s.(deleted := {"gone"})
  {
    NextStore(NOTHING, run, 0);
    assert StoreAt(NOTHING, run, 0) == NOTHING;
    var s := StoreAt(NOTHING, run, 1);
    hide StoreAt;
    assert |s.tasks| == 1 && s.tasks[0].id == "t" && s.tasks[0].revision == 1;
    assert IndexOf(s.tasks, "gone").None? && IndexOf(s.tasks, "t") == Some(0);
    assert m.sources[..0] == [] && FoldSources(s, [], "") == Folding(s.tasks, {}, [], false);
    assert FoldSources(s, m.sources, "") == FoldSource(FoldSources(s, [], ""), "gone", "");
  }

  // ---- What every merge keeps ---------------------------------------------------------------------------

  /** The same cards in the same places, with the same status, completion time and links. */
  ghost predicate SameCards(before: seq<Task>, after: seq<Task>) {
    && |after| == |before|
    && forall k :: 0 <= k < |before| ==>
         && after[k].id == before[k].id && after[k].status == before[k].status
         && after[k].completedAt == before[k].completedAt && after[k].repositoryIds == before[k].repositoryIds
  }

  lemma SameCardsKeep(before: seq<Task>, after: seq<Task>)
    requires SameCards(before, after)
    ensures DistinctIds(before) ==> DistinctIds(after)
    ensures Stamped(before) ==> Stamped(after)
  {
    if Stamped(before) {
      forall t <- after ensures t.status == DONE <==> t.completedAt.Some? {
        var k :| 0 <= k < |after| && after[k] == t;
        assert before[k] in before;
      }
    }
  }

  lemma RaisedSameCards(before: seq<Task>, sources: seq<Id>, stuck: Id, after: seq<Task>)
    requires Raised(before, sources, stuck, after)
    ensures SameCards(before, after)
  {
    hide Times;
  }

  lemma FailedSameCards(s: Store, m: MergeRequest)
    requires DistinctIds(s.tasks) && Takes(s, m) && !AllHeld(s, m.sources)
    ensures SameCards(s.tasks, MergeStep(s, m).store.tasks)
  {
    hide DistinctIds, IndexOf, FoldSources, Raised, SameCards, AllHeld, WrittenSources;
    var j := FirstMissing(s, m.sources);
    FoldFailsAt(s, m.sources, m.stuck, j);
    RaisedSameCards(s.tasks, m.sources[..j], m.stuck, FoldSources(s, m.sources, m.stuck).tasks);
  }

  lemma MergedSameCards(s: Store, m: MergeRequest)
    requires DistinctIds(s.tasks) && MergeStep(s, m).outcome.Merged?
    ensures SameCards(s.tasks, MergeStep(s, m).store.tasks)
  {
    MergeEffect(s, m);
    hide DistinctIds, IndexOf, MergeStep, Times;
  }

  /** Answered, refused or failed half way, a merge touches the cards and the marks only, so receipts,
      suggestions, filings and repositories stay, and it keeps ids apart and completion times right. */
  lemma MergeKeeps(s: Store, m: MergeRequest)
    requires DistinctIds(s.tasks)
    ensures var s' := MergeStep(s, m).store;
            && s' == s.(tasks := s'.tasks, deleted := s'.deleted)
            && DistinctIds(s'.tasks) && (Stamped(s.tasks) ==> Stamped(s'.tasks))
  {
    var s' := MergeStep(s, m).store;
    hide DistinctIds, IndexOf, FoldSources, AllHeld, SameCards, Stamped;
    if !Takes(s, m) {
      CardsStay(s.tasks);
    } else if AllHeld(s, m.sources) {
      MergedExactlyWhen(s, m);
      MergedSameCards(s, m);
    } else {
      FailedSameCards(s, m);
    }
    SameCardsKeep(s.tasks, s'.tasks);
  }

  lemma CardsStay(tasks: seq<Task>)
    ensures SameCards(tasks, tasks)
  {
  }
}
