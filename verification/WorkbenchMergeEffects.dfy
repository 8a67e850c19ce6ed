/** What a merge that is answered writes on its target and tells about its sources. */
module WorkbenchMergeEffects {
  import opened Options
  import opened WorkbenchStore
  import opened WorkbenchRuns
  import opened WorkbenchMerge

  /** A heading for every source that is not stuck, in order. */
  function Headings(sources: seq<Id>, stuck: Id): string {
    if sources == [] then ""
    else
      var last := sources[|sources| - 1];
      Headings(sources[..|sources| - 1], stuck) + if last == stuck then "" else "\n\n## Merged from " + last
  }

  lemma {:induction false} TextIsHeadings(rows: seq<Row>, sources: seq<Id>, stuck: Id)
    requires Reports(rows, sources, stuck)
    ensures MergedText(rows) == Headings(sources, stuck)
  {
    if rows != [] {
      var init, last := rows[..|rows| - 1], rows[|rows| - 1];
      assert last.id == sources[|rows| - 1] && last.merged == (last.id != stuck);
      TextIsHeadings(init, sources[..|sources| - 1], stuck);
    }
  }

  /** The rows carry each source's title and its revision as it stood when the source was reached. */
  ghost predicate Copied(s: Store, sources: seq<Id>, stuck: Id, rows: seq<Row>) {
    && |rows| == |sources|
    && forall k :: 0 <= k < |sources| ==>
         && Found(s.tasks, sources[k]).Some?
         && rows[k].title == Found(s.tasks, sources[k]).value.texts.title
         && rows[k].copied == Found(s.tasks, sources[k]).value.revision + Times(sources[..k], stuck, sources[k])
  }

  lemma CopiedOneMore(s: Store, sources: seq<Id>, source: Id, stuck: Id, rows: seq<Row>, row: Row)
    requires Copied(s, sources, stuck, rows) && Found(s.tasks, source).Some?
    requires row.title == Found(s.tasks, source).value.texts.title
    requires row.copied == Found(s.tasks, source).value.revision + Times(sources, stuck, source)
    ensures Copied(s, sources + [source], stuck, rows + [row])
  {
    hide Found, Times;
    assert forall k :: 0 <= k <= |sources| ==> (sources + [source])[..k] == sources[..k];
    assert sources[..|sources|] == sources;
  }

  /** The row a source adds when those before it are folded in. */
  lemma RowIsCopied(s: Store, sources: seq<Id>, source: Id, stuck: Id, f: Folding)
    requires DistinctIds(s.tasks) && IndexOf(s.tasks, source).Some? && Folded(s, sources, stuck, f)
    ensures var g, task := FoldSource(f, source, stuck), Found(s.tasks, source).value;
            && |g.rows| == |f.rows| + 1 && g.rows[..|f.rows|] == f.rows
            && g.rows[|f.rows|].title == task.texts.title
            && g.rows[|f.rows|].copied == task.revision + Times(sources, stuck, source)
  {
    hide DistinctIds, IndexOf, Times, Reports;
    RaisedKeepsIds(s.tasks, sources, stuck, f.tasks, source);
  }

  lemma {:induction false} RowsAreCopied(s: Store, sources: seq<Id>, stuck: Id)
    requires DistinctIds(s.tasks) && AllHeld(s, sources)
    ensures Copied(s, sources, stuck, FoldSources(s, sources, stuck).rows)
  {
    hide DistinctIds, IndexOf, Times, FoldSource;
    if sources != [] {
      hide Copied, Folded;
      var init, last := sources[..|sources| - 1], sources[|sources| - 1];
      assert sources == init + [last];
      RowsAreCopied(s, init, stuck);
      FoldEffect(s, init, stuck);
      var f := FoldSources(s, init, stuck);
      RowIsCopied(s, init, last, stuck, f);
      var rows := FoldSource(f, last, stuck).rows;
      CopiedOneMore(s, init, last, stuck, f.rows, rows[|f.rows|]);
      assert rows == f.rows + [rows[|f.rows|]];
    }
  }

  /** A merge that is answered raises the target's revision once for the merge, and once for each time it is a
      source itself; adds a heading for every merged source to its description, which reads "undefined" when
      there is none; and changes nothing else on it. The answer names the target and its new revision. */
  lemma MergeAnswers(s: Store, m: MergeRequest)
    requires DistinctIds(s.tasks) && MergeStep(s, m).outcome.Merged?
    ensures Found(s.tasks, m.into).Some? && Found(MergeStep(s, m).store.tasks, m.into).Some?
    ensures var before, after := Found(s.tasks, m.into).value, Found(MergeStep(s, m).store.tasks, m.into).value;
            var description := if before.texts.description.Some? then before.texts.description.value else "undefined";
            && after == before.(revision := after.revision, texts := after.texts)
            && after.revision == before.revision + Times(m.sources, m.stuck, m.into) + 1
            && after.texts.title == before.texts.title
            && after.texts.description == Some(description + Headings(m.sources, m.stuck))
            && MergeStep(s, m).outcome.itemId == m.into && MergeStep(s, m).outcome.revision == after.revision
            && Copied(s, m.sources, m.stuck, MergeStep(s, m).outcome.rows)
  {
    MergeEffect(s, m);
    MergedExactlyWhen(s, m);
    RowsAreCopied(s, m.sources, m.stuck);
    TextIsHeadings(MergeStep(s, m).outcome.rows, m.sources, m.stuck);
    hide DistinctIds, FoldSources, Times, Copied, MergedText, Headings;
    SameIdsSameIndex(s.tasks, MergeStep(s, m).store.tasks, m.into);
  }
}
