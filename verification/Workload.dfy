/** The sessions harness/glassGhost.ts writes to a terminal, as sequences of operations, and what they do
    to the screen: whatever is drawn, the cursor arithmetic of the boxes balances. */
module Workload {
  import opened Options
  import opened Collections
  import opened Terminal

  /** A box line: background, foreground, text. */
  datatype Painted = Painted(back: int, fore: int, text: string)

  datatype Op =
    | Lines(tokens: seq<Token>)                          // a diff hunk or prose
    | Draw(box: seq<Painted>)
    | Redraw(lines: seq<string>)
    | Spinner(back: int, fore: int, text: string)
    | Trip(inner: seq<Token>)                            // to the alternate screen and back

  function PaintedTokens(l: Painted): seq<Token> {
    [Sgr([48, 5, l.back]), Sgr([38, 5, l.fore])] + [Text(l.text), EraseToEnd] + [Sgr([0]), CrLf]
  }

  function DrawTokens(box: seq<Painted>): seq<Token> {
    if box == [] then [] else DrawTokens(box[..|box| - 1]) + PaintedTokens(box[|box| - 1])
  }

  function SpinnerTokens(back: int, fore: int, text: string): seq<Token> {
    [SaveCursor, Goto(0, 0)] + [Sgr([48, 5, back]), Sgr([38, 5, fore])] + [Text(text), EraseToEnd]
        + [Sgr([0]), RestoreCursor]
  }

  /** What is written between switching to the alternate screen and switching back. */
  predicate Inner(t: Token) {
    t.Text? || t.Sgr? || t.Goto? || t.EraseToEnd? || t.EraseAll?
  }

  predicate WellFormed(op: Op) {
    match op
    case Lines(tokens) => tokens != [] && tokens[|tokens| - 1] == CrLf && forall t <- tokens :: Downward(t)
    case Draw(box) => 3 <= |box| <= 6 && forall l <- box :: |l.text| <= COLS
    case Redraw(lines) => 3 <= |lines| <= 6 && forall l <- lines :: |l| <= COLS
    case Spinner(_, _, _) => true
    case Trip(inner) => forall t <- inner :: Inner(t)
  }

  function Tokens(op: Op): seq<Token>
    requires WellFormed(op)
  {
    match op
    case Lines(tokens) => tokens
    case Draw(box) => DrawTokens(box)
    case Redraw(lines) => RedrawTokens(lines)
    case Spinner(back, fore, text) => SpinnerTokens(back, fore, text)
    case Trip(inner) => [AltScreen] + inner + [MainScreen]
  }

  /** The box height after an operation, when the operation may come at height `box`. */
  function Height(box: nat, op: Op): Option<nat> {
    match op
    case Draw(lines) => if box == 0 then Some(|lines|) else None
    case Redraw(lines) => if box == |lines| then Some(0) else None
    case _ => Some(box)
  }

  /** The box height after the operations, from none. The operations take turns as the generator has
      them: a box is drawn at height 0 only, and redrawn at its own height only. */
  function HeightAfter(ops: seq<Op>): Option<nat> {
    if ops == [] then Some(0)
    else
      var before := HeightAfter(ops[..|ops| - 1]);
      if before.Some? && WellFormed(ops[|ops| - 1]) then Height(before.value, ops[|ops| - 1]) else None
  }

  predicate Balanced(ops: seq<Op>, box: nat) {
    HeightAfter(ops) == Some(box)
  }

  lemma {:induction false} BalancedHasOps(ops: seq<Op>, box: nat)
    requires Balanced(ops, box)
    ensures forall op <- ops :: WellFormed(op)
    ensures box == 0 || 3 <= box <= 6
  {
    if ops != [] {
      var op := ops[|ops| - 1];
      BalancedHasOps(ops[..|ops| - 1], HeightAfter(ops[..|ops| - 1]).value);
      assert ops == ops[..|ops| - 1] + [op];
    }
  }

  lemma {:induction false} BalancedPrefix(ops: seq<Op>, box: nat, k: nat) returns (at: nat)
    requires Balanced(ops, box) && k <= |ops|
    ensures Balanced(ops[..k], at)
    ensures k == |ops| ==> at == box
    ensures k < |ops| ==> Height(at, ops[k]).Some?
  {
    if k == |ops| {
      at := box;
      assert ops[..k] == ops;
    } else {
      at := BalancedPrefix(ops[..|ops| - 1], HeightAfter(ops[..|ops| - 1]).value, k);
      assert ops[..|ops| - 1][..k] == ops[..k];
    }
  }

  function AllTokens(ops: seq<Op>): seq<Token>
    requires forall op <- ops :: WellFormed(op)
  {
    if ops == [] then [] else AllTokens(ops[..|ops| - 1]) + Tokens(ops[|ops| - 1])
  }

  /** The console after the operations, from a cleared screen with the cursor at the top. */
  function Played(ops: seq<Op>): (c: Console)
    requires forall op <- ops :: WellFormed(op)
    ensures ValidConsole(c)
  {
    FeedAll(Fresh(), AllTokens(ops))
  }

  // ---- What one operation does -------------------------------------------------------------------

  function Texts(box: seq<Painted>): (lines: seq<string>)
    ensures |lines| == |box|
    ensures forall i :: 0 <= i < |box| ==> lines[i] == box[i].text
  {
    if box == [] then [] else Texts(box[..|box| - 1]) + [box[|box| - 1].text]
  }

  predicate AtLineStart(c: Console) {
    ValidConsole(c) && c.alt.None? && c.main.col == 0
  }

  lemma FeedNoEffect(c: Console, a: seq<int>, b: seq<int>)
    requires AtLineStart(c)
    ensures FeedAll(c, [Sgr(a), Sgr(b)]) == c
  {
    FeedTwo(c, Sgr(a), Sgr(b));
  }

  /** Text from the start of a row, then erasing to its end: the row reads that text and no more. */
  lemma FeedRow(c: Console, text: string)
    requires AtLineStart(c) && |text| <= COLS
    ensures FeedAll(c, [Text(text), EraseToEnd])
         == c.(main := c.main.(rows := c.main.rows[c.main.row := text], col := |text|))
  {
    FeedTwo(c, Text(text), EraseToEnd);
    WriteFits(c.main, text);
    var line := c.main.rows[c.main.row];
    assert Over(line, 0, text) == text + line[Min(|line|, |text|)..];
    assert Over(line, 0, text)[..|text|] == text;
    assert |Over(line, 0, text)| <= |text| ==> Over(line, 0, text) == text;
  }

  lemma PaintOne(c: Console, l: Painted)
    requires AtLineStart(c) && |l.text| <= COLS
    ensures FeedAll(c, PaintedTokens(l))
         == c.(main := NextRow(c.main.(rows := c.main.rows[c.main.row := l.text])))
  {
    hide FeedAll, WriteText;
    var a, b, e := [Sgr([48, 5, l.back]), Sgr([38, 5, l.fore])], [Text(l.text), EraseToEnd], [Sgr([0]), CrLf];
    FeedNoEffect(c, [48, 5, l.back], [38, 5, l.fore]);
    FeedRow(c, l.text);
    var d := c.(main := c.main.(rows := c.main.rows[c.main.row := l.text], col := |l.text|));
    FeedTwo(d, Sgr([0]), CrLf);
    FeedAppends(c, a, b);
    FeedAppends(c, a + b, e);
  }

  predicate BoxAbove(s: Screen, lines: seq<string>)
    requires Valid(s)
  {
    |lines| <= s.row && s.rows[s.row - |lines|..s.row] == lines
  }

  lemma BoxGrows(s: Screen, lines: seq<string>, text: string)
    requires Valid(s) && BoxAbove(s, lines) && |lines| + 1 < ROWS
    ensures BoxAbove(NextRow(s.(rows := s.rows[s.row := text])), lines + [text])
  {
    var n := |lines|;
    var rows := s.rows[s.row := text];
    assert rows[s.row - n..s.row + 1] == lines + [text];
    if s.row + 1 == ROWS {
      var t := rows[1..] + [""];
      assert t[s.row - n - 1..s.row] == rows[s.row - n..s.row + 1];
    }
  }

  /** Drawing a box leaves its lines on the rows just above the cursor, scrolling or not. */
  lemma {:induction false} DrawFills(c: Console, box: seq<Painted>)
    requires AtLineStart(c) && |box| < ROWS && forall l <- box :: |l.text| <= COLS
    ensures var d := FeedAll(c, DrawTokens(box));
            && AtLineStart(d) && d.saved == c.saved && d.main.clamped == c.main.clamped
            && d.main.row == Min(c.main.row + |box|, ROWS - 1)
            && BoxAbove(d.main, Texts(box))
  {
    hide PaintedTokens;
    if box != [] {
      var init, l := box[..|box| - 1], box[|box| - 1];
      assert l in box;
      DrawFills(c, init);
      var d := FeedAll(c, DrawTokens(init));
      FeedAppends(c, DrawTokens(init), PaintedTokens(l));
      PaintOne(d, l);
      BoxGrows(d.main, Texts(init), l.text);
    }
  }

  /** The spinner puts the cursor back where it was, and when its text fits it changes the first row only. */
  lemma SpinnerReturns(c: Console, back: int, fore: int, text: string)
    requires AtLineStart(c)
    ensures var d := FeedAll(c, SpinnerTokens(back, fore, text));
            && AtLineStart(d) && d.main.row == c.main.row && d.main.clamped == c.main.clamped
            && (|text| <= COLS ==> d == c.(main := c.main.(rows := c.main.rows[0 := text]), saved := (c.main.row, 0)))
  {
    hide FeedAll, WriteText;
    var top := c.(saved := (c.main.row, 0), main := c.main.(row := 0, col := 0));
    var a, b, t, z := [SaveCursor, Goto(0, 0)], [Sgr([48, 5, back]), Sgr([38, 5, fore])], [Text(text), EraseToEnd],
        [Sgr([0]), RestoreCursor];
    FeedTwo(c, SaveCursor, Goto(0, 0));
    FeedNoEffect(top, [48, 5, back], [38, 5, fore]);
    var d := FeedAll(top, t);
    FeedTwo(top, Text(text), EraseToEnd);
    WriteTextGoesDown(top.main, text);
    if |text| <= COLS { FeedRow(top, text); }
    FeedTwo(d, Sgr([0]), RestoreCursor);
    FeedAppends(c, a, b);
    FeedAppends(c, a + b, t);
    FeedAppends(c, a + b + t, z);
  }

  lemma {:induction false} InnerStaysInside(c: Console, inner: seq<Token>)
    requires ValidConsole(c) && c.alt.Some? && forall t <- inner :: Inner(t)
    ensures var d := FeedAll(c, inner); d.alt.Some? && d.main == c.main && d.saved == c.saved
  {
    hide Write;
    if inner != [] {
      assert inner[|inner| - 1] in inner;
      InnerStaysInside(c, inner[..|inner| - 1]);
    }
  }

  /** A trip to the alternate screen leaves no trace. */
  lemma TripReturns(c: Console, inner: seq<Token>)
    requires AtLineStart(c) && forall t <- inner :: Inner(t)
    ensures FeedAll(c, [AltScreen] + inner + [MainScreen]) == c
  {
    FeedOne(c, AltScreen);
    var d := Feed(c, AltScreen);
    InnerStaysInside(d, inner);
    FeedOne(FeedAll(d, inner), MainScreen);
    FeedAppends(c, [AltScreen], inner);
    FeedAppends(c, [AltScreen] + inner, [MainScreen]);
  }

  // ---- Whole sessions ------------------------------------------------------------------------------

  /** Between operations the cursor is at the start of a row of the main screen with at least the box's
      rows above it, and no move has ever been cut short. */
  predicate InStep(c: Console, box: nat) {
    AtLineStart(c) && c.main.clamped == 0 && box <= c.main.row
  }

  lemma OpKeepsStep(c: Console, op: Op, box: nat, after: nat)
    requires InStep(c, box) && WellFormed(op) && Height(box, op) == Some(after)
    requires box == 0 || 3 <= box <= 6
    ensures InStep(FeedAll(c, Tokens(op)), after)
  {
    hide FeedAll, RedrawTokens, DrawTokens, SpinnerTokens;
    match op
    case Lines(tokens) => DownwardGoesDown(c, tokens);
    case Draw(lines) => DrawFills(c, lines);
    case Redraw(lines) => RedrawIsExact(c, lines);
    case Spinner(back, fore, text) => SpinnerReturns(c, back, fore, text);
    case Trip(inner) => TripReturns(c, inner);
  }

  lemma {:induction false} SessionStaysInStep(ops: seq<Op>, box: nat)
    requires Balanced(ops, box)
    ensures (box == 0 || 3 <= box <= 6) && forall op <- ops :: WellFormed(op)
    ensures InStep(Played(ops), box)
  {
    hide FeedAll, Tokens;
    BalancedHasOps(ops, box);
    if ops == [] {
      assert FeedAll(Fresh(), []) == Fresh() by { FeedNone(Fresh()); }
    } else {
      var init, op := ops[..|ops| - 1], ops[|ops| - 1];
      var before := HeightAfter(init).value;
      BalancedHasOps(init, before);
      SessionStaysInStep(init, before);
      OpKeepsStep(Played(init), op, before, box);
      FeedAppends(Fresh(), AllTokens(init), Tokens(op));
    }
  }

  lemma FeedNone(c: Console)
    requires ValidConsole(c)
    ensures FeedAll(c, []) == c
  {
  }

  /** Every redraw of every session replaces exactly its box's rows above the cursor, brings the cursor
      back to its row, scrolls nothing and is never cut short. */
  lemma EveryRedrawIsExact(ops: seq<Op>, box: nat, k: nat)
    requires Balanced(ops, box) && k < |ops| && ops[k].Redraw?
    ensures forall op <- ops[..k + 1] :: WellFormed(op)
    ensures var before, lines := Played(ops[..k]), ops[k].lines;
            && |lines| <= before.main.row && before.main.col == 0 && before.main.clamped == 0
            && Played(ops[..k + 1])
            == before.(main := before.main.(rows := Replaced(before.main.rows, before.main.row - |lines|, lines)))
  {
    hide FeedAll, RedrawTokens, Replaced;
    BalancedHasOps(ops, box);
    var at := BalancedPrefix(ops, box, k);
    SessionStaysInStep(ops[..k], at);
    assert ops[..k + 1][..k] == ops[..k];
    assert WellFormed(ops[k]);
    FeedAppends(Fresh(), AllTokens(ops[..k]), Tokens(ops[k]));
    RedrawIsExact(Played(ops[..k]), ops[k].lines);
  }

  /** What a redraw right after a draw replaces is the box itself. */
  lemma DrawnBoxIsReplaced(ops: seq<Op>, box: nat, k: nat)
    requires Balanced(ops, box) && k + 1 < |ops| && ops[k].Draw? && ops[k + 1].Redraw?
    ensures forall op <- ops[..k + 1] :: WellFormed(op)
    ensures |ops[k].box| == |ops[k + 1].lines|
    ensures BoxAbove(Played(ops[..k + 1]).main, Texts(ops[k].box))
  {
    hide FeedAll, DrawTokens, BoxAbove;
    BalancedHasOps(ops, box);
    var at := BalancedPrefix(ops, box, k);
    var next := BalancedPrefix(ops, box, k + 1);
    SessionStaysInStep(ops[..k], at);
    assert ops[..k + 1][..k] == ops[..k];
    assert WellFormed(ops[k]);
    FeedAppends(Fresh(), AllTokens(ops[..k]), Tokens(ops[k]));
    DrawFills(Played(ops[..k]), ops[k].box);
  }

  // ---- Where a redraw finds its box ----------------------------------------------------------------

  predicate OnMain(c: Console) {
    ValidConsole(c) && c.alt.None?
  }

  /** The line of the whole output the cursor is on, the lines scrolled away included. A redraw of n lines
      rewrites the n lines above it. */
  function Place(s: Screen): nat {
    s.scrolled + s.row
  }

  lemma {:induction false} WriteTextPlace(s: Screen, text: string)
    requires Valid(s)
    ensures Place(WriteText(s, text)) >= Place(s)
    decreases |text|
  {
    if text != "" { WriteTextPlace(WriteChar(s, text[0]), text[1..]); }
  }

  lemma {:induction false} DownwardPlace(c: Console, tokens: seq<Token>)
    requires OnMain(c) && forall t <- tokens :: Downward(t)
    ensures OnMain(FeedAll(c, tokens))
    ensures Place(FeedAll(c, tokens).main) >= Place(c.main) + LineEnds(tokens)
  {
    hide WriteText, MoveUp;
    if tokens != [] {
      var last := tokens[|tokens| - 1];
      assert last in tokens;
      DownwardPlace(c, tokens[..|tokens| - 1]);
      if last.Text? { WriteTextPlace(FeedAll(c, tokens[..|tokens| - 1]).main, last.s); }
    }
  }

  /** The same screen but for its first row. */
  predicate SameBelowFirst(s: Screen, t: Screen) {
    && Valid(s) && Valid(t) && t == s.(rows := t.rows)
    && forall r :: 0 < r < ROWS ==> t.rows[r] == s.rows[r]
  }

  predicate SpinnerFits(op: Op) {
    op.Spinner? ==> |op.text| <= COLS
  }

  /** Printed lines move the place down; a spinner that fits and a trip leave it, and all but the first row. */
  lemma OpPlace(c: Console, op: Op)
    requires AtLineStart(c) && WellFormed(op) && !op.Draw? && !op.Redraw? && SpinnerFits(op)
    ensures var d := FeedAll(c, Tokens(op));
            && OnMain(d)
            && (op.Lines? ==> Place(d.main) > Place(c.main))
            && (!op.Lines? ==> SameBelowFirst(c.main, d.main))
  {
    hide FeedAll, SpinnerTokens, LineEnds;
    match op
    case Lines(tokens) =>
      DownwardPlace(c, tokens);
      LastLineEnd(tokens);
    case Spinner(back, fore, text) => SpinnerReturns(c, back, fore, text);
    case Trip(inner) => TripReturns(c, inner);
  }

  lemma LastLineEnd(tokens: seq<Token>)
    requires tokens != [] && tokens[|tokens| - 1] == CrLf
    ensures LineEnds(tokens) > 0
  {
  }

  /** The redraw at j is the first after the draw at k, and the spinners in between fit. */
  ghost predicate RedrawOf(ops: seq<Op>, k: nat, j: nat) {
    && k < j < |ops| && ops[k].Draw? && ops[j].Redraw?
    && (forall i :: k < i < j ==> !ops[i].Redraw? && SpinnerFits(ops[i]))
  }

  ghost predicate NoLinesBetween(ops: seq<Op>, k: nat, j: nat)
    requires j <= |ops|
  {
    forall i :: k < i < j ==> !ops[i].Lines?
  }

  /** Until it is redrawn the box keeps its height, so no other is drawn. */
  lemma {:induction false} HeightStays(ops: seq<Op>, k: nat, j: nat)
    requires k < j <= |ops| && HeightAfter(ops[..j]).Some? && ops[k].Draw?
    requires forall i :: k < i < j ==> !ops[i].Redraw?
    ensures HeightAfter(ops[..j]) == Some(|ops[k].box|) && |ops[k].box| > 0
    ensures forall i :: k < i < j ==> !ops[i].Draw?
  {
    assert ops[..j][..j - 1] == ops[..j - 1] && ops[..j][j - 1] == ops[j - 1];
    if k < j - 1 { HeightStays(ops, k, j - 1); }
  }

  lemma {:induction false} PlaceBetween(ops: seq<Op>, k: nat, j: nat)
    requires k < j <= |ops| && HeightAfter(ops[..j]).Some? && ops[k].Draw?
    requires forall i :: k < i < j ==> !ops[i].Redraw? && SpinnerFits(ops[i])
    ensures (forall op <- ops[..k + 1] :: WellFormed(op)) && (forall op <- ops[..j] :: WellFormed(op))
    ensures var drawn, met := Played(ops[..k + 1]), Played(ops[..j]);
            && AtLineStart(met) && Place(met.main) >= Place(drawn.main)
            && (NoLinesBetween(ops, k, j) ==> SameBelowFirst(drawn.main, met.main))
            && (!NoLinesBetween(ops, k, j) ==> Place(met.main) > Place(drawn.main))
  {
    hide FeedAll, Tokens, HeightAfter, WellFormed, Place, SameBelowFirst, AtLineStart;
    BalancedHasOps(ops[..j], HeightAfter(ops[..j]).value);
    SessionStaysInStep(ops[..j], HeightAfter(ops[..j]).value);
    assert forall op <- ops[..k + 1] :: op in ops[..j];
    assert AtLineStart(Played(ops[..j])) by { StepIsLineStart(Played(ops[..j]), HeightAfter(ops[..j]).value); }
    if j == k + 1 {
      SameScreen(Played(ops[..j]).main);
    } else {
      var init, op := ops[..j - 1], ops[j - 1];
      assert ops[..j][..j - 1] == init && ops[..j][j - 1] == op && op in ops[..j];
      HeightStays(ops, k, j);
      assert HeightAfter(init).Some? by { PrefixHasHeight(ops[..j]); }
      PlaceBetween(ops, k, j - 1);
      OpPlace(Played(init), op);
      FeedAppends(Fresh(), AllTokens(init), Tokens(op));
      assert Played(ops[..j]) == FeedAll(Played(init), Tokens(op));
      PlacesMeet(Played(ops[..k + 1]).main, Played(init).main, Played(ops[..j]).main);
    }
  }

  lemma StepIsLineStart(c: Console, box: nat)
    requires InStep(c, box)
    ensures AtLineStart(c) && Valid(c.main)
  {
  }

  lemma PrefixHasHeight(ops: seq<Op>)
    requires ops != [] && HeightAfter(ops).Some?
    ensures HeightAfter(ops[..|ops| - 1]).Some?
  {
  }

  lemma SameScreen(s: Screen)
    requires Valid(s)
    ensures SameBelowFirst(s, s)
  {
  }

  lemma PlacesMeet(a: Screen, b: Screen, c: Screen)
    ensures SameBelowFirst(a, b) && SameBelowFirst(b, c) ==> SameBelowFirst(a, c)
    ensures SameBelowFirst(b, c) ==> Place(b) == Place(c)
  {
  }

  /** Between a draw and its redraw the place stays, so that the redraw rewrites the lines of the box, exactly
      when nothing is printed in between. Then all the screen is as the draw left it, but for the first row,
      and a box that does not reach that row is met whole. */
  lemma BoxIsRedrawnInPlaceExactlyWhen(ops: seq<Op>, box: nat, k: nat, j: nat)
    requires Balanced(ops, box) && RedrawOf(ops, k, j)
    ensures |ops[k].box| == |ops[j].lines|
    ensures (forall op <- ops[..k + 1] :: WellFormed(op)) && (forall op <- ops[..j] :: WellFormed(op))
    ensures var drawn, met := Played(ops[..k + 1]).main, Played(ops[..j]).main;
            && (Place(met) == Place(drawn) <==> NoLinesBetween(ops, k, j))
            && (NoLinesBetween(ops, k, j) ==>
                  && SameBelowFirst(drawn, met)
                  && (|ops[k].box| < drawn.row ==> BoxAbove(met, Texts(ops[k].box))))
  {
    hide FeedAll, Tokens, AllTokens, Place, WellFormed, NoLinesBetween;
    var at := BalancedPrefix(ops, box, j);
    HeightStays(ops, k, j);
    PlaceBetween(ops, k, j);
    DrawnAbove(ops, k, j);
    var drawn, met := Played(ops[..k + 1]).main, Played(ops[..j]).main;
    PlacesMeet(drawn, drawn, met);
    SameScreen(drawn);
    if NoLinesBetween(ops, k, j) && |ops[k].box| < drawn.row { BoxStays(drawn, met, Texts(ops[k].box)); }
  }

  lemma DrawnAbove(ops: seq<Op>, k: nat, j: nat)
    requires k < j <= |ops| && HeightAfter(ops[..j]).Some? && ops[k].Draw?
    ensures forall op <- ops[..k + 1] :: WellFormed(op)
    ensures Valid(Played(ops[..k + 1]).main) && BoxAbove(Played(ops[..k + 1]).main, Texts(ops[k].box))
  {
    hide FeedAll, DrawTokens, BoxAbove, HeightAfter;
    var at := BalancedPrefix(ops[..j], HeightAfter(ops[..j]).value, k);
    assert ops[..j][..k] == ops[..k] && ops[..j][k] == ops[k];
    BalancedHasOps(ops[..j], HeightAfter(ops[..j]).value);
    assert forall op <- ops[..k + 1] :: op in ops[..j];
    SessionStaysInStep(ops[..k], at);
    assert ops[..k + 1][..k] == ops[..k];
    FeedAppends(Fresh(), AllTokens(ops[..k]), Tokens(ops[k]));
    DrawFills(Played(ops[..k]), ops[k].box);
  }

  lemma BoxStays(drawn: Screen, met: Screen, lines: seq<string>)
    requires Valid(drawn) && SameBelowFirst(drawn, met) && BoxAbove(drawn, lines) && |lines| < drawn.row
    ensures BoxAbove(met, lines)
  {
    var top := drawn.row - |lines|;
    forall r | top <= r < drawn.row ensures met.rows[r] == lines[r - top] {
      assert drawn.rows[top..drawn.row][r - top] == lines[r - top];
    }
  }

  /** The input: one empty line between a draw and its redraw, and the redraw rewrites other lines. */
  lemma PrintedLineMissesTheBox(box: seq<Painted>, lines: seq<string>)
    requires WellFormed(Draw(box)) && WellFormed(Redraw(lines)) && |box| == |lines|
    ensures var ops := [Draw(box), Lines([CrLf]), Redraw(lines)];
            && Balanced(ops, 0) && RedrawOf(ops, 0, 2)
            && (forall op <- ops :: WellFormed(op))
            && Place(Played(ops[..2]).main) != Place(Played(ops[..1]).main)
  {
    hide Played, Place, WellFormed;
    var ops := [Draw(box), Lines([CrLf]), Redraw(lines)];
    assert WellFormed(ops[1]) by { EmptyLineIsWell(); }
    assert ops[..3] == ops && ops[..2][..1] == ops[..1] && ops[..1][..0] == [];
    assert HeightAfter(ops[..1]) == Some(|box|);
    assert HeightAfter(ops[..2]) == Some(|box|);
    assert HeightAfter(ops) == Some(0);
    assert ops[1].Lines? && !NoLinesBetween(ops, 0, 2);
    BoxIsRedrawnInPlaceExactlyWhen(ops, 0, 0, 2);
    BalancedHasOps(ops, 0);
  }

  lemma EmptyLineIsWell()
    ensures WellFormed(Lines([CrLf]))
  {
  }

  // ---- The tail --------------------------------------------------------------------------------------

  /** The texts of the last frame: two plain rows and two painted ones. */
  datatype Tail = Tail(plain: string, plainer: string, red: string, green: string)

  const ERASED: seq<nat> := [3, 4, 5, 11, 12, 19, 20, 21, 26, 27, 28]

  function EraseRowsTokens(rows: seq<nat>): seq<Token> {
    if rows == [] then [] else EraseRowsTokens(rows[..|rows| - 1]) + [Goto(rows[|rows| - 1], 0), EraseLine]
  }

  function PaintRowTokens(row: nat, codes: seq<int>, text: string): seq<Token> {
    [Goto(row, 0), Sgr(codes)] + [Text(text), EraseToEnd] + [Sgr([0])]
  }

  function TailTokens(t: Tail): seq<Token> {
    [Sgr([0])] + EraseRowsTokens(ERASED)
    + [Goto(7, 0), Text(t.plain)] + [Goto(8, 0), Text(t.plainer)]
    + PaintRowTokens(14, [48, 2, 60, 20, 25], t.red) + PaintRowTokens(15, [48, 2, 20, 60, 30], t.green)
    + [HideCursor]
  }

  /** The same console but for the rows and the cursor of its main screen. */
  predicate RowsOnly(c: Console, d: Console, rows: seq<string>) {
    d == c.(main := c.main.(rows := rows, row := d.main.row, col := d.main.col))
  }

  lemma EraseRow(c: Console, row: nat)
    requires OnMain(c) && row < ROWS
    ensures RowsOnly(c, FeedAll(c, [Goto(row, 0), EraseLine]), c.main.rows[row := ""])
  {
    hide FeedAll, WriteText, MoveUp, NextRow;
    FeedTwo(c, Goto(row, 0), EraseLine);
  }

  function Erased(lines: seq<string>, rows: seq<nat>): (r: seq<string>)
    ensures |r| == |lines|
    ensures forall k :: 0 <= k < |lines| ==> r[k] == if k in rows then "" else lines[k]
  {
    if rows == [] then lines
    else
      var before := Erased(lines, rows[..|rows| - 1]);
      assert rows == rows[..|rows| - 1] + [rows[|rows| - 1]];
      if rows[|rows| - 1] < |lines| then before[rows[|rows| - 1] := ""] else before
  }

  lemma {:induction false} EraseRows(c: Console, rows: seq<nat>)
    requires OnMain(c) && forall r <- rows :: r < ROWS
    ensures RowsOnly(c, FeedAll(c, EraseRowsTokens(rows)), Erased(c.main.rows, rows))
  {
    if rows != [] {
      var last := rows[|rows| - 1];
      var init := rows[..|rows| - 1];
      assert last in rows;
      forall r | r in init ensures r < ROWS { assert r in rows; }
      EraseRows(c, init);
      var d := FeedAll(c, EraseRowsTokens(init));
      hide FeedAll;
      EraseRow(d, last);
      FeedAppends(c, EraseRowsTokens(init), [Goto(last, 0), EraseLine]);
    }
  }

  lemma PlainRow(c: Console, row: nat, text: string)
    requires OnMain(c) && row < ROWS && |text| <= COLS
    ensures RowsOnly(c, FeedAll(c, [Goto(row, 0), Text(text)]), c.main.rows[row := Over(c.main.rows[row], 0, text)])
  {
    hide FeedAll, WriteText;
    FeedTwo(c, Goto(row, 0), Text(text));
    WriteFits(c.main.(row := row, col := 0), text);
  }

  lemma PaintRow(c: Console, row: nat, codes: seq<int>, text: string)
    requires OnMain(c) && row < ROWS && |text| <= COLS
    ensures RowsOnly(c, FeedAll(c, PaintRowTokens(row, codes, text)), c.main.rows[row := text])
  {
    hide FeedAll, WriteText;
    var a, b := [Goto(row, 0), Sgr(codes)], [Text(text), EraseToEnd];
    FeedTwo(c, Goto(row, 0), Sgr(codes));
    var d := FeedAll(c, a);
    FeedRow(d, text);
    FeedOne(FeedAll(d, b), Sgr([0]));
    FeedAppends(c, a, b);
    FeedAppends(c, a + b, [Sgr([0])]);
  }

  /** What the tail leaves: the erased rows blank, the plain texts over the beginnings of their rows, the
      painted rows reading their texts, and every other row as it was. */
  function Shape(rows: seq<string>, t: Tail): (r: seq<string>)
    requires |rows| == ROWS
    ensures |r| == ROWS
  {
    var erased := Erased(rows, ERASED);
    erased[7 := Over(erased[7], 0, t.plain)][8 := Over(erased[8], 0, t.plainer)][14 := t.red][15 := t.green]
  }

  predicate TailFits(t: Tail) {
    |t.plain| <= COLS && |t.plainer| <= COLS && |t.red| <= COLS && |t.green| <= COLS
  }

  lemma ShapeRows(rows: seq<string>, t: Tail)
    requires |rows| == ROWS
    ensures forall k :: 0 <= k < ROWS ==>
              Shape(rows, t)[k]
              == if 3 <= k <= 5 || 11 <= k <= 12 || 19 <= k <= 21 || 26 <= k <= 28 then ""
                 else if k == 7 then Over(rows[7], 0, t.plain)
                 else if k == 8 then Over(rows[8], 0, t.plainer)
                 else if k == 14 then t.red
                 else if k == 15 then t.green
                 else rows[k]
  {
    hide Over;
  }

  /** The tail sets exactly these rows and nothing else, wherever the session ends: nothing scrolls. */
  lemma TailLeavesShape(c: Console, t: Tail)
    requires OnMain(c) && TailFits(t)
    ensures RowsOnly(c, FeedAll(c, TailTokens(t)), Shape(c.main.rows, t))
  {
    hide FeedAll, EraseRowsTokens, PaintRowTokens, Over, Erased;
    var a, b := [Sgr([0])], EraseRowsTokens(ERASED);
    var p, q := [Goto(7, 0), Text(t.plain)], [Goto(8, 0), Text(t.plainer)];
    var x, y := PaintRowTokens(14, [48, 2, 60, 20, 25], t.red), PaintRowTokens(15, [48, 2, 20, 60, 30], t.green);
    FeedOne(c, Sgr([0]));
    EraseRows(c, ERASED);
    FeedAppends(c, a, b);
    var c1 := FeedAll(c, a + b);
    PlainRow(c1, 7, t.plain);
    FeedAppends(c, a + b, p);
    var c2 := FeedAll(c1, p);
    PlainRow(c2, 8, t.plainer);
    FeedAppends(c, a + b + p, q);
    var c3 := FeedAll(c2, q);
    PaintRow(c3, 14, [48, 2, 60, 20, 25], t.red);
    FeedAppends(c, a + b + p + q, x);
    var c4 := FeedAll(c3, x);
    PaintRow(c4, 15, [48, 2, 20, 60, 30], t.green);
    FeedAppends(c, a + b + p + q + x, y);
    var c5 := FeedAll(c4, y);
    FeedOne(c5, HideCursor);
    FeedAppends(c, a + b + p + q + x + y, [HideCursor]);
  }
}
