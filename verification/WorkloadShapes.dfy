/** What each operation of harness/glassGhost.ts looks like, token by token, and which draw calls for it. */
module WorkloadShapes {
  import opened Options
  import opened Terminal
  import opened Workload
  import opened XorShift
  import opened WorkloadDraws
  import Decimal
  import Text

  /** Between `lo` and `hi` of the words, with single spaces between them. */
  ghost predicate IsWords(text: string, lo: nat, hi: nat) {
    exists parts: seq<string> ::
      lo <= |parts| <= hi && (forall w <- parts :: w in WORDS) && text == Text.Join(parts, ' ')
  }

  /** A colour of 24 bits, or of the palette, with its numbers in the range. */
  predicate Sets(t: Token, kind: int, mode: int, lo: int, hi: int) {
    && t.Sgr? && |t.codes| == (if mode == 2 then 5 else 3) && t.codes[0] == kind && t.codes[1] == mode
    && forall i :: 2 <= i < |t.codes| ==> lo <= t.codes[i] <= hi
  }

  lemma TripleSets(kind: int, rgb: seq<int>, lo: int, hi: int)
    requires |rgb| == 3 && forall n <- rgb :: lo <= n <= hi
    ensures Sets(Sgr([kind, 2] + rgb), kind, 2, lo, hi)
  {
    var codes := [kind, 2] + rgb;
    forall i | 2 <= i < |codes| ensures lo <= codes[i] <= hi {
      assert codes[i] == rgb[i - 2] && rgb[i - 2] in rgb;
    }
  }

  ghost predicate IsHunkLine(l: seq<Token>, bg: seq<int>) {
    && |l| == 6 && l[0] == Sgr([48, 2] + bg) && Sets(l[1], 38, 2, 150, 255)
    && l[2].Text? && IsWords(l[2].s, 4, 12) && l[3] == EraseToEnd && l[4] == Sgr([0]) && l[5] == CrLf
  }

  ghost predicate IsHunk(tokens: seq<Token>, bg: seq<int>, n: nat) {
    if n == 0 then tokens == []
    else |tokens| >= 6 && IsHunk(tokens[..|tokens| - 6], bg, n - 1) && IsHunkLine(tokens[|tokens| - 6..], bg)
  }

  lemma HunkGrows(tokens: seq<Token>, bg: seq<int>, n: nat, line: seq<Token>)
    requires IsHunk(tokens, bg, n) && IsHunkLine(line, bg)
    ensures IsHunk(tokens + line, bg, n + 1)
  {
    assert (tokens + line)[..|tokens + line| - 6] == tokens && (tokens + line)[|tokens + line| - 6..] == line;
  }

  ghost predicate IsProseLine(l: seq<Token>) {
    && |l| == 4 && Sets(l[0], 38, 5, 16, 231) && l[1].Text? && IsWords(l[1].s, 6, 16)
    && l[2] == Sgr([0]) && l[3] == CrLf
  }

  ghost predicate IsProse(tokens: seq<Token>, n: nat) {
    if n == 0 then tokens == []
    else |tokens| >= 4 && IsProse(tokens[..|tokens| - 4], n - 1) && IsProseLine(tokens[|tokens| - 4..])
  }

  lemma ProseGrows(tokens: seq<Token>, n: nat, line: seq<Token>)
    requires IsProse(tokens, n) && IsProseLine(line)
    ensures IsProse(tokens + line, n + 1)
  {
    assert (tokens + line)[..|tokens + line| - 4] == tokens && (tokens + line)[|tokens + line| - 4..] == line;
  }

  ghost predicate IsColouredWord(l: seq<Token>) {
    && |l| == 5 && Sets(l[0], 38, 2, 0, 255) && Sets(l[1], 48, 2, 0, 63) && l[2].Text? && l[2].s in WORDS
    && l[3] == Sgr([0]) && l[4] == Token.Text(" ")
  }

  ghost predicate AreColouredWords(tokens: seq<Token>, n: nat) {
    if n == 0 then tokens == []
    else |tokens| >= 5 && AreColouredWords(tokens[..|tokens| - 5], n - 1) && IsColouredWord(tokens[|tokens| - 5..])
  }

  lemma ColouredWordsGrow(tokens: seq<Token>, n: nat, word: seq<Token>)
    requires AreColouredWords(tokens, n) && IsColouredWord(word)
    ensures AreColouredWords(tokens + word, n + 1)
  {
    assert (tokens + word)[..|tokens + word| - 5] == tokens && (tokens + word)[|tokens + word| - 5..] == word;
  }

  ghost predicate IsBoxLine(l: Painted) {
    232 <= l.back <= 250 && 16 <= l.fore <= 231 && |l.text| > 0 && l.text[0] == ' ' && IsWords(l.text[1..], 3, 8)
  }

  ghost predicate IsSpinner(op: Op, frame: nat) {
    && op.Spinner? && 16 <= op.back <= 231 && 16 <= op.fore <= 231
    && exists words :: IsWords(words, 2, 2) && op.text == " " + words + " " + Decimal.Print(frame) + " "
  }

  ghost predicate IsAlternateRow(l: seq<Token>, row: nat) {
    && |l| == 4 && l[0] == Goto(row, 0) && Sets(l[1], 48, 5, 232, 255)
    && l[2].Text? && |l[2].s| > 0 && l[2].s[0] == ' ' && IsWords(l[2].s[1..], 4, 4) && l[3] == EraseToEnd
  }

  ghost predicate AreAlternateRows(tokens: seq<Token>, n: nat) {
    if n == 0 then tokens == [EraseAll]
    else
      && |tokens| >= 4 && AreAlternateRows(tokens[..|tokens| - 4], n - 1)
      && IsAlternateRow(tokens[|tokens| - 4..], n - 1)
  }

  lemma AlternateRowsGrow(tokens: seq<Token>, n: nat, row: seq<Token>)
    requires AreAlternateRows(tokens, n) && IsAlternateRow(row, n)
    ensures AreAlternateRows(tokens + row, n + 1)
  {
    assert (tokens + row)[..|tokens + row| - 4] == tokens && (tokens + row)[|tokens + row| - 4..] == row;
  }

  // ---- The operations --------------------------------------------------------------------------------

  ghost predicate HunkOp(op: Op) {
    && op.Lines?
    && exists bg: seq<int>, n: nat ::
         && IsHunk(op.tokens, bg, n) && 3 <= n <= 9
         && (bg == [60, 20, 25] || bg == [20, 60, 30] || bg == [90, 30, 35] || bg == [25, 90, 45])
  }

  ghost predicate ProseOp(op: Op) {
    op.Lines? && exists n: nat :: IsProse(op.tokens, n) && 1 <= n <= 4
  }

  ghost predicate DrawOp(op: Op) {
    op.Draw? && 3 <= |op.box| <= 6 && forall l <- op.box :: IsBoxLine(l)
  }

  ghost predicate RedrawOp(op: Op, box: nat) {
    op.Redraw? && |op.lines| == box && forall l <- op.lines :: IsWords(l, 3, 8)
  }

  ghost predicate IsColouredLine(tokens: seq<Token>, n: nat) {
    tokens != [] && tokens[|tokens| - 1] == CrLf && AreColouredWords(tokens[..|tokens| - 1], n)
  }

  ghost predicate ColouredOp(op: Op) {
    op.Lines? && exists n: nat :: IsColouredLine(op.tokens, n) && 6 <= n <= 14
  }

  ghost predicate TripOp(op: Op) {
    && op.Trip? && op.inner != [] && op.inner[|op.inner| - 1] == Sgr([0])
    && AreAlternateRows(op.inner[..|op.inner| - 1], 32)
  }

  /** The operation the draw calls for at that box height, in that frame: below three tenths of the span a
      hunk, below five prose, below seven the box, below 85 hundredths the spinner, below 97 coloured
      prose, and a trip from there on. */
  ghost predicate CalledFor(op: Op, draw: nat, box: nat, frame: nat) {
    && (10 * draw < 3 * 0x1_0000_0000 ==> HunkOp(op))
    && (3 * 0x1_0000_0000 <= 10 * draw < 5 * 0x1_0000_0000 ==> ProseOp(op))
    && (5 * 0x1_0000_0000 <= 10 * draw < 7 * 0x1_0000_0000 ==> if box == 0 then DrawOp(op) else RedrawOp(op, box))
    && (7 * 0x1_0000_0000 <= 10 * draw && 100 * draw < 85 * 0x1_0000_0000 ==> IsSpinner(op, frame))
    && (85 * 0x1_0000_0000 <= 100 * draw < 97 * 0x1_0000_0000 ==> ColouredOp(op))
    && (op.Trip? <==> 97 * 0x1_0000_0000 <= 100 * draw) && (op.Trip? ==> TripOp(op))
  }

  // ---- What the operations and the tail write -----------------------------------------------------------

  /** A box line: its two colours, its text, the rest of the row cleared in the background. */
  ghost predicate WritesBoxLine(tokens: seq<Token>, at: nat, l: Painted) {
    && at + 6 <= |tokens|
    && tokens[at] == Sgr([48, 5, l.back]) && tokens[at + 1] == Sgr([38, 5, l.fore])
    && tokens[at + 2] == Token.Text(l.text) && tokens[at + 3] == EraseToEnd
    && tokens[at + 4] == Sgr([0]) && tokens[at + 5] == CrLf
  }

  ghost predicate WritesBox(tokens: seq<Token>, box: seq<Painted>) {
    |tokens| == 6 * |box| && forall i: nat :: i < |box| ==> WritesBoxLine(tokens, 6 * i, box[i])
  }

  lemma {:induction false} BoxIsWritten(box: seq<Painted>)
    ensures WritesBox(DrawTokens(box), box)
  {
    hide PaintedTokens, WritesBoxLine;
    if box != [] {
      var init, last := box[..|box| - 1], box[|box| - 1];
      BoxIsWritten(init);
      BoxLineIsWritten(DrawTokens(init), last);
      forall i: nat | i < |init| ensures WritesBoxLine(DrawTokens(box), 6 * i, box[i]) {
        BoxLineStays(DrawTokens(init), PaintedTokens(last), 6 * i, init[i]);
      }
    }
  }

  lemma BoxLineStays(before: seq<Token>, line: seq<Token>, at: nat, l: Painted)
    requires WritesBoxLine(before, at, l)
    ensures WritesBoxLine(before + line, at, l)
  {
  }

  lemma BoxLineIsWritten(before: seq<Token>, l: Painted)
    ensures WritesBoxLine(before + PaintedTokens(l), |before|, l) && |PaintedTokens(l)| == 6
  {
  }

  /** Rows cleared one below the other, with the cursor left on the last. */
  ghost predicate Clears(tokens: seq<Token>, at: nat, n: nat) {
    && at + 2 * n <= |tokens| + 1
    && (forall i: nat :: i < n ==> tokens[at + 2 * i] == EraseLine)
    && forall i: nat :: i + 1 < n ==> tokens[at + 2 * i + 1] == CrLf
  }

  lemma {:induction false} ClearsRows(n: nat)
    requires n > 0
    ensures |EraseTokens(n)| == 2 * n - 1 && Clears(EraseTokens(n), 0, n)
  {
    if n > 1 {
      ClearsRows(n - 1);
      var before := EraseTokens(n - 1);
      assert EraseTokens(n)[..|before|] == before;
    }
  }

  ghost predicate WritesLines(tokens: seq<Token>, at: nat, lines: seq<string>) {
    && at + 2 * |lines| <= |tokens|
    && forall i: nat :: i < |lines| ==> tokens[at + 2 * i] == Token.Text(lines[i]) && tokens[at + 2 * i + 1] == CrLf
  }

  lemma {:induction false} LinesAreWritten(lines: seq<string>)
    ensures |LineTokens(lines)| == 2 * |lines| && WritesLines(LineTokens(lines), 0, lines)
  {
    if lines != [] {
      var init := lines[..|lines| - 1];
      LinesAreWritten(init);
      assert LineTokens(lines)[..|LineTokens(init)|] == LineTokens(init);
    }
  }

  /** What an operation writes, token by token. */
  ghost predicate Writes(op: Op, tokens: seq<Token>) {
    match op
    case Lines(ts) => tokens == ts
    case Draw(box) => WritesBox(tokens, box)
    case Redraw(lines) =>
      var n := |lines|;
      && n > 0 && |tokens| == 4 * n + 1
      && tokens[0] == PrecedingLine(n) && Clears(tokens, 1, n)
      && tokens[2 * n] == PrecedingLine(n - 1) && WritesLines(tokens, 2 * n + 1, lines)
    case Spinner(back, fore, text) =>
      tokens == [SaveCursor, Goto(0, 0), Sgr([48, 5, back]), Sgr([38, 5, fore]), Token.Text(text), EraseToEnd,
                 Sgr([0]), RestoreCursor]
    case Trip(inner) =>
      && |tokens| == |inner| + 2 && tokens[0] == AltScreen && tokens[|inner| + 1] == MainScreen
      && tokens[1..|inner| + 1] == inner
  }

  lemma ClearsFurtherOn(before: seq<Token>, clear: seq<Token>, behind: seq<Token>, n: nat)
    requires |clear| == 2 * n - 1 && Clears(clear, 0, n)
    ensures Clears(before + clear + behind, |before|, n)
  {
    var all := before + clear + behind;
    forall i: nat | i < n ensures all[|before| + 2 * i] == EraseLine { assert clear[0 + 2 * i] == EraseLine; }
    forall i: nat | i + 1 < n ensures all[|before| + 2 * i + 1] == CrLf { assert clear[0 + 2 * i + 1] == CrLf; }
  }

  lemma LinesFurtherOn(before: seq<Token>, tokens: seq<Token>, lines: seq<string>)
    requires |tokens| == 2 * |lines| && WritesLines(tokens, 0, lines)
    ensures WritesLines(before + tokens, |before|, lines)
  {
    var all := before + tokens;
    forall i: nat | i < |lines|
      ensures all[|before| + 2 * i] == Token.Text(lines[i]) && all[|before| + 2 * i + 1] == CrLf
    {
      assert tokens[0 + 2 * i] == Token.Text(lines[i]) && tokens[0 + 2 * i + 1] == CrLf;
    }
  }

  lemma RedrawClears(lines: seq<string>)
    requires |lines| > 0
    ensures Clears(RedrawTokens(lines), 1, |lines|)
  {
    ClearsRows(|lines|);
    RedrawIs(lines);
    hide EraseTokens, LineTokens, RedrawTokens, Clears;
    var up, clear := [PrecedingLine(|lines|)], EraseTokens(|lines|);
    var again, write := [PrecedingLine(|lines| - 1)], LineTokens(lines);
    ClearsFurtherOn(up, clear, again + write, |lines|);
    InTwoHalves(up, clear, again, write);
  }

  lemma RedrawWritesLines(lines: seq<string>)
    requires |lines| > 0
    ensures WritesLines(RedrawTokens(lines), 2 * |lines| + 1, lines)
  {
    LinesAreWritten(lines);
    RedrawIs(lines);
    hide EraseTokens, LineTokens, RedrawTokens, WritesLines;
    LinesFurtherOn([PrecedingLine(|lines|)] + EraseTokens(|lines|) + [PrecedingLine(|lines| - 1)],
                   LineTokens(lines), lines);
  }

  lemma RedrawIsWritten(lines: seq<string>)
    requires |lines| > 0
    ensures Writes(Redraw(lines), RedrawTokens(lines))
  {
    RedrawIs(lines);
    RedrawClears(lines);
    RedrawWritesLines(lines);
    hide EraseTokens, LineTokens, RedrawTokens, Clears, WritesLines;
  }

  lemma RedrawIs(lines: seq<string>)
    requires |lines| > 0
    ensures var n, tokens := |lines|, RedrawTokens(lines);
            && tokens == [PrecedingLine(n)] + EraseTokens(n) + [PrecedingLine(n - 1)] + LineTokens(lines)
            && |EraseTokens(n)| == 2 * n - 1 && |LineTokens(lines)| == 2 * n
            && tokens[0] == PrecedingLine(n) && tokens[2 * n] == PrecedingLine(n - 1) && |tokens| == 4 * n + 1
  {
    ClearsRows(|lines|);
    LinesAreWritten(lines);
    hide EraseTokens, LineTokens;
  }

  lemma InTwoHalves(a: seq<Token>, b: seq<Token>, c: seq<Token>, d: seq<Token>)
    ensures a + b + (c + d) == a + b + c + d
  {
  }

  lemma TokensAreWritten(op: Op)
    requires WellFormed(op)
    ensures Writes(op, Tokens(op))
  {
    hide WritesBox, RedrawTokens;
    match op
    case Draw(box) => BoxIsWritten(box);
    case Redraw(lines) => RedrawIsWritten(lines);
    case _ =>
  }

  /** The rows the tail clears. */
  const CLEARED: seq<nat> := [3, 4, 5, 11, 12, 19, 20, 21, 26, 27, 28]

  ghost predicate WritesPaintedRow(tokens: seq<Token>, at: nat, row: nat, colour: seq<int>, text: string) {
    && at + 5 <= |tokens|
    && tokens[at] == Goto(row, 0) && tokens[at + 1] == Sgr([48, 2] + colour) && tokens[at + 2] == Token.Text(text)
    && tokens[at + 3] == EraseToEnd && tokens[at + 4] == Sgr([0])
  }

  /** The tail, token by token: eleven rows cleared, two plain, two in the colours of a hunk, no cursor. */
  ghost predicate WritesTail(tokens: seq<Token>, t: Tail) {
    && |tokens| == 38 && tokens[0] == Sgr([0])
    && (forall i: nat :: i < 11 ==> tokens[1 + 2 * i] == Goto(CLEARED[i], 0) && tokens[2 + 2 * i] == EraseLine)
    && tokens[23] == Goto(7, 0) && tokens[24] == Token.Text(t.plain)
    && tokens[25] == Goto(8, 0) && tokens[26] == Token.Text(t.plainer)
    && WritesPaintedRow(tokens, 27, 14, [60, 20, 25], t.red)
    && WritesPaintedRow(tokens, 32, 15, [20, 60, 30], t.green)
    && tokens[37] == HideCursor
  }

  lemma {:induction false} RowsAreErased(rows: seq<nat>)
    ensures |EraseRowsTokens(rows)| == 2 * |rows|
    ensures forall i: nat :: i < |rows| ==>
              EraseRowsTokens(rows)[2 * i] == Goto(rows[i], 0) && EraseRowsTokens(rows)[2 * i + 1] == EraseLine
  {
    if rows != [] {
      var init := rows[..|rows| - 1];
      RowsAreErased(init);
      assert EraseRowsTokens(rows)[..|EraseRowsTokens(init)|] == EraseRowsTokens(init);
    }
  }

  lemma TailIsWritten(t: Tail)
    ensures WritesTail(TailTokens(t), t)
  {
    var tokens, erased := TailTokens(t), EraseRowsTokens(ERASED);
    RowsAreErased(ERASED);
    hide EraseRowsTokens;
    assert |erased| == 22;
    assert forall i: nat :: i < 11 ==> erased[2 * i] == tokens[1 + 2 * i];
    assert forall i: nat :: i < 11 ==> erased[2 * i + 1] == tokens[2 + 2 * i];
  }

  /** The tail's texts: five words each, behind "plain " on the plain rows. */
  ghost predicate IsTail(t: Tail) {
    && |t.plain| >= 6 && t.plain[..6] == "plain " && IsWords(t.plain[6..], 5, 5)
    && |t.plainer| >= 6 && t.plainer[..6] == "plain " && IsWords(t.plainer[6..], 5, 5)
    && IsWords(t.red, 5, 5) && IsWords(t.green, 5, 5)
  }

  // ---- Which draw calls for which operation -------------------------------------------------------------

  /** An operation's draw, which of the generator's numbers that is, and the frame it was made for. */
  datatype Entry = Entry(draw: nat, place: nat, frame: nat)

  /** Every operation is the one its draw calls for, and the draws are numbers of the generator, in order. */
  ghost predicate Logged(ops: seq<Op>, log: seq<Entry>, first: bv32) {
    && |log| == |ops|
    && (forall k :: 0 <= k < |ops| ==>
          && log[k].draw == Number(After(first, log[k].place))
          && HeightAfter(ops[..k]).Some? && CalledFor(ops[k], log[k].draw, HeightAfter(ops[..k]).value, log[k].frame))
    && (forall j, k :: 0 <= j < k < |ops| ==> log[j].place < log[k].place && log[j].frame <= log[k].frame)
  }

  /** The last number used and the last frame written for. */
  ghost predicate LoggedUpTo(ops: seq<Op>, log: seq<Entry>, first: bv32, count: nat, frame: nat) {
    Logged(ops, log, first) && forall entry <- log :: 0 < entry.place <= count && entry.frame <= frame
  }

  lemma LogGrows(ops: seq<Op>, log: seq<Entry>, first: bv32, count: nat, frame: nat, op: Op, box: nat, entry: Entry)
    requires LoggedUpTo(ops, log, first, count, frame) && Balanced(ops, box)
    requires entry.place > count && entry.frame == frame && entry.draw == Number(After(first, entry.place))
    requires CalledFor(op, entry.draw, box, frame)
    ensures LoggedUpTo(ops + [op], log + [entry], first, entry.place, frame)
  {
    hide CalledFor, HeightAfter, Number, After;
    assert forall k :: 0 <= k <= |ops| ==> (ops + [op])[..k] == ops[..k];
    assert ops[..|ops|] == ops;
  }

  lemma LaterInTheLog(ops: seq<Op>, log: seq<Entry>, first: bv32, count: nat, frame: nat, later: nat, next: nat)
    requires LoggedUpTo(ops, log, first, count, frame) && count <= later && frame <= next
    ensures LoggedUpTo(ops, log, first, later, next)
  {
    hide Logged;
  }

  lemma NothingLogged(first: bv32)
    ensures LoggedUpTo([], [], first, 0, 0)
  {
  }
}
