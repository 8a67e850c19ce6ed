/** The loop of harness/glassGhost.ts that writes a session frame by frame and keeps the height of the
    box on screen. */
module WorkloadGenerator {
  import opened Options
  import opened Terminal
  import opened Workload
  import opened XorShift
  import opened WorkloadDraws
  import opened WorkloadShapes
  import Decimal
  import Text

  predicate Word(w: string) {
    |w| <= 9
  }

  /** Every colour a token sets is a byte. */
  predicate Coloured(tokens: seq<Token>) {
    forall t <- tokens :: t.Sgr? ==> forall n <- t.codes :: 0 <= n <= 255
  }

  lemma {:induction false} JoinFits(parts: seq<string>)
    requires forall w <- parts :: Word(w)
    ensures |Text.Join(parts, ' ')| <= 10 * |parts|
    ensures parts != [] ==> |Text.Join(parts, ' ')| < 10 * |parts|
  {
    if parts != [] { assert Word(parts[0]); }
    if |parts| > 1 { JoinFits(parts[1..]); }
  }

  method Pick<T>(rng: Rng, items: seq<T>) returns (item: T)
    requires rng.Valid() && items != []
    modifies rng
    ensures rng.Valid() && rng.count >= old(rng.count) && item in items
    ensures Drawn(item, rng.state) == PickFrom(old(rng.state), items)
  {
    hide Step, Scaled, Number;
    var i := rng.Int(0, |items| - 1);
    item := items[i];
  }

  lemma WordsAreShort()
    ensures |WORDS| == 30 && forall w <- WORDS :: Word(w)
  {
  }

  /** Some words, joined by single spaces. */
  method Words(rng: Rng, n: nat) returns (text: string)
    requires rng.Valid()
    modifies rng
    ensures rng.Valid() && rng.count >= old(rng.count) && Drawn(text, rng.state) == ExactWordsFrom(old(rng.state), n)
    ensures |text| <= 10 * n && (n > 0 ==> |text| < 10 * n)
    ensures IsWords(text, n, n)
  {
    hide WORDS;
    WordsAreShort();
    var chosen: seq<string> := [];
    for i := 0 to n
      invariant rng.Valid() && rng.count >= old(rng.count) && |chosen| == i && forall w <- chosen :: w in WORDS
      invariant Drawn(chosen, rng.state) == WordListFrom(old(rng.state), i)
    {
      var w := Pick(rng, WORDS);
      chosen := chosen + [w];
    }
    JoinFits(chosen);
    text := Text.Join(chosen, ' ');
  }

  lemma WordsBetween(text: string, n: nat, lo: nat, hi: nat)
    requires IsWords(text, n, n) && lo <= n <= hi
    ensures IsWords(text, lo, hi)
  {
    hide WORDS;
  }

  predicate Inline(t: Token) {
    Downward(t) && !t.CrLf?
  }

  predicate PartOfLine(line: seq<Token>) {
    Coloured(line) && forall t <- line :: Inline(t)
  }

  /** A 24-bit colour. */
  method Triple(rng: Rng, lo: int, hi: int, distinct: int) returns (rgb: seq<int>)
    requires rng.Valid() && lo <= hi
    modifies rng
    ensures rng.Valid() && rng.count >= old(rng.count)
    ensures Drawn(rgb, rng.state) == TripleFrom(old(rng.state), lo, hi, distinct)
    ensures |rgb| == 3 && forall n <- rgb :: lo <= n <= hi
  {
    hide Step, IntFrom, Spread;
    var r := rng.Col(lo, hi, distinct);
    var g := rng.Col(lo, hi, distinct);
    var b := rng.Col(lo, hi, distinct);
    rgb := [r, g, b];
  }

  /** One painted line, without its end. */
  method HunkLine(rng: Rng, bg: seq<int>, distinct: int) returns (line: seq<Token>)
    requires rng.Valid() && forall n <- bg :: 0 <= n <= 255
    modifies rng
    ensures rng.Valid() && rng.count >= old(rng.count)
    ensures Drawn(line, rng.state) == HunkLineFrom(old(rng.state), bg, distinct)
    ensures PartOfLine(line) && IsHunkLine(line + [CrLf], bg)
  {
    hide WORDS, Step, IntFrom, TripleFrom, ExactWordsFrom, IsWords;
    var fore := Triple(rng, 150, 255, distinct);
    var n := rng.Int(4, 12);
    var text := Words(rng, n);
    WordsBetween(text, n, 4, 12);
    TripleSets(38, fore, 150, 255);
    line := [Sgr([48, 2] + bg), Sgr([38, 2] + fore), Token.Text(text), EraseToEnd, Sgr([0])];
  }

  /** A diff hunk: three to nine painted lines. */
  method Hunk(rng: Rng, distinct: int) returns (tokens: seq<Token>)
    requires rng.Valid()
    modifies rng
    ensures rng.Valid() && rng.count >= old(rng.count) && Drawn(tokens, rng.state) == HunkFrom(old(rng.state), distinct)
    ensures WellFormed(Lines(tokens)) && Coloured(tokens) && 3 <= LineEnds(tokens) <= 9
    ensures HunkOp(Lines(tokens))
  {
    hide IsHunk, IsHunkLine, Block, PartOfLine, Coloured, LineEnds, HunkLineFrom, IntFrom, Step;
    EmptyBlock();
    BackgroundsAreBytes();
    var bg := Pick(rng, BACKGROUNDS);
    tokens := [];
    NoShapes(bg);
    var i := rng.Int(3, 9);
    ghost var lines, start := i, rng.state;
    while i > 0
      invariant 0 <= i <= lines && rng.Valid() && rng.count >= old(rng.count) && Block(tokens, lines - i)
      invariant Drawn(tokens, rng.state) == HunkLinesFrom(start, bg, distinct, lines - i)
      invariant IsHunk(tokens, bg, lines - i)
    {
      var line := HunkLine(rng, bg, distinct);
      HunkGrows(tokens, bg, lines - i, line + [CrLf]);
      assert tokens + (line + [CrLf]) == tokens + line + [CrLf];
      BlockGrows(tokens, lines - i, line);
      tokens := tokens + line + [CrLf];
      i := i - 1;
    }
    BlockIsLines(tokens, lines);
  }

  lemma BackgroundsAreBytes()
    ensures forall bg <- BACKGROUNDS :: forall n <- bg :: 0 <= n <= 255
  {
  }

  lemma NoShapes(bg: seq<int>)
    ensures IsHunk([], bg, 0) && IsProse([], 0) && AreColouredWords([], 0) && AreAlternateRows([EraseAll], 0)
  {
  }

  /** n whole lines in byte colours, with nothing that moves up. */
  predicate Block(tokens: seq<Token>, n: int) {
    && Coloured(tokens) && LineEnds(tokens) == n && (forall t <- tokens :: Downward(t))
    && (n > 0 ==> tokens != [] && tokens[|tokens| - 1] == CrLf)
  }

  lemma PartsJoin(line: seq<Token>, part: seq<Token>)
    ensures PartOfLine(line) && PartOfLine(part) ==> PartOfLine(line + part)
    ensures PartOfLine([])
  {
  }

  lemma EmptyBlock()
    ensures Block([], 0)
  {
  }

  lemma BlockGrows(tokens: seq<Token>, n: nat, line: seq<Token>)
    requires Block(tokens, n) && PartOfLine(line)
    ensures Block(tokens + line + [CrLf], n + 1)
  {
    OneLineEnd(tokens, line);
  }

  lemma BlockIsLines(tokens: seq<Token>, n: nat)
    requires Block(tokens, n) && n > 0
    ensures WellFormed(Lines(tokens)) && Coloured(tokens) && LineEnds(tokens) == n
  {
  }

  lemma {:induction false} NoLineEnds(tokens: seq<Token>, line: seq<Token>)
    requires forall t <- line :: !t.CrLf?
    ensures LineEnds(tokens + line) == LineEnds(tokens)
  {
    if line == [] {
      assert tokens + line == tokens;
    } else {
      assert line[|line| - 1] in line;
      assert (tokens + line)[..|tokens + line| - 1] == tokens + line[..|line| - 1];
      NoLineEnds(tokens, line[..|line| - 1]);
    }
  }

  lemma OneLineEnd(tokens: seq<Token>, line: seq<Token>)
    requires forall t <- line :: Inline(t)
    ensures LineEnds(tokens + line + [CrLf]) == LineEnds(tokens) + 1
  {
    NoLineEnds(tokens, line);
    assert (tokens + line + [CrLf])[..|tokens + line|] == tokens + line;
  }

  method ProseLine(rng: Rng, distinct: int) returns (line: seq<Token>)
    requires rng.Valid()
    modifies rng
    ensures rng.Valid() && rng.count >= old(rng.count)
    ensures Drawn(line, rng.state) == ProseLineFrom(old(rng.state), distinct)
    ensures PartOfLine(line) && IsProseLine(line + [CrLf])
  {
    hide WORDS, Step, IntFrom, ColFrom, ExactWordsFrom, IsWords;
    var fore := rng.Col(16, 231, distinct);
    var n := rng.Int(6, 16);
    var text := Words(rng, n);
    WordsBetween(text, n, 6, 16);
    line := [Sgr([38, 5, fore]), Token.Text(text), Sgr([0])];
  }

  /** One to four lines of prose. */
  method Prose(rng: Rng, distinct: int) returns (tokens: seq<Token>)
    requires rng.Valid()
    modifies rng
    ensures rng.Valid() && rng.count >= old(rng.count)
    ensures Drawn(tokens, rng.state) == ProseFrom(old(rng.state), distinct)
    ensures WellFormed(Lines(tokens)) && Coloured(tokens) && 1 <= LineEnds(tokens) <= 4
    ensures ProseOp(Lines(tokens))
  {
    NoShapes([]);
    hide IsProse, IsProseLine, Block, PartOfLine, Coloured, LineEnds, ProseLineFrom, IntFrom, Step;
    EmptyBlock();
    tokens := [];
    var i := rng.Int(1, 4);
    ghost var lines, start := i, rng.state;
    while i > 0
      invariant 0 <= i <= lines && rng.Valid() && rng.count >= old(rng.count) && Block(tokens, lines - i)
      invariant Drawn(tokens, rng.state) == ProseLinesFrom(start, distinct, lines - i)
      invariant IsProse(tokens, lines - i)
    {
      var line := ProseLine(rng, distinct);
      ProseGrows(tokens, lines - i, line + [CrLf]);
      assert tokens + (line + [CrLf]) == tokens + line + [CrLf];
      BlockGrows(tokens, lines - i, line);
      tokens := tokens + line + [CrLf];
      i := i - 1;
    }
    BlockIsLines(tokens, lines);
  }

  /** A word and a space, in colours of its own. */
  method ColouredWord(rng: Rng, distinct: int) returns (tokens: seq<Token>)
    requires rng.Valid()
    modifies rng
    ensures rng.Valid() && rng.count >= old(rng.count)
    ensures Drawn(tokens, rng.state) == ColouredWordFrom(old(rng.state), distinct)
    ensures PartOfLine(tokens) && IsColouredWord(tokens)
  {
    hide WORDS, Step, PickFrom, TripleFrom;
    WordsAreShort();
    var fore := Triple(rng, 0, 255, distinct);
    var back := Triple(rng, 0, 63, distinct);
    var word := Pick(rng, WORDS);
    TripleSets(38, fore, 0, 255);
    TripleSets(48, back, 0, 63);
    tokens := [Sgr([38, 2] + fore), Sgr([48, 2] + back), Token.Text(word), Sgr([0]), Token.Text(" ")];
  }

  /** One line of prose with a colour pair for each word. */
  method ColouredProse(rng: Rng, distinct: int) returns (tokens: seq<Token>)
    requires rng.Valid()
    modifies rng
    ensures rng.Valid() && rng.count >= old(rng.count)
    ensures Drawn(tokens, rng.state) == ColouredProseFrom(old(rng.state), distinct)
    ensures WellFormed(Lines(tokens)) && Coloured(tokens) && LineEnds(tokens) == 1
    ensures ColouredOp(Lines(tokens))
  {
    hide AreColouredWords, Block, PartOfLine, Coloured, LineEnds, ColouredWordsFrom, IntFrom, Step;
    var w := rng.Int(6, 14);
    var line := ColouredWords(rng, w, distinct);
    tokens := line + [CrLf];
    EmptyBlock();
    BlockGrows([], 0, line);
    assert [] + line + [CrLf] == tokens;
    BlockIsLines(tokens, 1);
    assert tokens[..|tokens| - 1] == line;
    assert IsColouredLine(tokens, w);
  }

  method ColouredWords(rng: Rng, words: nat, distinct: int) returns (line: seq<Token>)
    requires rng.Valid()
    modifies rng
    ensures rng.Valid() && rng.count >= old(rng.count)
    ensures Drawn(line, rng.state) == ColouredWordsFrom(old(rng.state), distinct, words)
    ensures PartOfLine(line) && AreColouredWords(line, words)
  {
    NoShapes([]);
    PartsJoin([], []);
    hide AreColouredWords, IsColouredWord, PartOfLine, ColouredWordFrom, Step;
    line := [];
    var w := words;
    while w > 0
      invariant 0 <= w <= words && rng.Valid() && rng.count >= old(rng.count) && PartOfLine(line)
      invariant Drawn(line, rng.state) == ColouredWordsFrom(old(rng.state), distinct, words - w)
      invariant AreColouredWords(line, words - w)
    {
      var word := ColouredWord(rng, distinct);
      ColouredWordsGrow(line, words - w, word);
      PartsJoin(line, word);
      line := line + word;
      w := w - 1;
    }
  }

  lemma NoBoxColoured()
    ensures Coloured(DrawTokens([]))
  {
  }

  lemma BoxColoured(lines: seq<Painted>, line: Painted)
    requires Coloured(DrawTokens(lines)) && BoxLine(line)
    ensures Coloured(DrawTokens(lines + [line]))
  {
    assert (lines + [line])[..|lines|] == lines;
    assert DrawTokens(lines + [line]) == DrawTokens(lines) + PaintedTokens(line);
  }

  predicate BoxLine(l: Painted) {
    |l.text| <= COLS && 232 <= l.back <= 250 && 16 <= l.fore <= 231
  }

  method BoxLineDrawn(rng: Rng, distinct: int) returns (line: Painted)
    requires rng.Valid()
    modifies rng
    ensures rng.Valid() && rng.count >= old(rng.count)
    ensures Drawn(line, rng.state) == BoxLineFrom(old(rng.state), distinct)
    ensures BoxLine(line) && IsBoxLine(line)
  {
    hide WORDS, Step, IntFrom, ColFrom, ExactWordsFrom, IsWords;
    var back := rng.Col(232, 250, distinct);
    var fore := rng.Col(16, 231, distinct);
    var n := rng.Int(3, 8);
    var text := Words(rng, n);
    WordsBetween(text, n, 3, 8);
    line := Painted(back, fore, " " + text);
    assert line.text[1..] == text;
  }

  /** The lines of a fresh box; each fits in a row. */
  method BoxLines(rng: Rng, height: nat, distinct: int) returns (lines: seq<Painted>)
    requires rng.Valid()
    modifies rng
    ensures rng.Valid() && rng.count >= old(rng.count)
    ensures Drawn(lines, rng.state) == BoxLinesFrom(old(rng.state), distinct, height)
    ensures |lines| == height && Coloured(DrawTokens(lines)) && forall l <- lines :: BoxLine(l) && IsBoxLine(l)
  {
    hide DrawTokens, Coloured, BoxLineFrom, IsBoxLine;
    lines := [];
    NoBoxColoured();
    for i := 0 to height
      invariant rng.Valid() && rng.count >= old(rng.count)
      invariant Drawn(lines, rng.state) == BoxLinesFrom(old(rng.state), distinct, i)
      invariant |lines| == i && Coloured(DrawTokens(lines)) && forall l <- lines :: BoxLine(l) && IsBoxLine(l)
    {
      var line := BoxLineDrawn(rng, distinct);
      BoxColoured(lines, line);
      lines := lines + [line];
    }
  }

  /** The lines a box is redrawn with; each fits in a row. */
  method PlainLines(rng: Rng, height: nat) returns (lines: seq<string>)
    requires rng.Valid()
    modifies rng
    ensures rng.Valid() && rng.count >= old(rng.count)
    ensures Drawn(lines, rng.state) == PlainLinesFrom(old(rng.state), height)
    ensures |lines| == height && forall l <- lines :: |l| <= COLS && IsWords(l, 3, 8)
  {
    hide WORDS, Step, IntFrom, ExactWordsFrom, IsWords;
    lines := [];
    for i := 0 to height
      invariant rng.Valid() && rng.count >= old(rng.count)
      invariant Drawn(lines, rng.state) == PlainLinesFrom(old(rng.state), i)
      invariant |lines| == i && forall l <- lines :: |l| <= COLS && IsWords(l, 3, 8)
    {
      var n := rng.Int(3, 8);
      var text := Words(rng, n);
      WordsBetween(text, n, 3, 8);
      lines := lines + [text];
    }
  }

  /** The spinner's line. */
  method SpinnerLine(rng: Rng, frame: nat, distinct: int) returns (tokens: seq<Token>, ghost op: Op)
    requires rng.Valid()
    modifies rng
    ensures rng.Valid() && rng.count >= old(rng.count)
    ensures Drawn(tokens, rng.state) == SpinnerFrom(old(rng.state), frame, distinct)
    ensures op.Spinner? && tokens == Tokens(op) && Coloured(tokens) && IsSpinner(op, frame)
  {
    hide IsWords, Step, IntFrom, ColFrom, ExactWordsFrom;
    var back := rng.Col(16, 231, distinct);
    var fore := rng.Col(16, 231, distinct);
    var text := Words(rng, 2);
    var line := " " + text + " " + Decimal.Print(frame) + " ";
    tokens, op := SpinnerTokens(back, fore, line), Spinner(back, fore, line);
  }

  method AlternateRow(rng: Rng, row: nat, distinct: int) returns (tokens: seq<Token>)
    requires rng.Valid()
    modifies rng
    ensures rng.Valid() && rng.count >= old(rng.count)
    ensures Drawn(tokens, rng.state) == AlternateRowFrom(old(rng.state), row, distinct)
    ensures InnerPart(tokens) && IsAlternateRow(tokens, row)
  {
    hide IsWords, Step, IntFrom, ColFrom, ExactWordsFrom;
    var back := rng.Col(232, 255, distinct);
    var text := Words(rng, 4);
    tokens := [Goto(row, 0), Sgr([48, 5, back]), Token.Text(" " + text), EraseToEnd];
    assert (" " + text)[1..] == text;
  }

  /** What fills the alternate screen, row by row. */
  method AlternateRows(rng: Rng, distinct: int) returns (inner: seq<Token>)
    requires rng.Valid()
    modifies rng
    ensures rng.Valid() && rng.count >= old(rng.count)
    ensures Drawn(inner, rng.state) == AlternateScreenFrom(old(rng.state), distinct)
    ensures (forall t <- inner :: Inner(t)) && Coloured(inner) && TripOp(Trip(inner))
  {
    hide AlternateRowsFrom, AreAlternateRows, InnerPart;
    var rows := FilledRows(rng, ROWS, distinct);
    inner := rows + [Sgr([0])];
    InnerParts();
    InnerJoins(rows, [Sgr([0])]);
    InnerIs(inner);
    assert inner[..|inner| - 1] == rows;
  }

  method FilledRows(rng: Rng, n: nat, distinct: int) returns (rows: seq<Token>)
    requires rng.Valid()
    modifies rng
    ensures rng.Valid() && rng.count >= old(rng.count)
    ensures Drawn(rows, rng.state) == AlternateRowsFrom(old(rng.state), distinct, n)
    ensures InnerPart(rows) && AreAlternateRows(rows, n)
  {
    hide *;
    NoShapes([]);
    InnerParts();
    NoRowsFrom(rng.state, distinct);
    rows := [EraseAll];
    for i := 0 to n
      invariant rng.Valid() && rng.count >= old(rng.count)
      invariant Drawn(rows, rng.state) == AlternateRowsFrom(old(rng.state), distinct, i)
      invariant InnerPart(rows) && AreAlternateRows(rows, i)
    {
      NextRowFrom(old(rng.state), distinct, i);
      var row := AlternateRow(rng, i, distinct);
      AlternateRowsGrow(rows, i, row);
      InnerJoins(rows, row);
      rows := rows + row;
    }
  }

  lemma NoRowsFrom(x: bv32, distinct: int)
    ensures AlternateRowsFrom(x, distinct, 0) == Drawn([EraseAll], x)
  {
  }

  lemma NextRowFrom(x: bv32, distinct: int, n: nat)
    ensures var before := AlternateRowsFrom(x, distinct, n);
            var row := AlternateRowFrom(before.next, n, distinct);
            AlternateRowsFrom(x, distinct, n + 1) == Drawn(before.value + row.value, row.next)
  {
    hide AlternateRowFrom;
  }

  predicate InnerPart(tokens: seq<Token>) {
    (forall t <- tokens :: Inner(t)) && Coloured(tokens)
  }

  lemma InnerIs(tokens: seq<Token>)
    requires InnerPart(tokens)
    ensures (forall t <- tokens :: Inner(t)) && Coloured(tokens)
  {
  }

  lemma InnerParts()
    ensures InnerPart([EraseAll]) && InnerPart([Sgr([0])])
  {
  }

  lemma InnerJoins(a: seq<Token>, b: seq<Token>)
    ensures InnerPart(a) && InnerPart(b) ==> InnerPart(a + b)
  {
  }

  // ---- The session -------------------------------------------------------------------------------------

  function Flat(frames: seq<seq<Token>>): seq<Token> {
    if frames == [] then [] else Flat(frames[..|frames| - 1]) + frames[|frames| - 1]
  }

  lemma FlatGrows(frames: seq<seq<Token>>, frame: seq<Token>)
    ensures Flat(frames + [frame]) == Flat(frames) + frame
  {
    assert (frames + [frame])[..|frames|] == frames;
  }

  function Trips(ops: seq<Op>): nat {
    if ops == [] then 0 else Trips(ops[..|ops| - 1]) + if ops[|ops| - 1].Trip? then 1 else 0
  }

  predicate Session(ops: seq<Op>, box: nat, written: seq<Token>) {
    Balanced(ops, box) && (forall op <- ops :: WellFormed(op)) && written == AllTokens(ops)
  }

  lemma SessionGrows(ops: seq<Op>, box: nat, written: seq<Token>, op: Op, after: nat)
    requires Session(ops, box, written) && WellFormed(op) && Height(box, op) == Some(after)
    ensures Session(ops + [op], after, written + Tokens(op))
    ensures Trips(ops + [op]) == Trips(ops) + if op.Trip? then 1 else 0
  {
    assert (ops + [op])[..|ops|] == ops;
  }

  lemma RedrawColours(lines: seq<string>)
    requires lines != []
    ensures Coloured(RedrawTokens(lines))
  {
    EraseColours(|lines|);
    LineColours(lines);
  }

  lemma {:induction false} EraseColours(n: nat)
    ensures Coloured(EraseTokens(n))
  {
    if n > 1 { EraseColours(n - 1); }
  }

  lemma {:induction false} LineColours(lines: seq<string>)
    ensures Coloured(LineTokens(lines))
  {
    if lines != [] { LineColours(lines[..|lines| - 1]); }
  }

  /** A box is drawn, or the one on screen is redrawn. */
  method BoxOp(rng: Rng, box: nat, distinct: int) returns (tokens: seq<Token>, after: nat, ghost op: Op)
    requires rng.Valid() && (box == 0 || 3 <= box <= 6)
    modifies rng
    ensures rng.Valid() && rng.count >= old(rng.count)
    ensures Drawn(Piece(tokens, after), rng.state) == BoxFrom(old(rng.state), box, distinct)
    ensures WellFormed(op) && !op.Trip? && tokens == Tokens(op) && Height(box, op) == Some(after) && Coloured(tokens)
    ensures if box == 0 then DrawOp(op) else RedrawOp(op, box)
  {
    hide IsBoxLine, IsWords, DrawTokens, RedrawTokens, BoxLinesFrom, PlainLinesFrom, IntFrom, Step, Coloured;
    if box == 0 {
      var height := rng.Int(3, 6);
      var lines := BoxLines(rng, height, distinct);
      tokens, after, op := DrawTokens(lines), height, Draw(lines);
    } else {
      var lines := PlainLines(rng, box);
      RedrawColours(lines);
      tokens, after, op := RedrawTokens(lines), 0, Redraw(lines);
    }
  }

  /** One operation other than a trip, chosen by the draw. */
  method PlainOp(rng: Rng, draw: nat, box: nat, frame: nat, distinct: int)
      returns (tokens: seq<Token>, after: nat, ghost op: Op)
    requires rng.Valid() && (box == 0 || 3 <= box <= 6)
    modifies rng
    ensures rng.Valid() && rng.count >= old(rng.count)
              && Drawn(Piece(tokens, after), rng.state) == PlainOpFrom(old(rng.state), draw, box, frame, distinct)
    ensures WellFormed(op) && !op.Trip? && tokens == Tokens(op) && Height(box, op) == Some(after) && Coloured(tokens)
    ensures 100 * draw < 97 * 0x1_0000_0000 ==> CalledFor(op, draw, box, frame)
  {
    hide HunkOp, ProseOp, ColouredOp, DrawOp, RedrawOp, IsSpinner, TripOp, Downward, LineEnds, Coloured;
    hide SpinnerTokens, HunkFrom, ProseFrom, ColouredProseFrom, SpinnerFrom, BoxFrom;
    if Below(draw, 30) {
      tokens := Hunk(rng, distinct);
      after, op := box, Lines(tokens);
    } else if Below(draw, 50) {
      tokens := Prose(rng, distinct);
      after, op := box, Lines(tokens);
    } else if Below(draw, 70) {
      tokens, after, op := BoxOp(rng, box, distinct);
    } else if Below(draw, 85) {
      tokens, op := SpinnerLine(rng, frame, distinct);
      after := box;
    } else {
      tokens := ColouredProse(rng, distinct);
      after, op := box, Lines(tokens);
    }
  }

  lemma StartOfSession()
    ensures Session([], 0, Flat([])) && Trips([]) == 0
  {
  }

  lemma AtStartOfFrame(written: seq<Token>)
    ensures written + [] == written && Coloured([])
  {
  }

  lemma Together(written: seq<Token>, s: seq<Token>, tokens: seq<Token>)
    ensures written + s + tokens == written + (s + tokens)
    ensures Coloured(s) && Coloured(tokens) ==> Coloured(s + tokens)
  {
  }

  /** A trip ends one frame in the middle and leaves the way back to start the next. */
  lemma TripSplits(ops: seq<Op>, box: nat, out: seq<seq<Token>>, s: seq<Token>, inner: seq<Token>)
    requires Session(ops, box, Flat(out) + s) && forall t <- inner :: Inner(t)
    requires Coloured(s) && Coloured(inner)
    ensures Session(ops + [Trip(inner)], box, Flat(out + [s + [AltScreen] + inner]) + [MainScreen])
    ensures Trips(ops + [Trip(inner)]) == Trips(ops) + 1
    ensures Coloured(s + [AltScreen] + inner) && Coloured([MainScreen])
  {
    hide Session;
    SessionGrows(ops, box, Flat(out) + s, Trip(inner), box);
    FlatGrows(out, s + [AltScreen] + inner);
    assert Flat(out) + s + ([AltScreen] + inner + [MainScreen]) == Flat(out) + (s + [AltScreen] + inner) + [MainScreen];
  }

  /** One more operation, in the frame being written. A trip ends that frame and starts another. */
  method NextOp(rng: Rng, out: seq<seq<Token>>, s: seq<Token>, box: nat, frame: nat, distinct: int, ghost ops: seq<Op>)
    returns (out': seq<seq<Token>>, s': seq<Token>, after: nat, ghost op: Op, ghost entry: Entry)
    requires rng.Valid() && Session(ops, box, Flat(out) + s)
    requires Coloured(s) && forall f <- out :: Coloured(f)
    modifies rng
    ensures rng.Valid() && rng.count > old(rng.count)
    ensures Writing(out', s', after, rng.state) == OpFrom(Writing(out, s, box, old(rng.state)), frame, distinct)
    ensures Session(ops + [op], after, Flat(out') + s')
    ensures |out'| - Trips(ops + [op]) == |out| - Trips(ops)
    ensures entry == Entry(Number(After(rng.first, old(rng.count) + 1)), old(rng.count) + 1, frame)
    ensures CalledFor(op, entry.draw, box, frame)
    ensures Coloured(s') && forall f <- out' :: Coloured(f)
  {
    hide Tokens, AllTokens, HeightAfter, WellFormed, Flat, Trips, Coloured, PlainOpFrom, AlternateScreenFrom, Number,
        Step, TripOp, HunkOp, ProseOp, ColouredOp, DrawOp, RedrawOp, IsSpinner;
    rng.Advance();
    var draw := Number(rng.state);
    entry := Entry(draw, rng.count, frame);
    if Below(draw, 97) {
      BalancedHasOps(ops, box);
      var tokens;
      tokens, after, op := PlainOp(rng, draw, box, frame, distinct);
      SessionGrows(ops, box, Flat(out) + s, op, after);
      Together(Flat(out), s, tokens);
      out', s' := out, s + tokens;
    } else {
      var inner := AlternateRows(rng, distinct);
      TripSplits(ops, box, out, s, inner);
      out', s', after, op := out + [s + [AltScreen] + inner], [MainScreen], box, Trip(inner);
    }
  }

  /** The frames are those of the seed, whatever else is on. They are the tokens of a balanced sequence of
      operations, cut where each frame ends and in the middle of each trip to the alternate screen. */
  method WriteFrames(rng: Rng, seed: int, frames: nat, opsMax: int, distinct: int)
    returns (out: seq<seq<Token>>, ghost ops: seq<Op>, ghost box: nat, ghost log: seq<Entry>)
    requires rng.Valid() && rng.first == Start(seed) && rng.count == 0
    modifies rng
    ensures rng.Valid() && rng.count >= old(rng.count)
    ensures Writing(out, [], box, rng.state) == SessionFrom(seed, frames, opsMax, distinct)
    ensures Session(ops, box, Flat(out))
    ensures |out| == frames + Trips(ops)
    ensures forall frame <- out :: Coloured(frame)
    ensures Logged(ops, log, Start(seed)) && forall entry <- log :: entry.frame < frames
  {
    hide LoggedUpTo, CalledFor, Number, After, Tokens, AllTokens, HeightAfter, WellFormed, Flat, Trips;
    hide Coloured, OpFrom, IntFrom, Step, Start;
    out, ops, log := [], [], [];
    var height: nat := 0;
    StartOfSession();
    NothingLogged(rng.first);
    StartsFirst(rng.first);
    for f := 0 to frames
      invariant rng.Valid()
      invariant Writing(out, [], height, rng.state) == SessionFrom(seed, f, opsMax, distinct)
      invariant Session(ops, height, Flat(out)) && |out| == f + Trips(ops)
      invariant forall frame <- out :: Coloured(frame)
      invariant LoggedUpTo(ops, log, rng.first, rng.count, if f == 0 then 0 else f - 1) && (f == 0 ==> log == [])
    {
      var s: seq<Token> := [];
      ghost var before := rng.count;
      AtStartOfFrame(Flat(out));
      var count := rng.Int(1, opsMax);
      ghost var start := Writing(out, [], height, rng.state);
      LaterInTheLog(ops, log, rng.first, before, if f == 0 then 0 else f - 1, rng.count, f);
      var o := 0;
      while o < count
        invariant o == 0 || o <= count
        invariant rng.Valid()
        invariant Writing(out, s, height, rng.state) == OpsFrom(start, f, distinct, o)
        invariant Session(ops, height, Flat(out) + s) && |out| == f + Trips(ops)
        invariant Coloured(s) && forall frame <- out :: Coloured(frame)
        invariant LoggedUpTo(ops, log, rng.first, rng.count, f)
      {
        ghost var op, entry;
        ghost var count, box := rng.count, height;
        out, s, height, op, entry := NextOp(rng, out, s, height, f, distinct, ops);
        LogGrows(ops, log, rng.first, count, f, op, box, entry);
        LaterInTheLog(ops + [op], log + [entry], rng.first, entry.place, f, rng.count, f);
        ops, log := ops + [op], log + [entry];
        o := o + 1;
      }
      FlatGrows(out, s);
      out := out + [s];
    }
    box := height;
    LogIsDone(ops, log, rng.first, rng.count, frames);
  }

  lemma StartsFirst(first: bv32)
    ensures After(first, 0) == first
  {
  }

  lemma LogIsDone(ops: seq<Op>, log: seq<Entry>, first: bv32, count: nat, frames: nat)
    requires LoggedUpTo(ops, log, first, count, if frames == 0 then 0 else frames - 1) && (frames == 0 ==> log == [])
    ensures Logged(ops, log, first) && forall entry <- log :: entry.frame < frames
  {
    hide Logged;
  }

  lemma TailColours(t: Tail)
    ensures Coloured(TailTokens(t))
  {
    EraseRowsColours(ERASED);
  }

  lemma {:induction false} EraseRowsColours(rows: seq<nat>)
    ensures Coloured(EraseRowsTokens(rows))
  {
    if rows != [] { EraseRowsColours(rows[..|rows| - 1]); }
  }

  /** The last frame. */
  method WriteTail(rng: Rng) returns (tokens: seq<Token>, ghost tail: Tail)
    requires rng.Valid()
    modifies rng
    ensures rng.Valid() && rng.count >= old(rng.count) && Drawn(tail, rng.state) == TailFrom(old(rng.state))
    ensures tokens == TailTokens(tail) && TailFits(tail) && Coloured(tokens)
    ensures IsTail(tail) && WritesTail(tokens, tail)
  {
    hide ExactWordsFrom, TailTokens, Coloured, IsWords, WritesTail;
    var plain := Words(rng, 5);
    var plainer := Words(rng, 5);
    var red := Words(rng, 5);
    var green := Words(rng, 5);
    var texts := Tail("plain " + plain, "plain " + plainer, red, green);
    TailColours(texts);
    TailIsWritten(texts);
    assert texts.plain[6..] == plain && texts.plainer[6..] == plainer;
    tokens, tail := TailTokens(texts), texts;
  }

  lemma TailAfterSession(ops: seq<Op>, box: nat, written: seq<Token>, tail: Tail)
    requires Session(ops, box, written) && TailFits(tail)
    ensures RowsOnly(Played(ops), FeedAll(Fresh(), written + TailTokens(tail)), Shape(Played(ops).main.rows, tail))
  {
    hide FeedAll, TailTokens, AllTokens, Shape;
    SessionStaysInStep(ops, box);
    FeedAppends(Fresh(), written, TailTokens(tail));
    TailLeavesShape(Played(ops), tail);
  }

  /** The tokens of each operation are those its shape says. */
  ghost predicate EachIsWritten(ops: seq<Op>)
    requires forall op <- ops :: WellFormed(op)
  {
    forall op <- ops :: Writes(op, Tokens(op))
  }

  /** The whole stream leaves the tail's shape on the screen the session ends with. */
  ghost predicate LeavesShape(ops: seq<Op>, written: seq<Token>, tail: Tail)
    requires forall op <- ops :: WellFormed(op)
  {
    RowsOnly(Played(ops), FeedAll(Fresh(), written), Shape(Played(ops).main.rows, tail))
  }

  /** The whole stream is that of the seed, whatever else is on: the frames of a balanced session and the
      tail, which leaves its shape on the screen the session ends with. */
  method Generate(seed: int, frames: nat, opsMax: int, distinct: int)
    returns (out: seq<seq<Token>>, ghost ops: seq<Op>, ghost box: nat, ghost tail: Tail, ghost log: seq<Entry>)
    ensures var session := SessionFrom(seed, frames, opsMax, distinct);
            && out == session.out + [TailTokens(tail)] && tail == TailFrom(session.next).value
            && Session(ops, box, Flat(session.out))
    ensures |out| == frames + Trips(ops) + 1
    ensures forall frame <- out :: Coloured(frame)
    ensures (forall op <- ops :: WellFormed(op)) && EachIsWritten(ops) && LeavesShape(ops, Flat(out), tail)
    ensures Logged(ops, log, Start(seed)) && forall entry <- log :: entry.frame < frames
    ensures IsTail(tail) && WritesTail(TailTokens(tail), tail)
  {
    hide Writes, Tokens, IsTail, WritesTail;
    hide Logged, TailFrom, SessionFrom, TailTokens, Flat, Trips, Coloured, FeedAll, Shape, Played, Start;
    var rng := new Rng(seed);
    out, ops, box, log := WriteFrames(rng, seed, frames, opsMax, distinct);
    ghost var written := Flat(out);
    var last;
    last, tail := WriteTail(rng);
    FlatGrows(out, last);
    TailAfterSession(ops, box, written, tail);
    forall op | op in ops ensures Writes(op, Tokens(op)) { TokensAreWritten(op); }
    out := out + [last];
  }
}
