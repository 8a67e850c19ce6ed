/** The terminal a workload is written to: a fixed grid of rows, a cursor, and the control functions
    the workload uses, as ECMA-48 defines them (CPL in section 8.3.13, EL in section 8.3.41). */
module Terminal {
  import opened Options
  import opened Collections

  const COLS: nat := 100
  const ROWS: nat := 32

  datatype Token =
    | Text(s: string)
    | Sgr(codes: seq<int>)         // colours: no effect on cells or cursor
    | CrLf
    | EraseLine                    // EL 2
    | EraseToEnd                   // EL 0
    | EraseAll                     // ED 2
    | PrecedingLine(n: nat)        // CPL
    | Goto(row: nat, col: nat)     // CUP, counted from 0 here
    | SaveCursor
    | RestoreCursor
    | AltScreen                    // switch to a cleared alternate screen
    | MainScreen
    | HideCursor

  /** `scrolled` counts the lines lost at the top, `clamped` the moves cut short at the top edge. A
      column of COLS means that the next character wraps. */
  datatype Screen = Screen(rows: seq<string>, row: nat, col: nat, scrolled: nat, clamped: nat)

  predicate Valid(s: Screen) {
    |s.rows| == ROWS && s.row < ROWS && s.col <= COLS
  }

  function Blanks(n: nat): (lines: seq<string>)
    ensures |lines| == n && forall l <- lines :: l == ""
  {
    if n == 0 then [] else Blanks(n - 1) + [""]
  }

  function Blank(): (s: Screen)
    ensures Valid(s)
  {
    Screen(Blanks(ROWS), 0, 0, 0, 0)
  }

  function Spaces(n: nat): (s: string)
    ensures |s| == n
  {
    if n == 0 then "" else Spaces(n - 1) + " "
  }

  /** A row with one more character written. */
  function Put(line: string, col: nat, c: char): string {
    if col < |line| then line[col := c] else line + Spaces(col - |line|) + [c]
  }

  function NextRow(s: Screen): (t: Screen)
    requires Valid(s)
    ensures Valid(t) && t.col == s.col && t.scrolled + t.row == s.scrolled + s.row + 1
  {
    if s.row + 1 < ROWS then s.(row := s.row + 1)
    else s.(rows := s.rows[1..] + [""], scrolled := s.scrolled + 1)
  }

  function PutChar(s: Screen, c: char): (t: Screen)
    requires Valid(s) && s.col < COLS
    ensures Valid(t)
  {
    s.(rows := s.rows[s.row := Put(s.rows[s.row], s.col, c)], col := s.col + 1)
  }

  function WriteChar(s: Screen, c: char): (t: Screen)
    requires Valid(s)
    ensures Valid(t)
  {
    PutChar(if s.col == COLS then NextRow(s.(col := 0)) else s, c)
  }

  function WriteText(s: Screen, text: string): (t: Screen)
    requires Valid(s)
    ensures Valid(t)
    decreases |text|
  {
    if text == "" then s else WriteText(WriteChar(s, text[0]), text[1..])
  }

  function MoveUp(s: Screen, n: nat): (t: Screen)
    requires Valid(s)
    ensures Valid(t)
    decreases n == 0
  {
    if n == 0 then MoveUp(s, 1)
    else if n <= s.row then s.(row := s.row - n, col := 0)
    else s.(row := 0, col := 0, clamped := s.clamped + 1)
  }

  /** What a token does to the screen it is written on. The tokens about two screens and the saved
      cursor are handled by `Feed`. */
  function Write(s: Screen, token: Token): (t: Screen)
    requires Valid(s)
    ensures Valid(t)
  {
    match token
    case Text(text) => WriteText(s, text)
    case CrLf => NextRow(s.(col := 0))
    case EraseLine => s.(rows := s.rows[s.row := ""])
    case EraseToEnd => if s.col < |s.rows[s.row]| then s.(rows := s.rows[s.row := s.rows[s.row][..s.col]]) else s
    case EraseAll => s.(rows := Blanks(ROWS))
    case PrecedingLine(n) => MoveUp(s, n)
    case Goto(row, col) => s.(row := if row < ROWS then row else ROWS - 1, col := if col < COLS then col else COLS - 1)
    case _ => s
  }

  datatype Console = Console(main: Screen, alt: Option<Screen>, saved: (nat, nat))

  predicate ValidConsole(c: Console) {
    Valid(c.main) && (c.alt.Some? ==> Valid(c.alt.value)) && c.saved.0 < ROWS && c.saved.1 <= COLS
  }

  function Fresh(): (c: Console)
    ensures ValidConsole(c)
  {
    Console(Blank(), None, (0, 0))
  }

  function Current(c: Console): Screen {
    if c.alt.Some? then c.alt.value else c.main
  }

  function SetCurrent(c: Console, s: Screen): Console {
    if c.alt.Some? then c.(alt := Some(s)) else c.(main := s)
  }

  function Feed(c: Console, token: Token): (d: Console)
    requires ValidConsole(c)
    ensures ValidConsole(d)
  {
    match token
    case SaveCursor => c.(saved := (Current(c).row, Current(c).col))
    case RestoreCursor => SetCurrent(c, Current(c).(row := c.saved.0, col := c.saved.1))
    case AltScreen => c.(alt := Some(Blank()))
    case MainScreen => c.(alt := None)
    case _ => SetCurrent(c, Write(Current(c), token))
  }

  function FeedAll(c: Console, tokens: seq<Token>): (d: Console)
    requires ValidConsole(c)
    ensures ValidConsole(d)
  {
    if tokens == [] then c else Feed(FeedAll(c, tokens[..|tokens| - 1]), tokens[|tokens| - 1])
  }

  lemma {:induction false} FeedAppends(c: Console, a: seq<Token>, b: seq<Token>)
    requires ValidConsole(c)
    ensures FeedAll(c, a + b) == FeedAll(FeedAll(c, a), b)
  {
    hide Feed;
    if b == [] {
      assert a + b == a;
    } else {
      assert (a + b)[..|a + b| - 1] == a + b[..|b| - 1];
      FeedAppends(c, a, b[..|b| - 1]);
    }
  }

  // ---- Text that fits ----------------------------------------------------------------------------

  function Over(line: string, col: nat, text: string): string
    requires col <= |line|
  {
    line[..col] + text + line[Min(|line|, col + |text|)..]
  }

  lemma OverOne(line: string, col: nat, text: string)
    requires col <= |line| && text != ""
    ensures Put(line, col, text[0]) == Over(line, col, [text[0]])
    ensures Over(Put(line, col, text[0]), col + 1, text[1..]) == Over(line, col, text)
  {
    assert Spaces(0) == "";
    assert text == [text[0]] + text[1..];
    assert Put(line, col, text[0]) == Over(line, col, [text[0]]);
  }

  /** Text that fits in the rest of the row replaces as many characters of that row and moves nothing else. */
  lemma {:induction false} WriteFits(s: Screen, text: string)
    requires Valid(s) && s.col <= |s.rows[s.row]| && s.col + |text| <= COLS
    ensures WriteText(s, text) == s.(rows := s.rows[s.row := Over(s.rows[s.row], s.col, text)], col := s.col + |text|)
    decreases |text|
  {
    hide Put, Over, NextRow;
    if text == "" {
      assert Over(s.rows[s.row], s.col, text) == s.rows[s.row] by { OverNone(s.rows[s.row], s.col); }
      assert s.rows[s.row := s.rows[s.row]] == s.rows;
    } else {
      OverOne(s.rows[s.row], s.col, text);
      OverLength(s.rows[s.row], s.col, text[0]);
      WriteFits(WriteChar(s, text[0]), text[1..]);
    }
  }

  lemma OverNone(line: string, col: nat)
    requires col <= |line|
    ensures Over(line, col, "") == line
  {
    assert line[..col] + line[col..] == line;
  }

  lemma OverBlank(text: string)
    ensures Over("", 0, text) == text
  {
  }

  lemma OverLength(line: string, col: nat, c: char)
    requires col <= |line|
    ensures |Put(line, col, c)| > col
  {
  }

  // ---- Tokens that only move down --------------------------------------------------------------------

  predicate Downward(token: Token) {
    token.Text? || token.Sgr? || token.CrLf? || token.EraseToEnd?
  }

  function LineEnds(tokens: seq<Token>): nat {
    if tokens == [] then 0 else LineEnds(tokens[..|tokens| - 1]) + if tokens[|tokens| - 1].CrLf? then 1 else 0
  }

  lemma {:induction false} WriteTextGoesDown(s: Screen, text: string)
    requires Valid(s)
    ensures WriteText(s, text).row >= s.row && WriteText(s, text).clamped == s.clamped
    decreases |text|
  {
    if text != "" { WriteTextGoesDown(WriteChar(s, text[0]), text[1..]); }
  }

  /** Such tokens never move the cursor up, and each line end moves it down unless it is at the bottom. */
  lemma {:induction false} DownwardGoesDown(c: Console, tokens: seq<Token>)
    requires ValidConsole(c) && c.alt.None? && forall t <- tokens :: Downward(t)
    ensures var d := FeedAll(c, tokens);
            && d.alt.None? && d.saved == c.saved && d.main.clamped == c.main.clamped
            && d.main.row >= Min(c.main.row + LineEnds(tokens), ROWS - 1)
            && (tokens != [] && tokens[|tokens| - 1].CrLf? ==> d.main.col == 0)
  {
    hide WriteText, MoveUp;
    if tokens != [] {
      var last := tokens[|tokens| - 1];
      assert last in tokens;
      DownwardGoesDown(c, tokens[..|tokens| - 1]);
      var d := FeedAll(c, tokens[..|tokens| - 1]);
      if last.Text? {
        WriteTextGoesDown(d.main, last.s);
      }
    }
  }

  // ---- Erasing and redrawing -----------------------------------------------------------------------------

  /** Clearing n rows from the cursor down, with the cursor left on the last of them. */
  function EraseTokens(n: nat): seq<Token> {
    if n == 0 then [] else if n == 1 then [EraseLine] else EraseTokens(n - 1) + [CrLf, EraseLine]
  }

  function LineTokens(lines: seq<string>): seq<Token> {
    if lines == [] then [] else LineTokens(lines[..|lines| - 1]) + [Text(lines[|lines| - 1]), CrLf]
  }

  /** Up to the top of the box, clear it, up again, write the new lines. */
  function RedrawTokens(lines: seq<string>): seq<Token>
    requires |lines| > 0
  {
    [PrecedingLine(|lines|)] + EraseTokens(|lines|) + [PrecedingLine(|lines| - 1)] + LineTokens(lines)
  }

  /** The rows of `s` with n rows from `top` replaced. */
  function Replaced(rows: seq<string>, top: nat, lines: seq<string>): (r: seq<string>)
    requires top + |lines| <= |rows|
    ensures |r| == |rows|
  {
    rows[..top] + lines + rows[top + |lines|..]
  }

  lemma ReplacedAt(rows: seq<string>, top: nat, lines: seq<string>, k: nat)
    requires top + |lines| <= |rows| && k < |rows|
    ensures Replaced(rows, top, lines)[k] == if top <= k < top + |lines| then lines[k - top] else rows[k]
  {
  }

  lemma ReplacedNone(rows: seq<string>, top: nat)
    requires top <= |rows|
    ensures Replaced(rows, top, []) == rows
  {
  }

  lemma ReplacedGrows(rows: seq<string>, top: nat, init: seq<string>, l: string)
    requires top + |init| < |rows|
    ensures Replaced(rows, top, init)[top + |init| := l] == Replaced(rows, top, init + [l])
  {
    hide Replaced;
    forall k | 0 <= k < |rows|
      ensures Replaced(rows, top, init)[top + |init| := l][k] == Replaced(rows, top, init + [l])[k]
    {
      ReplacedAt(rows, top, init, k);
      ReplacedAt(rows, top, init + [l], k);
    }
  }

  lemma FeedOne(c: Console, token: Token)
    requires ValidConsole(c)
    ensures FeedAll(c, [token]) == Feed(c, token)
  {
    assert [token][..0] == [];
    assert FeedAll(c, []) == c;
  }

  lemma FeedTwo(c: Console, a: Token, b: Token)
    requires ValidConsole(c)
    ensures FeedAll(c, [a, b]) == Feed(Feed(c, a), b)
  {
    assert [a, b] == [a] + [b];
    FeedAppends(c, [a], [b]);
    FeedOne(c, a);
    FeedOne(Feed(c, a), b);
  }

  lemma {:induction false} EraseClears(c: Console, n: nat)
    requires ValidConsole(c) && c.alt.None? && n > 0 && c.main.col == 0 && c.main.row + n <= ROWS
    ensures FeedAll(c, EraseTokens(n))
         == c.(main := c.main.(rows := Replaced(c.main.rows, c.main.row, Blanks(n)), row := c.main.row + n - 1))
  {
    if n == 1 {
      FeedOne(c, EraseLine);
      assert Blanks(1) == [""];
      assert c.main.rows[c.main.row := ""] == Replaced(c.main.rows, c.main.row, Blanks(1));
    } else {
      EraseClears(c, n - 1);
      FeedAppends(c, EraseTokens(n - 1), [CrLf, EraseLine]);
      var d := FeedAll(c, EraseTokens(n - 1));
      FeedTwo(d, CrLf, EraseLine);
      EraseOneMore(c, d, n);
    }
  }

  lemma EraseOneMore(c: Console, d: Console, n: nat)
    requires ValidConsole(c) && c.alt.None? && n > 1 && c.main.col == 0 && c.main.row + n <= ROWS
    requires d == c.(main := c.main.(rows := Replaced(c.main.rows, c.main.row, Blanks(n - 1)),
               row := c.main.row + n - 2))
    ensures Feed(Feed(d, CrLf), EraseLine)
         == c.(main := c.main.(rows := Replaced(c.main.rows, c.main.row, Blanks(n)), row := c.main.row + n - 1))
  {
    ReplacedGrows(c.main.rows, c.main.row, Blanks(n - 1), "");
  }

  lemma {:induction false} LinesFill(c: Console, lines: seq<string>)
    requires ValidConsole(c) && c.alt.None? && c.main.col == 0 && c.main.row + |lines| < ROWS
    requires forall k :: c.main.row <= k < c.main.row + |lines| ==> c.main.rows[k] == ""
    requires forall l <- lines :: |l| <= COLS
    ensures FeedAll(c, LineTokens(lines))
         == c.(main := c.main.(rows := Replaced(c.main.rows, c.main.row, lines), row := c.main.row + |lines|))
  {
    hide Feed, Replaced;
    if lines == [] {
      ReplacedNone(c.main.rows, c.main.row);
    } else {
      var init, l := lines[..|lines| - 1], lines[|lines| - 1];
      assert l in lines && forall k <- init :: k in lines;
      LinesFill(c, init);
      FeedAppends(c, LineTokens(init), [Text(l), CrLf]);
      var d := FeedAll(c, LineTokens(init));
      FeedTwo(d, Text(l), CrLf);
      LineFills(c, d, init, l);
      assert lines == init + [l];
    }
  }

  lemma LineFills(c: Console, d: Console, init: seq<string>, l: string)
    requires ValidConsole(c) && c.alt.None? && c.main.col == 0 && c.main.row + |init| + 1 < ROWS && |l| <= COLS
    requires c.main.rows[c.main.row + |init|] == ""
    requires d == c.(main := c.main.(rows := Replaced(c.main.rows, c.main.row, init), row := c.main.row + |init|))
    ensures Feed(Feed(d, Text(l)), CrLf)
         == c.(main := c.main.(rows := Replaced(c.main.rows, c.main.row, init + [l]), row := c.main.row + |init| + 1))
  {
    hide Replaced, Over, WriteText;
    ReplacedAt(c.main.rows, c.main.row, init, c.main.row + |init|);
    WriteFits(d.main, l);
    assert Over("", 0, l) == l by { OverBlank(l); }
    ReplacedGrows(c.main.rows, c.main.row, init, l);
  }

  /** An erase and redraw clears and rewrites exactly the box's rows above the cursor: the lines end up
      there, every other row is as it was, the cursor is back on its row, and nothing scrolled and no
      move was cut short. */
  lemma RedrawIsExact(c: Console, lines: seq<string>)
    requires ValidConsole(c) && c.alt.None? && 2 <= |lines| <= c.main.row
    requires forall l <- lines :: |l| <= COLS
    ensures FeedAll(c, RedrawTokens(lines))
         == c.(main := c.main.(rows := Replaced(c.main.rows, c.main.row - |lines|, lines), col := 0))
  {
    hide Feed, FeedAll, EraseTokens, LineTokens, Replaced;
    var n, top := |lines|, c.main.row - |lines|;
    var a, b, d := [PrecedingLine(n)], EraseTokens(n), [PrecedingLine(n - 1)];
    var cleared := EraseIsExact(c, n);
    LinesFill(cleared, lines);
    ReplacedTwice(c.main.rows, top, lines);
    FeedAppends(c, a + b + d, LineTokens(lines));
  }

  lemma EraseIsExact(c: Console, n: nat) returns (cleared: Console)
    requires ValidConsole(c) && c.alt.None? && 2 <= n <= c.main.row
    ensures ValidConsole(cleared)
    ensures cleared == c.(main := c.main.(rows := Replaced(c.main.rows, c.main.row - n, Blanks(n)),
              row := c.main.row - n, col := 0))
    ensures forall k :: c.main.row - n <= k < c.main.row ==> cleared.main.rows[k] == ""
    ensures FeedAll(c, [PrecedingLine(n)] + EraseTokens(n) + [PrecedingLine(n - 1)]) == cleared
  {
    hide Feed, FeedAll, EraseTokens, Replaced, Blanks;
    var top := c.main.row - n;
    var c1 := c.(main := c.main.(row := top, col := 0));
    UpMoves(c, n);
    EraseClears(c1, n);
    var c2 := c1.(main := c1.main.(rows := Replaced(c.main.rows, top, Blanks(n)), row := top + n - 1));
    UpMoves(c2, n - 1);
    cleared := c2.(main := c2.main.(row := top));
    FeedAppends(c, [PrecedingLine(n)], EraseTokens(n));
    FeedAppends(c, [PrecedingLine(n)] + EraseTokens(n), [PrecedingLine(n - 1)]);
    ReplacedBlank(c.main.rows, top, n);
  }

  lemma ReplacedTwice(rows: seq<string>, top: nat, lines: seq<string>)
    requires top + |lines| <= |rows|
    ensures Replaced(Replaced(rows, top, Blanks(|lines|)), top, lines) == Replaced(rows, top, lines)
  {
    hide Replaced;
    var once := Replaced(rows, top, Blanks(|lines|));
    forall k | 0 <= k < |rows|
      ensures Replaced(once, top, lines)[k] == Replaced(rows, top, lines)[k]
    {
      ReplacedAt(once, top, lines, k);
      ReplacedAt(rows, top, lines, k);
      ReplacedAt(rows, top, Blanks(|lines|), k);
    }
  }

  lemma ReplacedBlank(rows: seq<string>, top: nat, n: nat)
    requires top + n <= |rows|
    ensures forall k :: top <= k < top + n ==> Replaced(rows, top, Blanks(n))[k] == ""
  {
    forall k | top <= k < top + n ensures Replaced(rows, top, Blanks(n))[k] == "" {
      assert Blanks(n)[k - top] in Blanks(n);
    }
  }

  lemma UpMoves(c: Console, n: nat)
    requires ValidConsole(c) && c.alt.None? && 0 < n <= c.main.row
    ensures FeedAll(c, [PrecedingLine(n)]) == c.(main := c.main.(row := c.main.row - n, col := 0))
  {
    FeedOne(c, PrecedingLine(n));
  }
}
