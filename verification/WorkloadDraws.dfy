/** What each draw of harness/glassGhost.ts gives, as functions of the generator's state: the session of a
    seed, token by token. The methods of `WorkloadGenerator` are proved to write it. */
module WorkloadDraws {
  import opened Terminal
  import opened Workload
  import opened XorShift
  import Decimal
  import Text

  /** A 24-bit colour, its parts drawn in turn. */
  function TripleFrom(x: bv32, lo: int, hi: int, distinct: int): Drawn<seq<int>> {
    var y, z := Step(x), Step(Step(x));
    Drawn([ColFrom(x, lo, hi, distinct).value, ColFrom(y, lo, hi, distinct).value, ColFrom(z, lo, hi, distinct).value],
        Step(z))
  }

  const WORDS: seq<string> := [
    "the", "quick", "brown", "fox", "jumps", "over", "a", "lazy", "dog", "while", "streaming", "tokens",
    "into", "the", "terminal", "diff", "hunk", "render", "frame", "cell", "glyph", "atlas", "texture",
    "row", "column", "buffer", "scroll", "alt", "screen", "redraw"]

  const BACKGROUNDS: seq<seq<int>> := [[60, 20, 25], [20, 60, 30], [90, 30, 35], [25, 90, 45]]

  function WordListFrom(x: bv32, n: nat): (d: Drawn<seq<string>>)
    ensures |d.value| == n
  {
    if n == 0 then Drawn([], x)
    else
      var before := WordListFrom(x, n - 1);
      Drawn(before.value + [PickFrom(before.next, WORDS).value], Step(before.next))
  }

  /** Between `lo` and `hi` words, joined by single spaces. */
  function WordsFrom(x: bv32, lo: nat, hi: nat): Drawn<string>
    requires lo <= hi
  {
    ExactWordsFrom(Step(x), IntFrom(x, lo, hi).value)
  }

  function ExactWordsFrom(x: bv32, n: nat): Drawn<string> {
    var list := WordListFrom(x, n);
    Drawn(Text.Join(list.value, ' '), list.next)
  }

  // ---- Lines ---------------------------------------------------------------------------------------

  function HunkLineFrom(x: bv32, bg: seq<int>, distinct: int): Drawn<seq<Token>> {
    var fore := TripleFrom(x, 150, 255, distinct);
    var text := WordsFrom(fore.next, 4, 12);
    Drawn([Sgr([48, 2] + bg), Sgr([38, 2] + fore.value), Token.Text(text.value), EraseToEnd, Sgr([0])], text.next)
  }

  function HunkLinesFrom(x: bv32, bg: seq<int>, distinct: int, n: nat): Drawn<seq<Token>> {
    if n == 0 then Drawn([], x)
    else
      var before := HunkLinesFrom(x, bg, distinct, n - 1);
      var line := HunkLineFrom(before.next, bg, distinct);
      Drawn(before.value + line.value + [CrLf], line.next)
  }

  function HunkFrom(x: bv32, distinct: int): Drawn<seq<Token>> {
    var bg := PickFrom(x, BACKGROUNDS);
    HunkLinesFrom(Step(bg.next), bg.value, distinct, IntFrom(bg.next, 3, 9).value)
  }

  function ProseLineFrom(x: bv32, distinct: int): Drawn<seq<Token>> {
    var fore := ColFrom(x, 16, 231, distinct);
    var text := WordsFrom(fore.next, 6, 16);
    Drawn([Sgr([38, 5, fore.value]), Token.Text(text.value), Sgr([0])], text.next)
  }

  function ProseLinesFrom(x: bv32, distinct: int, n: nat): Drawn<seq<Token>> {
    if n == 0 then Drawn([], x)
    else
      var before := ProseLinesFrom(x, distinct, n - 1);
      var line := ProseLineFrom(before.next, distinct);
      Drawn(before.value + line.value + [CrLf], line.next)
  }

  function ProseFrom(x: bv32, distinct: int): Drawn<seq<Token>> {
    ProseLinesFrom(Step(x), distinct, IntFrom(x, 1, 4).value)
  }

  function ColouredWordFrom(x: bv32, distinct: int): Drawn<seq<Token>> {
    var fore := TripleFrom(x, 0, 255, distinct);
    var back := TripleFrom(fore.next, 0, 63, distinct);
    var word := PickFrom(back.next, WORDS);
    Drawn([Sgr([38, 2] + fore.value), Sgr([48, 2] + back.value), Token.Text(word.value), Sgr([0]), Token.Text(" ")],
        word.next)
  }

  function ColouredWordsFrom(x: bv32, distinct: int, n: nat): Drawn<seq<Token>> {
    if n == 0 then Drawn([], x)
    else
      var before := ColouredWordsFrom(x, distinct, n - 1);
      var word := ColouredWordFrom(before.next, distinct);
      Drawn(before.value + word.value, word.next)
  }

  function ColouredProseFrom(x: bv32, distinct: int): Drawn<seq<Token>> {
    var line := ColouredWordsFrom(Step(x), distinct, IntFrom(x, 6, 14).value);
    Drawn(line.value + [CrLf], line.next)
  }

  // ---- Boxes, the spinner and the alternate screen -------------------------------------------------

  function BoxLineFrom(x: bv32, distinct: int): Drawn<Painted> {
    var back := ColFrom(x, 232, 250, distinct);
    var fore := ColFrom(back.next, 16, 231, distinct);
    var text := WordsFrom(fore.next, 3, 8);
    Drawn(Painted(back.value, fore.value, " " + text.value), text.next)
  }

  function BoxLinesFrom(x: bv32, distinct: int, n: nat): Drawn<seq<Painted>> {
    if n == 0 then Drawn([], x)
    else
      var before := BoxLinesFrom(x, distinct, n - 1);
      var line := BoxLineFrom(before.next, distinct);
      Drawn(before.value + [line.value], line.next)
  }

  function PlainLinesFrom(x: bv32, n: nat): (d: Drawn<seq<string>>)
    ensures |d.value| == n
  {
    if n == 0 then Drawn([], x)
    else
      var before := PlainLinesFrom(x, n - 1);
      var text := WordsFrom(before.next, 3, 8);
      Drawn(before.value + [text.value], text.next)
  }

  function SpinnerFrom(x: bv32, frame: nat, distinct: int): Drawn<seq<Token>> {
    var back := ColFrom(x, 16, 231, distinct);
    var fore := ColFrom(back.next, 16, 231, distinct);
    var text := ExactWordsFrom(fore.next, 2);
    Drawn(SpinnerTokens(back.value, fore.value, " " + text.value + " " + Decimal.Print(frame) + " "), text.next)
  }

  function AlternateRowFrom(x: bv32, row: nat, distinct: int): Drawn<seq<Token>> {
    var back := ColFrom(x, 232, 255, distinct);
    var text := ExactWordsFrom(back.next, 4);
    Drawn([Goto(row, 0), Sgr([48, 5, back.value]), Token.Text(" " + text.value), EraseToEnd], text.next)
  }

  function AlternateRowsFrom(x: bv32, distinct: int, n: nat): Drawn<seq<Token>> {
    if n == 0 then Drawn([EraseAll], x)
    else
      var before := AlternateRowsFrom(x, distinct, n - 1);
      var row := AlternateRowFrom(before.next, n - 1, distinct);
      Drawn(before.value + row.value, row.next)
  }

  function AlternateScreenFrom(x: bv32, distinct: int): Drawn<seq<Token>> {
    var rows := AlternateRowsFrom(x, distinct, ROWS);
    Drawn(rows.value + [Sgr([0])], rows.next)
  }

  // ---- The session -----------------------------------------------------------------------------------

  /** Whether a draw is below so many hundredths. */
  predicate Below(draw: nat, hundredths: nat) {
    draw * 100 < hundredths * SPAN
  }

  /** What an operation writes, and the box height it leaves. */
  datatype Piece = Piece(tokens: seq<Token>, after: nat)

  function BoxFrom(x: bv32, box: nat, distinct: int): Drawn<Piece> {
    if box == 0 then
      var height: nat := IntFrom(x, 3, 6).value;
      var lines := BoxLinesFrom(Step(x), distinct, height);
      Drawn(Piece(DrawTokens(lines.value), height), lines.next)
    else
      var lines := PlainLinesFrom(x, box);
      Drawn(Piece(RedrawTokens(lines.value), 0), lines.next)
  }

  function PlainOpFrom(x: bv32, draw: nat, box: nat, frame: nat, distinct: int): Drawn<Piece> {
    if Below(draw, 50) then
      var lines := if Below(draw, 30) then HunkFrom(x, distinct) else ProseFrom(x, distinct);
      Drawn(Piece(lines.value, box), lines.next)
    else if Below(draw, 70) then BoxFrom(x, box, distinct)
    else
      var tokens := if Below(draw, 85) then SpinnerFrom(x, frame, distinct) else ColouredProseFrom(x, distinct);
      Drawn(Piece(tokens.value, box), tokens.next)
  }

  /** The finished frames, the frame being written, the box height and the generator's state. */
  datatype Writing = Writing(out: seq<seq<Token>>, s: seq<Token>, box: nat, next: bv32)

  function OpFrom(w: Writing, frame: nat, distinct: int): Writing {
    var draw := Number(Step(w.next));
    if Below(draw, 97) then
      var op := PlainOpFrom(Step(w.next), draw, w.box, frame, distinct);
      Writing(w.out, w.s + op.value.tokens, op.value.after, op.next)
    else
      var inner := AlternateScreenFrom(Step(w.next), distinct);
      Writing(w.out + [w.s + [AltScreen] + inner.value], [MainScreen], w.box, inner.next)
  }

  function OpsFrom(w: Writing, frame: nat, distinct: int, n: nat): Writing {
    if n == 0 then w else OpFrom(OpsFrom(w, frame, distinct, n - 1), frame, distinct)
  }

  function FrameFrom(w: Writing, frame: nat, opsMax: int, distinct: int): Writing {
    var count := IntFrom(w.next, 1, opsMax);
    var written := OpsFrom(Writing(w.out, [], w.box, count.next), frame, distinct,
        if count.value < 0 then 0 else count.value);
    Writing(written.out + [written.s], [], written.box, written.next)
  }

  /** The texts of the tail. */
  function TailFrom(x: bv32): (d: Drawn<Tail>) {
    var plain := ExactWordsFrom(x, 5);
    var plainer := ExactWordsFrom(plain.next, 5);
    var red := ExactWordsFrom(plainer.next, 5);
    var green := ExactWordsFrom(red.next, 5);
    Drawn(Tail("plain " + plain.value, "plain " + plainer.value, red.value, green.value), green.next)
  }

  function SessionFrom(seed: int, frames: nat, opsMax: int, distinct: int): Writing {
    if frames == 0 then Writing([], [], 0, Start(seed))
    else FrameFrom(SessionFrom(seed, frames - 1, opsMax, distinct), frames - 1, opsMax, distinct)
  }
}
