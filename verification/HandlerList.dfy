/** The one reading of the `generate_handler![..]` list: which command names it registers. */
module HandlerList {
  import opened Options
  import opened Collections
  import opened Text

  const MARKER := "generate_handler!["
  const CLOSE := "])"

  datatype Panic = NoMarker | NotClosed | Unreadable(entry: string) | NoCommands

  datatype Result = Commands(names: seq<string>) | Stopped(panic: Panic)

  /** Unicode's White_Space. */
  predicate White(c: char) {
    || '\t' <= c <= '\r' || c == ' ' || c == '\U{85}' || c == '\U{A0}' || c == '\U{1680}'
        || '\U{2000}' <= c <= '\U{200A}'
    || c == '\U{2028}' || c == '\U{2029}' || c == '\U{202F}' || c == '\U{205F}' || c == '\U{3000}'
  }

  predicate NameChar(c: char) {
    '0' <= c <= '9' || 'A' <= c <= 'Z' || 'a' <= c <= 'z' || c == '_'
  }

  predicate Readable(name: string) {
    forall i :: 0 <= i < |name| ==> NameChar(name[i])
  }

  /** The lines of a text: no last empty line, and no carriage return before a line feed. */
  function Lines(s: string): seq<string> {
    var parts := Split(s, '\n');
    var last := parts[|parts| - 1];
    StripReturns(parts[..|parts| - 1]) + if last == "" then [] else [last]
  }

  function StripReturns(lines: seq<string>): seq<string> {
    if lines == [] then [] else [StripReturn(lines[0])] + StripReturns(lines[1..])
  }

  function StripReturn(line: string): string {
    if line != "" && line[|line| - 1] == '\r' then line[..|line| - 1] else line
  }

  /** What stands before a `//`. */
  function CodeOf(line: string): string {
    match Find(line, "//")
    case None => line
    case Some(at) => line[..at]
  }

  /** Where `::` occurs last. */
  function LastPath(s: string): (at: Option<nat>)
    ensures at.Some? ==> at.value + 2 <= |s|
    decreases |s|
  {
    if |s| < 2 then None
    else if s[|s| - 2] == ':' && s[|s| - 1] == ':' then Some(|s| - 2)
    else LastPath(s[..|s| - 1])
  }

  /** What stands after the last `::`. */
  function AfterPath(s: string): string {
    match LastPath(s)
    case None => s
    case Some(at) => s[at + 2..]
  }

  function NameOf(entry: string): string {
    Trim(White, AfterPath(Trim(White, entry)))
  }

  // ---- The specification ------------------------------------------------------------------------

  /** The entries of the list, in source order. */
  function EntriesOf(lines: seq<string>): seq<string> {
    if lines == [] then [] else Split(CodeOf(lines[0]), ',') + EntriesOf(lines[1..])
  }

  /** The nonempty names up to the first entry that cannot be read, if there is one. */
  datatype Scanned = Scanned(names: seq<string>, unreadable: Option<string>)

  function NamesOf(entries: seq<string>): Scanned {
    if entries == [] then Scanned([], None)
    else
      var name := NameOf(entries[0]);
      if name == "" then NamesOf(entries[1..])
      else if !Readable(name) then Scanned([], Some(entries[0]))
      else
        var rest := NamesOf(entries[1..]);
        Scanned([name] + rest.names, rest.unreadable)
  }

  /** Each name at its first place only. */
  function FirstPlaces(names: seq<string>): seq<string> {
    if names == [] then []
    else
      var rest := FirstPlaces(names[..|names| - 1]);
      if names[|names| - 1] in rest then rest else rest + [names[|names| - 1]]
  }

  /** What the list of a source file registers. */
  function Registered(source: string): Result {
    match Find(source, MARKER)
    case None => Stopped(NoMarker)
    case Some(start) =>
      var rest := source[start + |MARKER|..];
      match Find(rest, CLOSE)
      case None => Stopped(NotClosed)
      case Some(end) =>
        var scanned := NamesOf(EntriesOf(Lines(rest[..end])));
        if scanned.unreadable.Some? then Stopped(Unreadable(scanned.unreadable.value))
        else if scanned.names == [] then Stopped(NoCommands)
        else Commands(FirstPlaces(scanned.names))
  }

  // ---- What the specification means -----------------------------------------------------------------

  /** The result lists exactly the names read, once each, in the order they first appear. */
  lemma {:induction false} FirstPlacesKeepOrder(names: seq<string>)
    ensures forall x :: x in FirstPlaces(names) <==> x in names
    ensures NoRepeats(FirstPlaces(names))
    ensures forall i, j :: 0 <= i < j < |FirstPlaces(names)| ==>
              FirstAt(names, FirstPlaces(names)[i]) < FirstAt(names, FirstPlaces(names)[j])
  {
    if names != [] {
      var init, last := names[..|names| - 1], names[|names| - 1];
      FirstPlacesKeepOrder(init);
      assert names == init + [last];
      forall x | x in init
          ensures FirstAt(names, x) == FirstAt(init, x) && FirstAt(init, x) < |init| { FirstAtGrows(init, last, x); }
      if last !in init { FirstAtNew(init, last); }
    }
  }

  function FirstAt(names: seq<string>, x: string): nat {
    if names == [] || names[0] == x then 0 else 1 + FirstAt(names[1..], x)
  }

  lemma {:induction false} FirstAtGrows(names: seq<string>, last: string, x: string)
    requires x in names
    ensures FirstAt(names + [last], x) == FirstAt(names, x) < |names|
  {
    if names[0] != x {
      assert (names + [last])[1..] == names[1..] + [last];
      FirstAtGrows(names[1..], last, x);
    }
  }

  lemma {:induction false} FirstAtNew(names: seq<string>, last: string)
    requires last !in names
    ensures FirstAt(names + [last], last) == |names|
  {
    if names != [] {
      assert (names + [last])[1..] == names[1..] + [last];
      FirstAtNew(names[1..], last);
    }
  }

  lemma {:induction false} DistinctStays(names: seq<string>)
    requires NoRepeats(names)
    ensures FirstPlaces(names) == names
  {
    if names != [] {
      DistinctStays(names[..|names| - 1]);
      assert names == names[..|names| - 1] + [names[|names| - 1]];
      assert names[|names| - 1] !in names[..|names| - 1];
    }
  }

  // ---- The program -------------------------------------------------------------------------------------

  lemma {:induction false} NamesAppend(a: seq<string>, b: seq<string>)
    ensures NamesOf(a + b) == if NamesOf(a).unreadable.Some? then NamesOf(a)
                              else Scanned(NamesOf(a).names + NamesOf(b).names, NamesOf(b).unreadable)
  {
    hide NameOf, Readable;
    if a == [] {
      assert a + b == b;
    } else {
      assert (a + b)[1..] == a[1..] + b;
      NamesAppend(a[1..], b);
    }
  }

  lemma {:induction false} EntriesAppend(a: seq<string>, b: seq<string>)
    ensures EntriesOf(a + b) == EntriesOf(a) + EntriesOf(b)
  {
    hide CodeOf;
    if a == [] {
      assert a + b == b;
    } else {
      assert (a + b)[1..] == a[1..] + b;
      EntriesAppend(a[1..], b);
    }
  }

  lemma FirstPlacesGrow(names: seq<string>, name: string)
    ensures FirstPlaces(names + [name])
              == if name in FirstPlaces(names) then FirstPlaces(names) else FirstPlaces(names) + [name]
  {
    assert (names + [name])[..|names + [name]| - 1] == names;
  }

  lemma OneName(entry: string)
    ensures NamesOf([entry]) == if NameOf(entry) == "" then Scanned([], None)
                                else if !Readable(NameOf(entry)) then Scanned([], Some(entry))
                                else Scanned([NameOf(entry)], None)
  {
    hide NameOf, Readable;
    assert [entry][1..] == [];
  }

  /** The reader: line by line, each entry reduced to its name and kept the first time it is met. */
  method HandlerCommands(source: string) returns (r: Result)
    ensures r == Registered(source)
  {
    hide NameOf, Readable, Lines, CodeOf, Find, Split;
    var start := Find(source, MARKER);
    if start.None? { return Stopped(NoMarker); }
    var rest := source[start.value + |MARKER|..];
    var end := Find(rest, CLOSE);
    if end.None? { return Stopped(NotClosed); }
    var lines := Lines(rest[..end.value]);
    ghost var all := EntriesOf(lines);
    ghost var seen: seq<string> := [];
    var out: seq<string> := [];
    for l := 0 to |lines|
      invariant seen == EntriesOf(lines[..l])
      invariant NamesOf(seen).unreadable.None? && out == FirstPlaces(NamesOf(seen).names)
    {
      var entries := Split(CodeOf(lines[l]), ',');
      ghost var before := seen;
      for e := 0 to |entries|
        invariant seen == before + entries[..e]
        invariant NamesOf(seen).unreadable.None? && out == FirstPlaces(NamesOf(seen).names)
      {
        var name := NameOf(entries[e]);
        NamesAppend(seen, [entries[e]]);
        OneName(entries[e]);
        assert before + entries[..e + 1] == seen + [entries[e]];
        if name == "" {
          assert NamesOf(seen).names + [] == NamesOf(seen).names;
          seen := seen + [entries[e]];
          continue;
        }
        if !Readable(name) {
          UnreadableEnds(lines, l, entries, e, before);
          return Stopped(Unreadable(entries[e]));
        }
        FirstPlacesGrow(NamesOf(seen).names, name);
        if name !in out { out := out + [name]; }
        seen := seen + [entries[e]];
      }
      assert entries[..|entries|] == entries;
      EntriesOfOneMore(lines, l);
    }
    assert lines[..|lines|] == lines;
    NoneOnlyFromNone(NamesOf(seen).names);
    if out == [] { return Stopped(NoCommands); }
    return Commands(out);
  }

  lemma EntriesOfOneMore(lines: seq<string>, l: nat)
    requires l < |lines|
    ensures EntriesOf(lines[..l + 1]) == EntriesOf(lines[..l]) + Split(CodeOf(lines[l]), ',')
  {
    hide CodeOf;
    assert lines[..l + 1] == lines[..l] + [lines[l]];
    EntriesAppend(lines[..l], [lines[l]]);
    assert [lines[l]][1..] == [];
  }

  lemma NoneOnlyFromNone(names: seq<string>)
    ensures FirstPlaces(names) == [] <==> names == []
  {
    FirstPlacesKeepOrder(names);
    if names != [] { assert names[0] in FirstPlaces(names); }
  }

  /** An entry that cannot be read decides the whole list. */
  lemma UnreadableEnds(lines: seq<string>, l: nat, entries: seq<string>, e: nat, before: seq<string>)
    requires l < |lines| && entries == Split(CodeOf(lines[l]), ',') && e < |entries| && before == EntriesOf(lines[..l])
    requires NamesOf(before + entries[..e]).unreadable.None?
    requires NameOf(entries[e]) != "" && !Readable(NameOf(entries[e]))
    ensures NamesOf(EntriesOf(lines)).unreadable == Some(entries[e])
  {
    hide NameOf, Readable, CodeOf, NamesOf, EntriesOf, Split;
    var upto := before + entries[..e];
    EntriesOfOneMore(lines, l);
    EntriesAppend(lines[..l + 1], lines[l + 1..]);
    assert lines == lines[..l + 1] + lines[l + 1..];
    var rest := EntriesOf(lines[l + 1..]);
    AroundEntry(before, entries, e, rest);
    UnreadableAmong(upto, entries[e], entries[e + 1..] + rest);
  }

  lemma AroundEntry(before: seq<string>, entries: seq<string>, e: nat, rest: seq<string>)
    requires e < |entries|
    ensures (before + entries) + rest == ((before + entries[..e]) + [entries[e]]) + (entries[e + 1..] + rest)
  {
    assert entries == entries[..e] + [entries[e]] + entries[e + 1..];
  }

  lemma UnreadableAmong(upto: seq<string>, entry: string, later: seq<string>)
    requires NamesOf(upto).unreadable.None? && NameOf(entry) != "" && !Readable(NameOf(entry))
    ensures NamesOf((upto + [entry]) + later).unreadable == Some(entry)
  {
    OneName(entry);
    hide NameOf, Readable, NamesOf;
    NamesAppend(upto, [entry]);
    NamesAppend(upto + [entry], later);
  }

  // ---- Lists as they are written ---------------------------------------------------------------------

  /** One entry as written: nothing but space, or a name behind an optional path. */
  datatype Item = Blank(space: string) | Entry(before: string, path: string, name: string, after: string)

  /** One line as written: entries with commas between them and an optional comment. */
  datatype Line = Line(items: seq<Item>, comment: Option<string>, carriageReturn: bool)

  /** The code points of Unicode's white space. */
  predicate Blanks(n: int) {
    || 9 <= n <= 13 || n == 32 || n == 133 || n == 160 || n == 5760 || 8192 <= n <= 8202
    || n == 8232 || n == 8233 || n == 8239 || n == 8287 || n == 12288
  }

  /** White space that does not end a line. */
  predicate Space(s: string) {
    forall c <- s :: Blanks(c as int) && c != '\n' && c != '\r'
  }

  /** What can stand as one name, readable or not: no white space and none of the marks around names. */
  predicate Dark(name: string) {
    forall c <- name :: !Blanks(c as int) && c != ':' && c != ',' && c != '/' && c != ']'
  }

  /** The names a manifest can hold: ASCII digits, capitals, underscores and small letters. */
  predicate IsName(name: string) {
    forall c <- name :: var n := c as int; 48 <= n <= 57 || 65 <= n <= 90 || n == 95 || 97 <= n <= 122
  }

  lemma NamesAreReadable(name: string)
    ensures IsName(name) <==> Readable(name)
  {
    if IsName(name) { assert forall i :: 0 <= i < |name| ==> name[i] in name; }
  }

  /** Any text ending in `::` without a comma, a slash, a line end or a closing bracket. */
  predicate Path(p: string) {
    || p == ""
    || (&& |p| >= 2 && p[|p| - 2..] == "::"
        && forall c <- p :: c != ',' && c != '/' && c != '\n' && c != '\r' && c != ']')
  }

  predicate GoodItem(item: Item) {
    match item
    case Blank(space) => Space(space)
    case Entry(before, path, name, after) => Space(before) && Path(path) && name != "" && Dark(name) && Space(after)
  }

  /** A comment holds anything but a line end and the closing of the list. */
  predicate GoodComment(c: string) {
    '\n' !in c && forall i :: 0 <= i < |c| - 1 ==> !(c[i] == ']' && c[i + 1] == ')')
  }

  predicate GoodLine(l: Line) {
    l.items != [] && (forall item <- l.items :: GoodItem(item)) && (l.comment.Some? ==> GoodComment(l.comment.value))
  }

  function ItemText(item: Item): string {
    match item
    case Blank(space) => space
    case Entry(before, path, name, after) => before + path + name + after
  }

  function ItemTexts(items: seq<Item>): (texts: seq<string>)
    ensures |texts| == |items| && forall i :: 0 <= i < |items| ==> texts[i] == ItemText(items[i])
  {
    if items == [] then [] else [ItemText(items[0])] + ItemTexts(items[1..])
  }

  function CodeText(l: Line): string {
    Join(ItemTexts(l.items), ',')
  }

  function LineText(l: Line): string {
    CodeText(l) + if l.comment.Some? then "//" + l.comment.value else ""
  }

  /** The body of a list: finished lines, and a last one right before the closing. */
  function BodyText(lines: seq<Line>, last: Line): string {
    if lines == [] then LineText(last)
    else LineText(lines[0]) + (if lines[0].carriageReturn then "\r" else "") + "\n" + BodyText(lines[1..], last)
  }

  function ItemNames(items: seq<Item>): seq<string> {
    if items == [] then [] else (if items[0].Entry? then [items[0].name] else []) + ItemNames(items[1..])
  }

  /** The entries of a list, in the order they are written. */
  function AllItems(lines: seq<Line>, last: Line): seq<Item> {
    if lines == [] then last.items else lines[0].items + AllItems(lines[1..], last)
  }

  /** Every name is one a manifest can hold. */
  predicate AllNames(items: seq<Item>) {
    forall item <- items :: item.Entry? ==> IsName(item.name)
  }

  // Reading one entry back.

  lemma {:induction false} TrimStartKeeps(x: string, y: string)
    requires y != "" && !White(y[0])
    ensures TrimStart(White, x + y) == TrimStart(White, x) + y
  {
    if x == "" {
      assert x + y == y;
    } else {
      assert (x + y)[1..] == x[1..] + y;
      TrimStartKeeps(x[1..], y);
    }
  }

  lemma {:induction false} TrimStartAll(x: string)
    requires forall c <- x :: White(c)
    ensures TrimStart(White, x) == ""
  {
    if x != "" { TrimStartAll(x[1..]); }
  }

  lemma {:induction false} TrimEndDrops(x: string, y: string)
    requires x == "" || !White(x[|x| - 1])
    requires forall c <- y :: White(c)
    ensures TrimEnd(White, x + y) == x
  {
    if y == "" {
      assert x + y == x;
    } else {
      assert (x + y)[..|x + y| - 1] == x + y[..|y| - 1];
      assert y[|y| - 1] in y;
      TrimEndDrops(x, y[..|y| - 1]);
    }
  }

  lemma NamesAreDark(name: string)
    requires Dark(name)
    ensures forall c <- name :: !White(c) && c != ':' && c != ',' && c != '/' && c != '\n' && c != '\r' && c != ']'
  {}

  lemma EndsDark(s: string)
    requires s != "" && s[|s| - 1] != ':'
    ensures LastPath(s) == LastPath(s[..|s| - 1])
  {
  }

  lemma {:induction false} AfterPathOf(q: string, name: string)
    requires ':' !in name
    ensures AfterPath(q + "::" + name) == name
    ensures LastPath(q + "::" + name) == Some(|q|)
  {
    var s := q + "::" + name;
    if name != "" {
      var last := name[|name| - 1];
      assert s[..|s| - 1] == q + "::" + name[..|name| - 1];
      assert s[|s| - 1] == last && last in name;
      AfterPathOf(q, name[..|name| - 1]);
      hide LastPath;
      EndsDark(s);
    }
    assert s[|q| + 2..] == name;
  }

  lemma {:induction false} NoPath(name: string)
    requires ':' !in name
    ensures AfterPath(name) == name
    ensures LastPath(name).None?
  {
    if |name| >= 2 {
      assert name[|name| - 1] in name;
      NoPath(name[..|name| - 1]);
    }
  }

  lemma TrimName(name: string)
    requires Dark(name)
    ensures Trim(White, name) == name
  {
    NamesAreDark(name);
    if name != "" {
      assert name[0] in name && name[|name| - 1] in name;
    }
  }

  lemma SpaceIsWhite(s: string)
    requires Space(s)
    ensures forall c <- s :: White(c)
  {}

  lemma EntryReadsBack(item: Item)
    requires GoodItem(item)
    ensures NameOf(ItemText(item)) == if item.Entry? then item.name else ""
  {
    match item
    case Blank(space) =>
      SpaceIsWhite(space);
      TrimStartAll(space);
      NoPath("");
    case Entry(before, path, name, after) =>
      NamesAreDark(name);
      assert name[|name| - 1] in name && name[0] in name;
      SpaceIsWhite(before);
      SpaceIsWhite(after);
      TrimName(name);
      hide White, Dark, Space, NameOf;
      if path == "" {
        assert ItemText(item) == before + (name + after);
        PlainNameReadsBack(before, name, after);
      } else {
        assert path == path[..|path| - 2] + "::";
        assert ItemText(item) == (before + path[..|path| - 2]) + ("::" + name + after);
        PathReadsBack(before + path[..|path| - 2], name, after);
      }
  }

  lemma PlainNameReadsBack(before: string, name: string, after: string)
    requires name != "" && !White(name[0]) && !White(name[|name| - 1]) && ':' !in name
    requires (forall c <- before :: White(c)) && forall c <- after :: White(c)
    requires Trim(White, name) == name
    ensures NameOf(before + (name + after)) == name
  {
    hide White;
    TrimStartAll(before);
    TrimStartKeeps(before, name + after);
    assert TrimStart(White, before) + (name + after) == name + after;
    TrimEndDrops(name, after);
    NoPath(name);
  }

  lemma PathReadsBack(before: string, name: string, after: string)
    requires name != "" && !White(name[|name| - 1]) && ':' !in name
    requires (forall c <- after :: White(c)) && Trim(White, name) == name
    ensures NameOf(before + ("::" + name + after)) == name
  {
    ColonIsDark();
    hide White;
    var q := TrimStart(White, before);
    TrimStartKeeps(before, "::" + name + after);
    assert q + ("::" + name + after) == (q + "::" + name) + after;
    TrimEndDrops(q + "::" + name, after);
    AfterPathOf(q, name);
  }

  lemma ColonIsDark()
    ensures !White(':')
  {}

  lemma {:induction false} ItemsReadBack(items: seq<Item>)
    requires (forall item <- items :: GoodItem(item)) && AllNames(items)
    ensures NamesOf(ItemTexts(items)) == Scanned(ItemNames(items), None)
  {
    hide NameOf, Readable, IsName;
    if items != [] {
      assert items[0] in items;
      EntryReadsBack(items[0]);
      if items[0].Entry? { NamesAreReadable(items[0].name); }
      ItemsReadBack(items[1..]);
      assert ItemTexts(items)[1..] == ItemTexts(items[1..]);
    }
  }

  lemma GoodAt(items: seq<Item>, k: nat)
    requires (forall item <- items :: GoodItem(item)) && k < |items|
    ensures GoodItem(items[k]) && (items[k].Entry? ==> items[k].name != "")
  {
    assert items[k] in items;
  }

  lemma TextsAround(before: seq<Item>, item: Item, after: seq<Item>)
    ensures ItemTexts((before + [item]) + after) == (ItemTexts(before) + [ItemText(item)]) + ItemTexts(after)
  {
    hide *;
    TextsAppend(before, [item]);
    TextsAppend(before + [item], after);
    OneText(item);
  }

  lemma OneText(item: Item)
    ensures ItemTexts([item]) == [ItemText(item)]
  {
  }

  lemma Around<T>(items: seq<T>, k: nat)
    requires k < |items|
    ensures items == (items[..k] + [items[k]]) + items[k + 1..]
  {
  }

  lemma TextsAppend(first: seq<Item>, second: seq<Item>)
    ensures ItemTexts(first + second) == ItemTexts(first) + ItemTexts(second)
  {
    hide ItemText;
  }

  /** The first entry whose name no manifest can hold ends the reading. */
  lemma ItemsStop(items: seq<Item>, k: nat)
    requires (forall item <- items :: GoodItem(item)) && k < |items|
    requires AllNames(items[..k]) && items[k].Entry? && !IsName(items[k].name)
    ensures NamesOf(ItemTexts(items)).unreadable == Some(ItemText(items[k]))
  {
    hide *;
    GoodAt(items, k);
    EntryReadsBack(items[k]);
    NamesAreReadable(items[k].name);
    ItemsReadBack(items[..k]);
    UnreadableAmong(ItemTexts(items[..k]), ItemText(items[k]), ItemTexts(items[k + 1..]));
    TextsAround(items[..k], items[k], items[k + 1..]);
    Around(items, k);
  }

  // Reading one line back.

  lemma GoodItemChars(item: Item)
    requires GoodItem(item)
    ensures forall c <- ItemText(item) :: c != ',' && c != '/' && c != '\n' && c != '\r' && c != ']'
  {
    match item
    case Blank(space) => SpaceChars(space);
    case Entry(before, path, name, after) =>
      SpaceChars(before);
      SpaceChars(after);
      NamesAreDark(name);
  }

  lemma SpaceChars(s: string)
    requires Space(s)
    ensures forall c <- s :: c != ',' && c != '/' && c != '\n' && c != '\r' && c != ']'
  {}

  lemma {:induction false} JoinChars(parts: seq<string>, c: char, d: char)
    requires d != c && forall p <- parts :: d !in p
    ensures d !in Join(parts, c)
  {
    if |parts| > 1 { JoinChars(parts[1..], c, d); }
  }

  lemma CodeChars(l: Line)
    requires GoodLine(l)
    ensures forall p <- ItemTexts(l.items) :: ',' !in p
    ensures '/' !in CodeText(l) && '\n' !in CodeText(l) && '\r' !in CodeText(l) && ']' !in CodeText(l)
  {
    hide GoodItem, ItemText;
    var texts := ItemTexts(l.items);
    forall p <- texts ensures ',' !in p && '/' !in p && '\n' !in p && '\r' !in p && ']' !in p {
      var i :| 0 <= i < |texts| && texts[i] == p;
      assert l.items[i] in l.items;
      GoodItemChars(l.items[i]);
    }
    JoinChars(texts, ',', '/');
    JoinChars(texts, ',', '\n');
    JoinChars(texts, ',', '\r');
    JoinChars(texts, ',', ']');
  }

  lemma FindIs(s: string, needle: string, at: nat)
    requires at <= |s| && StartsWith(s[at..], needle)
    requires forall i: nat :: i < at ==> !StartsWith(s[i..], needle)
    ensures Find(s, needle) == Some(at)
  {}

  lemma FindNone(s: string, needle: string)
    requires forall i: nat :: i <= |s| ==> !StartsWith(s[i..], needle)
    ensures Find(s, needle).None?
  {}

  lemma CodeReadsBack(code: string, comment: Option<string>)
    requires '/' !in code
    ensures CodeOf(code + if comment.Some? then "//" + comment.value else "") == code
  {
    var line := code + if comment.Some? then "//" + comment.value else "";
    forall i: nat | i < |code| ensures !StartsWith(line[i..], "//") {
      assert line[i..][0] == code[i] && code[i] in code;
    }
    if comment.Some? {
      FindIs(line, "//", |code|);
    } else {
      assert line == code;
      FindNone(code, "//");
    }
  }

  /** A finished line reads as its entries, whichever way it ends. */
  lemma LineReadsBack(l: Line, text: string)
    requires GoodLine(l)
               && (text == LineText(l) || text == StripReturn(LineText(l) + if l.carriageReturn then "\r" else ""))
    ensures CodeOf(text) == CodeText(l)
    ensures Split(CodeOf(text), ',') == ItemTexts(l.items)
  {
    CodeChars(l);
    var code := CodeText(l);
    SplitJoin(ItemTexts(l.items), ',');
    hide GoodItem, CodeText, ItemTexts, Join, Split, CodeOf;
    hide LineText, GoodLine, StripReturn;
    var comment := LineWithoutReturn(l, text);
    CodeReadsBack(code, comment);
  }

  /** A line without its carriage return is its code and a comment, the return having been the comment's. */
  lemma LineWithoutReturn(l: Line, text: string) returns (comment: Option<string>)
    requires GoodLine(l)
               && (text == LineText(l) || text == StripReturn(LineText(l) + if l.carriageReturn then "\r" else ""))
    ensures text == CodeText(l) + if comment.Some? then "//" + comment.value else ""
  {
    CodeChars(l);
    hide GoodItem, CodeText, ItemTexts;
    comment := l.comment;
    if text != LineText(l) {
      assert !l.carriageReturn && LineText(l)[|LineText(l)| - 1] == '\r';
      if l.comment.None? || l.comment.value == "" {
        assert false;
      }
      var c := l.comment.value;
      assert text == CodeText(l) + ("//" + c[..|c| - 1]);
      comment := Some(c[..|c| - 1]);
    }
  }

  // Reading the whole list back.

  lemma {:induction false} BodyLines(lines: seq<Line>, last: Line)
    requires GoodLine(last) && forall l <- lines :: GoodLine(l)
    ensures NamesOf(EntriesOf(Lines(BodyText(lines, last)))) == NamesOf(ItemTexts(AllItems(lines, last)))
  {
    hide GoodLine, NamesOf, EntriesOf, LineText, Lines, StripReturn, ItemTexts, CodeOf, Split;
    if lines == [] {
      LastLine(last);
    } else {
      assert lines[0] in lines;
      BodyLines(lines[1..], last);
      FirstLine(lines[0], BodyText(lines[1..], last));
      var text := StripReturn(LineText(lines[0]) + if lines[0].carriageReturn then "\r" else "");
      var rest := Lines(BodyText(lines[1..], last));
      LineReadsBack(lines[0], text);
      EntriesOfLine(text, rest);
      NamesAppend(ItemTexts(lines[0].items), EntriesOf(rest));
      var later := AllItems(lines[1..], last);
      NamesAppend(ItemTexts(lines[0].items), ItemTexts(later));
      TextsAppend(lines[0].items, later);
    }
  }

  lemma {:induction false} ItemsAreGood(lines: seq<Line>, last: Line)
    requires GoodLine(last) && forall l <- lines :: GoodLine(l)
    ensures forall item <- AllItems(lines, last) :: GoodItem(item)
  {
    hide GoodItem, GoodComment;
    if lines != [] {
      assert GoodLine(lines[0]);
      ItemsAreGood(lines[1..], last);
    }
  }

  lemma EntriesOfLine(text: string, rest: seq<string>)
    ensures EntriesOf([text] + rest) == Split(CodeOf(text), ',') + EntriesOf(rest)
  {
    hide CodeOf;
    assert ([text] + rest)[1..] == rest;
  }

  lemma LineIsOneLine(l: Line)
    requires GoodLine(l)
    ensures '\n' !in LineText(l)
  {
    CodeChars(l);
  }

  /** Splitting off a finished line. */
  lemma FirstLine(l: Line, body: string)
    requires GoodLine(l)
    ensures Lines(LineText(l) + (if l.carriageReturn then "\r" else "") + "\n" + body)
         == [StripReturn(LineText(l) + if l.carriageReturn then "\r" else "")] + Lines(body)
  {
    hide GoodLine, LineText;
    LineIsOneLine(l);
    var text := LineText(l) + if l.carriageReturn then "\r" else "";
    var parts := Split(body, '\n');
    SplitPrefix(text, '\n', body);
    assert text + "\n" + body == text + ['\n'] + body;
    var all := [text] + parts;
    assert all[..|all| - 1] == [text] + parts[..|parts| - 1];
    assert ([text] + parts[..|parts| - 1])[1..] == parts[..|parts| - 1];
  }

  /** The last line, which an empty text leaves out. */
  lemma LastLine(l: Line)
    requires GoodLine(l)
    ensures NamesOf(EntriesOf(Lines(LineText(l)))) == NamesOf(ItemTexts(l.items))
  {
    var text := LineText(l);
    LineIsOneLine(l);
    LineReadsBack(l, text);
    hide GoodLine, LineText, NamesOf, CodeOf, ItemTexts, ItemNames;
    SplitWhole(text, '\n');
    EntriesOfLine(text, []);
    assert [text] + [] == [text] && ItemTexts(l.items) + [] == ItemTexts(l.items);
    assert EntriesOf([text]) == ItemTexts(l.items);
    if text == "" {
      EmptyLine();
      assert EntriesOf(Lines(text)) == [];
      assert ItemTexts(l.items) == [""];
    } else {
      assert Lines(text) == [text];
    }
  }

  lemma EmptyLine()
    ensures CodeOf("") == "" && Split("", ',') == [""] && NamesOf([""]) == NamesOf([]) == Scanned([], None)
  {
    OneName("");
    NoPath("");
  }

  predicate Closes(s: string, i: nat) {
    i + 1 < |s| && s[i] == ']' && s[i + 1] == ')'
  }

  lemma LineDoesNotClose(l: Line, i: nat)
    requires GoodLine(l)
    ensures !Closes(LineText(l), i)
  {
    CodeChars(l);
    var code := CodeText(l);
    if i < |code| {
      assert LineText(l)[i] == code[i] && code[i] in code;
    }
  }

  lemma {:induction false} BodyDoesNotClose(lines: seq<Line>, last: Line, i: nat)
    requires GoodLine(last) && forall l <- lines :: GoodLine(l)
    ensures !Closes(BodyText(lines, last), i)
  {
    hide GoodLine, LineText;
    if lines == [] {
      LineDoesNotClose(last, i);
    } else {
      assert lines[0] in lines;
      var text := LineText(lines[0]);
      var end := (if lines[0].carriageReturn then "\r" else "") + "\n";
      var rest := BodyText(lines[1..], last);
      assert BodyText(lines, last) == text + end + rest;
      if i < |text| {
        LineDoesNotClose(lines[0], i);
      } else if i >= |text| + |end| {
        BodyDoesNotClose(lines[1..], last, i - |text| - |end|);
      }
    }
  }

  lemma RegisteredIs(source: string, start: nat, rest: string, end: nat, scanned: Scanned)
    requires Find(source, MARKER) == Some(start) && source[start + |MARKER|..] == rest
    requires Find(rest, CLOSE) == Some(end)
    requires NamesOf(EntriesOf(Lines(rest[..end]))) == scanned
    ensures Registered(source) == if scanned.unreadable.Some? then Stopped(Unreadable(scanned.unreadable.value))
                                  else if scanned.names == [] then Stopped(NoCommands)
                                  else Commands(FirstPlaces(scanned.names))
  {
    hide NamesOf, EntriesOf, Lines, FirstPlaces, Find;
  }

  lemma FindAfter(before: string, needle: string, rest: string)
    requires forall i: nat :: i < |before| ==> !StartsWith((before + needle + rest)[i..], needle)
    ensures Find(before + needle + rest, needle) == Some(|before|)
    ensures (before + needle + rest)[|before| + |needle|..] == rest
  {
    assert (before + needle + rest)[|before|..] == needle + rest;
    FindIs(before + needle + rest, needle, |before|);
  }

  lemma BodyFound(lines: seq<Line>, last: Line, after: string)
    requires GoodLine(last) && forall l <- lines :: GoodLine(l)
    ensures Find(BodyText(lines, last) + CLOSE + after, CLOSE) == Some(|BodyText(lines, last)|)
    ensures (BodyText(lines, last) + CLOSE + after)[..|BodyText(lines, last)|] == BodyText(lines, last)
  {
    hide GoodLine, BodyText;
    var body := BodyText(lines, last);
    var rest := body + CLOSE + after;
    forall i: nat | i < |body| ensures !StartsWith(rest[i..], CLOSE) {
      BodyDoesNotClose(lines, last, i);
      assert rest[i..][0] == body[i] && rest[i..][1] == rest[i + 1];
    }
    FindAfter(body, CLOSE, after);
  }

  /** A source file with a list between its first marker and the list's end. */
  function SourceText(before: string, lines: seq<Line>, last: Line, after: string): string {
    before + "generate_handler![" + (BodyText(lines, last) + "])" + after)
  }

  ghost predicate GoodSource(before: string, lines: seq<Line>, last: Line, after: string) {
    && GoodLine(last) && (forall l <- lines :: GoodLine(l))
    && forall i: nat :: i < |before| ==> !StartsWith(SourceText(before, lines, last, after)[i..], "generate_handler![")
  }

  lemma ListScanned(before: string, lines: seq<Line>, last: Line, after: string)
    requires GoodSource(before, lines, last, after)
    ensures var scanned := NamesOf(ItemTexts(AllItems(lines, last)));
            Registered(SourceText(before, lines, last, after))
            == if scanned.unreadable.Some? then Stopped(Unreadable(scanned.unreadable.value))
               else if scanned.names == [] then Stopped(NoCommands)
               else Commands(FirstPlaces(scanned.names))
  {
    hide GoodLine, NamesOf, EntriesOf, Lines, BodyText, AllItems, Registered;
    var body, marker := BodyText(lines, last), MARKER;
    var rest := body + CLOSE + after;
    assert SourceText(before, lines, last, after) == before + marker + rest;
    FindAfter(before, marker, rest);
    BodyFound(lines, last, after);
    BodyLines(lines, last);
    RegisteredIs(before + marker + rest, |before|, rest, |body|, NamesOf(ItemTexts(AllItems(lines, last))));
  }

  /** Round trip: a list written with any paths, spaces, blank entries, line ends and comments reads
      back as its names at their first places; a list without repeats reads back as itself, and one without
      any name is refused. */
  lemma ListReadsBack(before: string, lines: seq<Line>, last: Line, after: string)
    requires GoodSource(before, lines, last, after) && AllNames(AllItems(lines, last))
    ensures var source, names := SourceText(before, lines, last, after), ItemNames(AllItems(lines, last));
            && (names != [] ==> Registered(source) == Commands(FirstPlaces(names)))
            && (names != [] && NoRepeats(names) ==> Registered(source) == Commands(names))
            && (names == [] ==> Registered(source) == Stopped(NoCommands))
  {
    hide GoodLine, NamesOf, BodyText, AllItems, ItemNames, Registered;
    var items := AllItems(lines, last);
    ListScanned(before, lines, last, after);
    ItemsAreGood(lines, last);
    ItemsReadBack(items);
    if NoRepeats(ItemNames(items)) { DistinctStays(ItemNames(items)); }
  }

  /** The first entry whose name holds anything but ASCII letters, digits and underscores stops the reading, and the
      whole entry is named as it is written. */
  lemma ListStops(before: string, lines: seq<Line>, last: Line, after: string, k: nat)
    requires GoodSource(before, lines, last, after) && k < |AllItems(lines, last)|
    requires var items := AllItems(lines, last); AllNames(items[..k]) && items[k].Entry? && !IsName(items[k].name)
    ensures Registered(SourceText(before, lines, last, after))
         == Stopped(Unreadable(ItemText(AllItems(lines, last)[k])))
  {
    hide GoodLine, NamesOf, BodyText, AllItems, Registered;
    ListScanned(before, lines, last, after);
    ItemsAreGood(lines, last);
    ItemsStop(AllItems(lines, last), k);
  }

  /** A file without a list is refused exactly when the marker does not occur, and a list without an end exactly
      when its end does not occur after the first marker. */
  lemma ListIsMissingExactlyWhen(source: string)
    ensures Registered(source) == Stopped(NoMarker)
            <==> forall at: nat :: at <= |source| ==> !StartsWith(source[at..], "generate_handler![")
    ensures forall start: nat ::
              && start <= |source| && StartsWith(source[start..], "generate_handler![")
              && (forall at: nat :: at < start ==> !StartsWith(source[at..], "generate_handler!["))
              ==> (Registered(source) == Stopped(NotClosed)
                   <==> forall at: nat :: start + 18 <= at <= |source| ==> !StartsWith(source[at..], "])"))
  {
    hide NamesOf, EntriesOf, Lines, FirstPlaces, StartsWith;
    forall start: nat |
      && start <= |source| && StartsWith(source[start..], "generate_handler![")
      && (forall at: nat :: at < start ==> !StartsWith(source[at..], "generate_handler!["))
      ensures Registered(source) == Stopped(NotClosed)
         <==> forall at: nat :: start + 18 <= at <= |source| ==> !StartsWith(source[at..], "])")
    {
      assert Find(source, MARKER) == Some(start);
      CloseIsMissing(source, start + 18);
    }
  }

  lemma CloseIsMissing(source: string, from: nat)
    requires from <= |source|
    ensures Find(source[from..], "])").None?
       <==> forall at: nat :: from <= at <= |source| ==> !StartsWith(source[at..], "])")
  {
    hide StartsWith;
    var rest := source[from..];
    assert forall i: nat :: i <= |rest| ==> rest[i..] == source[from + i..];
    if Find(rest, "])").None? {
      forall at: nat | from <= at <= |source| ensures !StartsWith(source[at..], "])") {
        assert rest[at - from..] == source[at..];
      }
    }
  }
}
