/** The fast-import stream of the history bench: its printer, and a reader that honours the byte
    counts of its `data` commands. A character stands for one byte. */
module FastImport {
  import opened Options
  import opened Decimal
  import opened Text

  datatype File = File(path: string, content: string)

  datatype Commit = Commit(index: nat, files: seq<File>)

  // ---- The printer ------------------------------------------------------------------------------

  function Message(index: nat): string {
    "commit " + Print(index) + "\n"
  }

  function Committer(index: nat): string {
    "Bench <bench@example.com> " + Print(1_700_000_000 + index * 60) + " +0000"
  }

  function DataText(bytes: string): string {
    "data " + Print(|bytes|) + "\n" + bytes
  }

  function FromText(from: Option<string>): string {
    if from.Some? then "from " + from.value + "\n" else ""
  }

  function FileText(f: File): string {
    "M 100644 inline " + f.path + "\n" + DataText(f.content) + "\n"
  }

  function FilesText(fs: seq<File>): string {
    if fs == [] then "" else FilesText(fs[..|fs| - 1]) + FileText(fs[|fs| - 1])
  }

  function HeadText(reference: string, index: nat): string {
    "commit " + reference + "\n" + "committer " + Committer(index) + "\n" + DataText(Message(index))
  }

  function CommitText(reference: string, from: Option<string>, c: Commit): string {
    HeadText(reference, c.index) + FromText(from) + FilesText(c.files) + "\n"
  }

  /** A whole stream. With `from`, the first commit is put on top of what that names. */
  function StreamText(reference: string, from: Option<string>, commits: seq<Commit>): string {
    if commits == [] then ""
    else
      StreamText(reference, from, commits[..|commits| - 1])
      + CommitText(reference, if |commits| == 1 then from else None, commits[|commits| - 1])
  }

  method Stream(reference: string, from: Option<string>, commits: seq<Commit>) returns (out: string)
    ensures out == StreamText(reference, from, commits)
  {
    hide HeadText, FileText, StreamText, FromText, FilesText;
    out := "";
    StreamNothing(reference, from);
    assert commits[..0] == [];
    for position := 0 to |commits|
      invariant out == StreamText(reference, from, commits[..position])
    {
      var commit := commits[position];
      ghost var before := out;
      out := out + HeadText(reference, commit.index);
      if position == 0 && from.Some? {
        out := out + ("from " + from.value + "\n");
      }
      ghost var from' := if position == 0 then from else None;
      ghost var head := out;
      assert head == before + HeadText(reference, commit.index) + FromText(from') by {
        FromParts(from');
        assert before + HeadText(reference, commit.index) + "" == before + HeadText(reference, commit.index);
      }
      FilesParts(commit.files, 0);
      assert head + "" == head && commit.files[..0] == [];
      for i := 0 to |commit.files|
        invariant out == head + FilesText(commit.files[..i])
      {
        FilesParts(commit.files, i);
        assert head + (FilesText(commit.files[..i]) + FileText(commit.files[i]))
            == head + FilesText(commit.files[..i]) + FileText(commit.files[i]);
        out := out + FileText(commit.files[i]);
      }
      out := out + "\n";
      assert commit.files[..|commit.files|] == commit.files;
      CommitParts(reference, from', commit, before, head);
      StreamTextGrows(reference, from, commits, position);
    }
    assert commits[..|commits|] == commits;
  }

  lemma FromParts(from: Option<string>)
    ensures FromText(from) == if from.None? then "" else "from " + from.value + "\n"
  {
  }

  lemma FilesParts(fs: seq<File>, i: nat)
    ensures FilesText([]) == ""
    ensures i < |fs| ==> FilesText(fs[..i + 1]) == FilesText(fs[..i]) + FileText(fs[i])
  {
    hide FileText;
    if i < |fs| { assert fs[..i + 1][..i] == fs[..i]; }
  }

  lemma CommitParts(reference: string, from: Option<string>, c: Commit, before: string, head: string)
    requires head == before + HeadText(reference, c.index) + FromText(from)
    ensures head + FilesText(c.files) + "\n" == before + CommitText(reference, from, c)
  {
    hide HeadText, FromText, FilesText;
    assert head == before + (HeadText(reference, c.index) + FromText(from));
  }

  lemma StreamNothing(reference: string, from: Option<string>)
    ensures StreamText(reference, from, []) == ""
  {
  }

  lemma StreamTextGrows(reference: string, from: Option<string>, commits: seq<Commit>, position: nat)
    requires position < |commits|
    ensures StreamText(reference, from, commits[..position + 1])
         == StreamText(reference, from, commits[..position])
            + CommitText(reference, if position == 0 then from else None, commits[position])
  {
    hide CommitText;
    assert commits[..position + 1][..position] == commits[..position];
  }

  // ---- The reader ----------------------------------------------------------------------------------

  datatype Command = Command(reference: string, committer: string, message: string, from: Option<string>,
      files: seq<File>)

  /** A value read off the front of a stream, and what is left. */
  datatype Read<T> = Read(value: T, rest: string)

  function ReadLine(s: string): (r: Option<Read<string>>)
    ensures r.Some? ==> |r.value.rest| < |s|
  {
    if s == [] then None
    else if s[0] == '\n' then Some(Read("", s[1..]))
    else
      match ReadLine(s[1..])
      case None => None
      case Some(Read(line, rest)) => Some(Read([s[0]] + line, rest))
  }

  /** A line with the given keyword in front. */
  function ReadKeyword(keyword: string, s: string): (r: Option<Read<string>>)
    ensures r.Some? ==> |r.value.rest| < |s|
  {
    if !StartsWith(s, keyword) then None else ReadLine(s[|keyword|..])
  }

  function SkipNewline(s: string): string {
    if s != [] && s[0] == '\n' then s[1..] else s
  }

  /** `data <count>`, that many bytes whatever they are, and the line feed allowed after them. */
  function ReadData(s: string): (r: Option<Read<string>>)
    ensures r.Some? ==> |r.value.rest| < |s|
  {
    match ReadKeyword("data ", s)
    case None => None
    case Some(Read(count, rest)) =>
      if count == "" || !AllDigits(count) || Value(count) > |rest| then None
      else Some(Read(rest[..Value(count)], SkipNewline(rest[Value(count)..])))
  }

  const FILE := "M 100644 inline "

  function ReadFiles(s: string): (r: Option<Read<seq<File>>>)
    ensures r.Some? ==> |r.value.rest| <= |s|
    decreases |s|
  {
    if !StartsWith(s, FILE) then Some(Read([], s))
    else
      match ReadKeyword(FILE, s)
      case None => None
      case Some(Read(path, afterPath)) =>
        if path == "" || path[0] == '"' then None
        else
          match ReadData(afterPath)
          case None => None
          case Some(Read(content, afterData)) =>
            match ReadFiles(afterData)
            case None => None
            case Some(Read(files, rest)) => Some(Read([File(path, content)] + files, rest))
  }

  function ReadFrom(s: string): (r: Option<Read<Option<string>>>)
    ensures r.Some? ==> |r.value.rest| <= |s|
  {
    if !StartsWith(s, "from ") then Some(Read(None, s))
    else
      match ReadKeyword("from ", s)
      case None => None
      case Some(Read(name, rest)) => Some(Read(Some(name), rest))
  }

  function ReadCommit(s: string): (r: Option<Read<Command>>)
    ensures r.Some? ==> |r.value.rest| < |s|
  {
    match ReadKeyword("commit ", s)
    case None => None
    case Some(Read(reference, s1)) =>
      match ReadKeyword("committer ", s1)
      case None => None
      case Some(Read(committer, s2)) =>
        match ReadData(s2)
        case None => None
        case Some(Read(message, s3)) =>
          match ReadFrom(s3)
          case None => None
          case Some(Read(from, s4)) =>
            match ReadFiles(s4)
            case None => None
            case Some(Read(files, rest)) => Some(Read(Command(reference, committer, message, from, files), rest))
  }

  /** The commands of a stream; `None` when it is not one. Blank lines between commands are skipped. */
  function ReadStream(s: string): Option<seq<Command>>
    decreases |s|
  {
    if s == [] then Some([])
    else if s[0] == '\n' then ReadStream(s[1..])
    else
      match ReadCommit(s)
      case None => None
      case Some(Read(command, rest)) =>
        match ReadStream(rest)
        case None => None
        case Some(commands) => Some([command] + commands)
  }

  // ---- Reading back what was printed -------------------------------------------------------------------

  /** What the format needs of a name on a line of its own. */
  predicate OneLine(s: string) {
    '\n' !in s
  }

  /** A path the format takes unquoted. */
  predicate PlainPath(path: string) {
    OneLine(path) && path != "" && path[0] != '"'
  }

  predicate PlainFiles(fs: seq<File>) {
    forall f <- fs :: PlainPath(f.path)
  }

  function CommandOf(reference: string, from: Option<string>, c: Commit): Command {
    Command(reference, Committer(c.index), Message(c.index), from, c.files)
  }

  function CommandsOf(reference: string, from: Option<string>, commits: seq<Commit>): seq<Command> {
    if commits == [] then []
    else
      CommandsOf(reference, from, commits[..|commits| - 1])
      + [CommandOf(reference, if |commits| == 1 then from else None, commits[|commits| - 1])]
  }

  lemma {:induction false} ReadLineBack(line: string, rest: string)
    requires OneLine(line)
    ensures ReadLine(line + ("\n" + rest)) == Some(Read(line, rest))
  {
    var s := line + ("\n" + rest);
    if line == "" {
      assert s[1..] == rest;
    } else {
      assert s[1..] == line[1..] + ("\n" + rest);
      ReadLineBack(line[1..], rest);
      assert [line[0]] + line[1..] == line;
    }
  }

  lemma ReadKeywordBack(keyword: string, line: string, rest: string)
    requires OneLine(line)
    ensures ReadKeyword(keyword, keyword + line + "\n" + rest) == Some(Read(line, rest))
    ensures StartsWith(keyword + line + "\n" + rest, keyword)
  {
    var s := keyword + line + "\n" + rest;
    assert s[|keyword|..] == line + ("\n" + rest);
    ReadLineBack(line, rest);
  }

  lemma DigitsAreOneLine(n: nat)
    ensures OneLine(Print(n))
  {
    forall i | 0 <= i < |Print(n)| ensures Print(n)[i] != '\n' { assert IsDigit(Print(n)[i]); }
  }

  lemma CommitterIsOneLine(index: nat)
    ensures OneLine(Committer(index))
  {
    DigitsAreOneLine(1_700_000_000 + index * 60);
  }

  lemma ReadDataBack(bytes: string, rest: string)
    ensures ReadData(DataText(bytes) + rest) == Some(Read(bytes, SkipNewline(rest)))
  {
    var count := Print(|bytes|);
    DigitsAreOneLine(|bytes|);
    PrintedValue(|bytes|);
    hide Print, Value, ReadKeyword;
    assert DataText(bytes) + rest == "data " + count + "\n" + (bytes + rest);
    ReadKeywordBack("data ", count, bytes + rest);
    assert (bytes + rest)[..|bytes|] == bytes && (bytes + rest)[|bytes|..] == rest;
  }

  lemma OtherStart(s: string, keyword: string)
    requires s != [] && keyword != [] && s[0] != keyword[0]
    ensures !StartsWith(s, keyword)
  {}

  lemma ReadOneFile(f: File, tail: string)
    requires PlainPath(f.path)
    ensures ReadFiles(FileText(f) + tail)
         == match ReadFiles(tail) { case None => None case Some(Read(files, rest)) => Some(Read([f] + files, rest)) }
  {
    hide ReadKeyword, ReadData, DataText;
    var keyword, afterPath := FILE, DataText(f.content) + ("\n" + tail);
    var s := FileText(f) + tail;
    assert s == keyword + f.path + "\n" + afterPath;
    ReadKeywordBack(keyword, f.path, afterPath);
    ReadDataBack(f.content, "\n" + tail);
    assert SkipNewline("\n" + tail) == tail;
  }

  /** The files end where the commit's blank line stands. */
  lemma {:induction false} ReadFilesBack(fs: seq<File>, rest: string)
    requires PlainFiles(fs)
    ensures ReadFiles(FilesText(fs) + ("\n" + rest)) == Some(Read(fs, "\n" + rest))
    decreases |fs|
  {
    hide FileText, StartsWith, ReadKeyword, ReadData;
    if fs == [] {
      assert FilesText(fs) + ("\n" + rest) == "\n" + rest;
      OtherStart("\n" + rest, FILE);
    } else {
      FilesTextHead(fs);
      var tail := FilesText(fs[1..]) + ("\n" + rest);
      assert fs[0] in fs && forall g <- fs[1..] :: g in fs;
      assert FilesText(fs) + ("\n" + rest) == FileText(fs[0]) + tail;
      ReadFilesBack(fs[1..], rest);
      ReadOneFile(fs[0], tail);
      assert [fs[0]] + fs[1..] == fs;
    }
  }

  lemma {:induction false} FilesTextHead(fs: seq<File>)
    requires fs != []
    ensures FilesText(fs) == FileText(fs[0]) + FilesText(fs[1..])
  {
    hide FileText;
    if |fs| > 1 {
      FilesTextHead(fs[..|fs| - 1]);
      assert fs[1..][..|fs| - 2] == fs[..|fs| - 1][1..];
    }
  }

  lemma FilesTextStart(fs: seq<File>, rest: string)
    ensures fs == [] ==> FilesText(fs) + ("\n" + rest) == "\n" + rest
    ensures fs != [] ==> (FilesText(fs) + ("\n" + rest))[0] == 'M'
  {
    if fs != [] {
      FilesTextHead(fs);
      assert FileText(fs[0])[0] == 'M';
    }
  }

  /** How a commit is put together from its parts, whatever each part is. */
  lemma CommitFromParts(s: string, s1: string, s2: string, s3: string, s4: string, rest: string, c: Command)
    requires ReadKeyword("commit ", s) == Some(Read(c.reference, s1))
    requires ReadKeyword("committer ", s1) == Some(Read(c.committer, s2))
    requires ReadData(s2) == Some(Read(c.message, s3))
    requires ReadFrom(s3) == Some(Read(c.from, s4))
    requires ReadFiles(s4) == Some(Read(c.files, rest))
    ensures ReadCommit(s) == Some(Read(c, rest))
  {
    hide ReadKeyword, ReadData, ReadFrom, ReadFiles;
  }

  lemma ReadHeadBack(reference: string, index: nat, rest: string) returns (s1: string, s2: string)
    requires OneLine(reference)
    ensures ReadKeyword("commit ", HeadText(reference, index) + rest) == Some(Read(reference, s1))
    ensures ReadKeyword("committer ", s1) == Some(Read(Committer(index), s2))
    ensures ReadData(s2) == Some(Read(Message(index), SkipNewline(rest)))
  {
    hide ReadKeyword, ReadData, DataText, Committer, Message;
    s2 := DataText(Message(index)) + rest;
    s1 := "committer " + Committer(index) + "\n" + s2;
    assert HeadText(reference, index) + rest == "commit " + reference + "\n" + s1;
    ReadKeywordBack("commit ", reference, s1);
    CommitterIsOneLine(index);
    ReadKeywordBack("committer ", Committer(index), s2);
    ReadDataBack(Message(index), rest);
  }

  lemma NoFrom(s: string)
    requires s == "" || s[0] != 'f'
    ensures ReadFrom(s) == Some(Read(None, s))
  {
    if s != "" { OtherStart(s, "from "); }
  }

  lemma NoFiles(s: string)
    requires s == "" || s[0] != 'M'
    ensures ReadFiles(s) == Some(Read([], s))
  {
    if s != "" { OtherStart(s, FILE); }
  }

  lemma ReadFromBack(name: string, rest: string)
    requires OneLine(name)
    ensures ReadFrom("from " + name + "\n" + rest) == Some(Read(Some(name), rest))
  {
    hide ReadKeyword;
    ReadKeywordBack("from ", name, rest);
  }

  predicate CommandNext(rest: string) {
    rest == "" || rest[0] == 'c'
  }

  /** After the message come the parent line, if any, the files and the blank line. */
  lemma ReadTailBack(from: Option<string>, fs: seq<File>, rest: string) returns (s4: string, left: string)
    requires (from.Some? ==> OneLine(from.value)) && PlainFiles(fs) && CommandNext(rest)
    ensures ReadFrom(SkipNewline(FromText(from) + (FilesText(fs) + ("\n" + rest)))) == Some(Read(from, s4))
    ensures ReadFiles(s4) == Some(Read(fs, left)) && SkipNewline(left) == rest
  {
    hide ReadFrom, ReadFiles, FilesText;
    var s5 := FilesText(fs) + ("\n" + rest);
    ReadFilesBack(fs, rest);
    FilesTextStart(fs, rest);
    s4, left := s5, "\n" + rest;
    if from.Some? {
      assert FromText(from) + s5 == "from " + from.value + "\n" + s5;
      ReadFromBack(from.value, s5);
    } else {
      assert FromText(from) + s5 == s5;
      if fs == [] {
        s4, left := rest, rest;
        NoFrom(rest);
        NoFiles(rest);
      } else {
        NoFrom(s5);
      }
    }
  }

  /** One printed commit reads back as itself, and leaves what follows it: nothing, or another
      command. */
  lemma ReadCommitBack(reference: string, from: Option<string>, c: Commit, rest: string) returns (left: string)
    requires OneLine(reference) && (from.Some? ==> OneLine(from.value)) && PlainFiles(c.files) && CommandNext(rest)
    ensures ReadCommit(CommitText(reference, from, c) + rest) == Some(Read(CommandOf(reference, from, c), left))
    ensures SkipNewline(left) == rest
  {
    hide ReadKeyword, ReadData, ReadFrom, ReadFiles, ReadCommit, HeadText, FilesText, FromText;
    var tail := FromText(from) + (FilesText(c.files) + ("\n" + rest));
    var s := HeadText(reference, c.index) + tail;
    assert CommitText(reference, from, c) + rest == s;
    var s1, s2 := ReadHeadBack(reference, c.index, tail);
    var s4;
    s4, left := ReadTailBack(from, c.files, rest);
    CommitFromParts(s, s1, s2, SkipNewline(tail), s4, left, CommandOf(reference, from, c));
  }

  function Prepend(commands: seq<Command>, more: Option<seq<Command>>): Option<seq<Command>> {
    match more
    case None => None
    case Some(rest) => Some(commands + rest)
  }

  lemma {:induction false} StreamStart(reference: string, from: Option<string>, commits: seq<Commit>)
    ensures CommandNext(StreamText(reference, from, commits))
  {
    hide CommitText;
    if commits != [] {
      var c, from' := commits[|commits| - 1], if |commits| == 1 then from else None;
      StreamStart(reference, from, commits[..|commits| - 1]);
      CommitTextStart(reference, from', c, "");
    }
  }

  predicate PlainCommits(commits: seq<Commit>) {
    forall c <- commits :: PlainFiles(c.files)
  }

  /** Round trip: a printed stream reads back as exactly its commits, parents, paths and contents,
      whatever bytes the contents hold, and what follows it is read as if it stood alone. */
  lemma {:induction false} StreamReadsBack(reference: string, from: Option<string>, commits: seq<Commit>, rest: string)
    requires OneLine(reference) && (from.Some? ==> OneLine(from.value)) && PlainCommits(commits)
    requires CommandNext(rest)
    ensures ReadStream(StreamText(reference, from, commits) + rest)
         == Prepend(CommandsOf(reference, from, commits), ReadStream(rest))
    decreases |commits|
  {
    hide ReadCommit, CommitText, CommandOf;
    if commits == [] {
      assert StreamText(reference, from, commits) + rest == rest;
      assert forall more: seq<Command> :: [] + more == more;
    } else {
      var init, c := commits[..|commits| - 1], commits[|commits| - 1];
      var from' := if |commits| == 1 then from else None;
      var next := CommitText(reference, from', c) + rest;
      CommitTextStart(reference, from', c, rest);
      StreamReadsBack(reference, from, init, next);
      assert StreamText(reference, from, commits) + rest == StreamText(reference, from, init) + next;
      OneCommitReadsBack(reference, from', c, rest);
      assert forall more: seq<Command> ::
          CommandsOf(reference, from, init) + ([CommandOf(reference, from', c)] + more)
          == CommandsOf(reference, from, commits) + more;
    }
  }

  lemma CommitTextStart(reference: string, from: Option<string>, c: Commit, rest: string)
    ensures |CommitText(reference, from, c)| > 0 && (CommitText(reference, from, c) + rest)[0] == 'c'
    ensures CommitText(reference, from, c) + "" == CommitText(reference, from, c)
  {}

  lemma OneCommitReadsBack(reference: string, from: Option<string>, c: Commit, rest: string)
    requires OneLine(reference) && (from.Some? ==> OneLine(from.value)) && PlainFiles(c.files) && CommandNext(rest)
    ensures ReadStream(CommitText(reference, from, c) + rest)
              == Prepend([CommandOf(reference, from, c)], ReadStream(rest))
  {
    hide ReadCommit, CommitText, CommandOf;
    var left := ReadCommitBack(reference, from, c, rest);
    CommitTextStart(reference, from, c, rest);
    assert ReadStream(left) == ReadStream(rest);
  }
}
