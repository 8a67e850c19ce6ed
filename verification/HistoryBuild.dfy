/** The history bench's source repository: what importing a stream does, and the loop that builds
    `main` in chunks and forks twenty branches off it. */
module HistoryBuild {
  import opened Options
  import opened Decimal
  import opened FastImport

  // ---- Importing --------------------------------------------------------------------------------

  /** A commit with all its history; its name is a function of it. */
  datatype Object = Object(message: string, committer: string, files: seq<File>, parent: Option<Object>)

  datatype Repo = Repo(refs: map<string, Object>, objects: map<string, Object>)

  /** The refs one import has written so far. */
  datatype Session = Session(tips: map<string, Object>, objects: map<string, Object>)

  predicate TipSuffix(name: string) {
    |name| >= 2 && name[|name| - 2..] == "^0"
  }

  /** `ref^0` is the tip the repository has for the ref; anything else names an object. */
  function Resolve(repo: Repo, objects: map<string, Object>, name: string): Option<Object> {
    if TipSuffix(name) then
      if name[..|name| - 2] in repo.refs then Some(repo.refs[name[..|name| - 2]]) else None
    else if name in objects then Some(objects[name]) else None
  }

  /** The parent of a commit: what `from` names, else what this import last put on the ref. */
  function ImportCommand(oid: Object -> string, repo: Repo, s: Session, c: Command): Option<Session> {
    var parent := if c.from.Some? then Resolve(repo, s.objects, c.from.value)
                  else if c.reference in s.tips then Some(s.tips[c.reference]) else None;
    if c.from.Some? && parent.None? then None
    else
      var o := Object(c.message, c.committer, c.files, parent);
      Some(Session(s.tips[c.reference := o], s.objects[oid(o) := o]))
  }

  function ImportCommands(oid: Object -> string, repo: Repo, s: Session, commands: seq<Command>): Option<Session> {
    if commands == [] then Some(s)
    else
      match ImportCommands(oid, repo, s, commands[..|commands| - 1])
      case None => None
      case Some(t) => ImportCommand(oid, repo, t, commands[|commands| - 1])
  }

  predicate Descends(o: Object, ancestor: Object)
    decreases o
  {
    o == ancestor || (o.parent.Some? && Descends(o.parent.value, ancestor))
  }

  /** One import. It fails on a stream it cannot read, on a parent it cannot find, and on a ref that
      would lose history. */
  function Import(oid: Object -> string, repo: Repo, stream: string): Option<Repo> {
    match ReadStream(stream)
    case None => None
    case Some(commands) =>
      match ImportCommands(oid, repo, Session(map[], repo.objects), commands)
      case None => None
      case Some(s) =>
        if forall r :: r in s.tips && r in repo.refs ==> Descends(s.tips[r], repo.refs[r])
        then Some(Repo(repo.refs + s.tips, s.objects)) else None
  }

  /** `ref~n`. */
  function Ancestor(o: Option<Object>, n: nat): Option<Object> {
    if n == 0 || o.None? then o else Ancestor(o.value.parent, n - 1)
  }

  // ---- The commits of the bench ----------------------------------------------------------------------

  const MAIN := "refs/heads/main"
  const FILES: nat := 200
  const DIRS: nat := 20
  const BRANCHES: nat := 20
  const RARE_PATH := "rare/target.txt"

  function Repeat(s: string, n: nat): string {
    if n == 0 then "" else Repeat(s, n - 1) + s
  }

  /** The first n lines of the rare file, rewritten at line `hot`. */
  function RareBody(index: nat, hot: nat, n: nat): string {
    if n == 0 then ""
    else
      RareBody(index, hot, n - 1)
      + "line " + Print(n - 1) + " rev " + Print(if n - 1 == hot then index else 0) + "\n"
  }

  /** As `usize::is_multiple_of`: only 0 is a multiple of 0. */
  predicate IsMultipleOf(n: nat, k: nat) {
    if k == 0 then n == 0 else n % k == 0
  }

  /** The files of a commit on `main`; `None` stands for the division by zero. */
  function MainFiles(index: nat, rareEvery: nat): Option<seq<File>> {
    var file := index % FILES;
    var f := File("src/d" + Padded(Print(file % DIRS), 2) + "/f" + Padded(Print(file), 3) + ".txt",
                  "rev " + Print(index) + "\n" + Repeat("filler line\n", 8));
    if !IsMultipleOf(index, rareEvery) then Some([f])
    else if rareEvery == 0 then None
    else Some([f, File(RARE_PATH, RareBody(index, (index / rareEvery) % 40, 40))])
  }

  function MainCommit(index: nat, rareEvery: nat): Option<Commit> {
    match MainFiles(index, rareEvery)
    case None => None
    case Some(files) => Some(Commit(index, files))
  }

  lemma PlainMainPath(directory: nat, file: nat)
    ensures PlainPath("src/d" + Padded(Print(directory), 2) + "/f" + Padded(Print(file), 3) + ".txt")
  {
    hide Print, Padded;
    PaddedIsOneLine(directory, 2);
    PaddedIsOneLine(file, 3);
  }

  /** The only commit that cannot be made is the first, when no commit is rare. */
  lemma MainCommitExists(index: nat, rareEvery: nat)
    ensures MainCommit(index, rareEvery).Some? <==> rareEvery > 0 || index > 0
    ensures MainCommit(index, rareEvery).Some? ==> PlainFiles(MainCommit(index, rareEvery).value.files)
    ensures MainCommit(index, rareEvery).Some? ==> MainCommit(index, rareEvery).value.index == index
  {
    PlainMainPath(index % FILES % DIRS, index % FILES);
    assert OneLine(RARE_PATH) && PlainPath(RARE_PATH);
    hide Print, Padded, RareBody, Repeat, PlainPath;
  }

  lemma PaddedIsOneLine(n: nat, width: nat)
    ensures OneLine(Padded(Print(n), width))
  {
    PaddedValue(Print(n), width);
    var s := Padded(Print(n), width);
    forall i | 0 <= i < |s| ensures s[i] != '\n' { assert IsDigit(s[i]); }
  }

  function MainCommits(lo: nat, hi: nat, rareEvery: nat): seq<Commit>
    requires lo <= hi && rareEvery > 0
  {
    if lo == hi then []
    else
      MainCommitExists(hi - 1, rareEvery);
      MainCommits(lo, hi - 1, rareEvery) + [MainCommit(hi - 1, rareEvery).value]
  }

  function BranchRef(b: nat): string {
    "refs/heads/b" + Padded(Print(b), 2)
  }

  function AheadCommit(commits: nat, b: nat, k: nat): Commit {
    Commit(commits + b * 3 + k,
           [File("branch/b" + Padded(Print(b), 2) + ".txt", "b" + Print(b) + " " + Print(k) + "\n")])
  }

  function Ahead(commits: nat, b: nat): seq<Commit> {
    [AheadCommit(commits, b, 0), AheadCommit(commits, b, 1), AheadCommit(commits, b, 2)]
  }

  // ---- The history that should come out -----------------------------------------------------------------

  function ObjectOf(c: Commit, parent: Option<Object>): Object {
    Object(Message(c.index), Committer(c.index), c.files, parent)
  }

  /** The linear chain of the first k commits. */
  function MainChain(k: nat, rareEvery: nat): Option<Object>
    requires rareEvery > 0
    ensures MainChain(k, rareEvery).Some? <==> k > 0
  {
    if k == 0 then None
    else
      MainCommitExists(k - 1, rareEvery);
      Some(ObjectOf(MainCommit(k - 1, rareEvery).value, MainChain(k - 1, rareEvery)))
  }

  /** How far behind `main` a branch forks. */
  function Back(commits: nat, b: nat): nat {
    (b + 1) * (commits / (BRANCHES * 2))
  }

  function BranchTip(commits: nat, b: nat, base: Option<Object>): Object {
    ObjectOf(AheadCommit(commits, b, 2),
             Some(ObjectOf(AheadCommit(commits, b, 1), Some(ObjectOf(AheadCommit(commits, b, 0), base)))))
  }

  /** Names tell objects apart, fit on one line, and never look like `ref^0`. */
  ghost predicate GoodNames(oid: Object -> string) {
    && (forall a, b :: oid(a) == oid(b) ==> a == b)
    && (forall o :: OneLine(oid(o)) && !TipSuffix(oid(o)))
  }

  /** Every object is filed under its own name. */
  ghost predicate Honest(oid: Object -> string, objects: map<string, Object>) {
    forall name :: name in objects ==> oid(objects[name]) == name
  }

  lemma NamedObject(oid: Object -> string, objects: map<string, Object>, o: Object)
    requires GoodNames(oid) && Honest(oid, objects) && oid(o) in objects
    ensures objects[oid(o)] == o
  {
    assert oid(objects[oid(o)]) == oid(o);
  }

  // ---- Importing a chunk of `main` ------------------------------------------------------------------------

  const MAIN_TIP := "refs/heads/main^0"

  lemma MainTipResolves(repo: Repo, objects: map<string, Object>)
    ensures Resolve(repo, objects, MAIN_TIP) == if MAIN in repo.refs then Some(repo.refs[MAIN]) else None
    ensures OneLine(MAIN) && OneLine(MAIN_TIP)
  {
    assert MAIN_TIP[..|MAIN_TIP| - 2] == MAIN;
    assert MAIN_TIP[|MAIN_TIP| - 2..] == "^0";
  }

  /** `main` holds the chain of the first n commits, and nothing else is there. */
  ghost predicate HasMain(oid: Object -> string, repo: Repo, n: nat, rareEvery: nat)
    requires rareEvery > 0
  {
    && repo.refs == (if n == 0 then map[] else map[MAIN := MainChain(n, rareEvery).value])
    && Honest(oid, repo.objects)
    && forall k :: 0 < k <= n ==> oid(MainChain(k, rareEvery).value) in repo.objects
  }

  ghost predicate InChunk(oid: Object -> string, s: Session, lo: nat, hi: nat, rareEvery: nat)
    requires rareEvery > 0 && lo <= hi
  {
    && s.tips == (if lo == hi then map[] else map[MAIN := MainChain(hi, rareEvery).value])
    && Honest(oid, s.objects)
    && forall k :: 0 < k <= hi ==> oid(MainChain(k, rareEvery).value) in s.objects
  }

  function ChunkFrom(lo: nat): Option<string> {
    if lo > 0 then Some(MAIN_TIP) else None
  }

  lemma {:induction false} ChunkImports(oid: Object -> string, repo: Repo, lo: nat, hi: nat, rareEvery: nat)
    requires rareEvery > 0 && lo <= hi && HasMain(oid, repo, lo, rareEvery)
    ensures var commands := CommandsOf(MAIN, ChunkFrom(lo), MainCommits(lo, hi, rareEvery));
            var s := ImportCommands(oid, repo, Session(map[], repo.objects), commands);
            s.Some? && InChunk(oid, s.value, lo, hi, rareEvery)
    decreases hi
  {
    hide MainCommit, CommandOf, Resolve, InChunk, HasMain, ImportCommand, MainChain;
    if lo == hi {
      EmptyChunk(oid, repo, lo, rareEvery);
      assert CommandsOf(MAIN, ChunkFrom(lo), MainCommits(lo, hi, rareEvery)) == [];
    } else {
      hide CommandsOf, ImportCommands, MainCommits;
      ChunkImports(oid, repo, lo, hi - 1, rareEvery);
      MainCommitExists(hi - 1, rareEvery);
      var before := CommandsOf(MAIN, ChunkFrom(lo), MainCommits(lo, hi - 1, rareEvery));
      var command := ChunkCommand(lo, hi, rareEvery);
      ChunkGrows(lo, hi, rareEvery);
      ImportOneMore(oid, repo, Session(map[], repo.objects), before, command);
      var s := ImportCommands(oid, repo, Session(map[], repo.objects), before).value;
      MainTipResolves(repo, s.objects);
      NextOnMain(oid, repo, s, lo, hi, rareEvery, command);
    }
  }

  /** The command of the last commit of a chunk. */
  function ChunkCommand(lo: nat, hi: nat, rareEvery: nat): Command
    requires rareEvery > 0 && lo < hi
  {
    MainCommitExists(hi - 1, rareEvery);
    CommandOf(MAIN, if hi - 1 == lo then ChunkFrom(lo) else None, MainCommit(hi - 1, rareEvery).value)
  }

  lemma ChunkGrows(lo: nat, hi: nat, rareEvery: nat)
    requires rareEvery > 0 && lo < hi
    ensures CommandsOf(MAIN, ChunkFrom(lo), MainCommits(lo, hi, rareEvery))
         == CommandsOf(MAIN, ChunkFrom(lo), MainCommits(lo, hi - 1, rareEvery)) + [ChunkCommand(lo, hi, rareEvery)]
  {
    hide MainCommit, CommandOf;
    MainCommitExists(hi - 1, rareEvery);
    MainCommitsCount(lo, hi, rareEvery);
    var cs := MainCommits(lo, hi, rareEvery);
    assert cs[..|cs| - 1] == MainCommits(lo, hi - 1, rareEvery);
  }

  lemma ImportOneMore(oid: Object -> string, repo: Repo, s: Session, commands: seq<Command>, c: Command)
    ensures ImportCommands(oid, repo, s, commands + [c])
         == match ImportCommands(oid, repo, s, commands)
            case None => None
            case Some(t) => ImportCommand(oid, repo, t, c)
  {
    hide ImportCommand;
    assert (commands + [c])[..|commands|] == commands;
  }

  lemma EmptyChunk(oid: Object -> string, repo: Repo, n: nat, rareEvery: nat)
    requires rareEvery > 0 && HasMain(oid, repo, n, rareEvery)
    ensures InChunk(oid, Session(map[], repo.objects), n, n, rareEvery)
  {
    hide MainChain, Honest;
  }

  lemma {:induction false} MainCommitsCount(lo: nat, hi: nat, rareEvery: nat)
    requires lo <= hi && rareEvery > 0
    ensures |MainCommits(lo, hi, rareEvery)| == hi - lo
    ensures forall c <- MainCommits(lo, hi, rareEvery) :: PlainFiles(c.files)
  {
    hide MainCommit, PlainFiles;
    if lo < hi {
      MainCommitsCount(lo, hi - 1, rareEvery);
      MainCommitExists(hi - 1, rareEvery);
    }
  }

  lemma NextOnMain(oid: Object -> string, repo: Repo, s: Session, lo: nat, hi: nat, rareEvery: nat, c: Command)
    requires rareEvery > 0 && lo < hi && HasMain(oid, repo, lo, rareEvery) && InChunk(oid, s, lo, hi - 1, rareEvery)
    requires MainCommit(hi - 1, rareEvery).Some?
    requires c == CommandOf(MAIN, if hi - 1 == lo then ChunkFrom(lo) else None, MainCommit(hi - 1, rareEvery).value)
    requires Resolve(repo, s.objects, MAIN_TIP) == if MAIN in repo.refs then Some(repo.refs[MAIN]) else None
    ensures ImportCommand(oid, repo, s, c).Some?
    ensures InChunk(oid, ImportCommand(oid, repo, s, c).value, lo, hi, rareEvery)
  {
    hide MainCommit, Message, Committer, Resolve;
    var o := MainChain(hi, rareEvery).value;
    assert ImportCommand(oid, repo, s, c) == Some(Session(s.tips[MAIN := o], s.objects[oid(o) := o]));
  }

  lemma {:induction false} ChainDescends(n: nat, k: nat, rareEvery: nat)
    requires rareEvery > 0 && 0 < k <= n
    ensures Descends(MainChain(n, rareEvery).value, MainChain(k, rareEvery).value)
  {
    hide MainCommit;
    if k < n { ChainDescends(n - 1, k, rareEvery); }
  }

  lemma ChunkReads(lo: nat, hi: nat, rareEvery: nat)
    requires rareEvery > 0 && lo <= hi
    ensures ReadStream(StreamText(MAIN, ChunkFrom(lo), MainCommits(lo, hi, rareEvery)))
         == Some(CommandsOf(MAIN, ChunkFrom(lo), MainCommits(lo, hi, rareEvery)))
  {
    hide ReadStream, StreamText, CommandsOf, MainCommits;
    var cs := MainCommits(lo, hi, rareEvery);
    var text, commands := StreamText(MAIN, ChunkFrom(lo), cs), CommandsOf(MAIN, ChunkFrom(lo), cs);
    MainCommitsCount(lo, hi, rareEvery);
    MainTipResolves(Repo(map[], map[]), map[]);
    StreamReadsBack(MAIN, ChunkFrom(lo), cs, "");
    ReadNothing();
    assert text + "" == text && commands + [] == commands;
  }

  lemma ReadNothing()
    ensures ReadStream("") == Some([])
  {}

  /** Importing the printed stream of a chunk extends `main` from `lo` to `hi` commits. */
  lemma ChunkExtendsMain(oid: Object -> string, repo: Repo, lo: nat, hi: nat, rareEvery: nat)
    requires rareEvery > 0 && lo < hi && HasMain(oid, repo, lo, rareEvery)
    ensures var repo' := Import(oid, repo, StreamText(MAIN, ChunkFrom(lo), MainCommits(lo, hi, rareEvery)));
            repo'.Some? && HasMain(oid, repo'.value, hi, rareEvery)
  {
    hide MainChain, ImportCommands, StreamText, ReadStream, CommandsOf, Descends, MainCommits, Import, MAIN;
    ChunkReads(lo, hi, rareEvery);
    ChunkImports(oid, repo, lo, hi, rareEvery);
    if lo > 0 { ChainDescends(hi, lo, rareEvery); }
    var commands := CommandsOf(MAIN, ChunkFrom(lo), MainCommits(lo, hi, rareEvery));
    var s := ImportCommands(oid, repo, Session(map[], repo.objects), commands).value;
    ImportSucceeds(oid, repo, StreamText(MAIN, ChunkFrom(lo), MainCommits(lo, hi, rareEvery)), commands, s);
    assert repo.refs + s.tips == map[MAIN := MainChain(hi, rareEvery).value];
  }

  lemma ImportSucceeds(oid: Object -> string, repo: Repo, stream: string, commands: seq<Command>, s: Session)
    requires ReadStream(stream) == Some(commands)
    requires ImportCommands(oid, repo, Session(map[], repo.objects), commands) == Some(s)
    requires forall r :: r in s.tips && r in repo.refs ==> Descends(s.tips[r], repo.refs[r])
    ensures Import(oid, repo, stream) == Some(Repo(repo.refs + s.tips, s.objects))
  {
    hide ReadStream, ImportCommands, Descends;
  }

  // ---- Forking the branches ---------------------------------------------------------------------------------

  lemma {:induction false} AncestorOfChain(n: nat, back: nat, rareEvery: nat)
    requires rareEvery > 0 && back <= n
    ensures Ancestor(MainChain(n, rareEvery), back) == MainChain(n - back, rareEvery)
    decreases n
  {
    hide MainCommit;
    if back > 0 { AncestorOfChain(n - 1, back - 1, rareEvery); }
  }

  lemma BackBound(commits: nat, b: nat)
    requires b < BRANCHES && commits > 0
    ensures Back(commits, b) < commits
  {
    var unit := commits / (BRANCHES * 2);
    assert unit * (BRANCHES * 2) <= commits;
    assert (b + 1) * unit <= BRANCHES * unit by { Scale(b + 1, BRANCHES, unit); }
  }

  lemma Scale(a: nat, b: nat, k: nat)
    requires a <= b
    ensures a * k <= b * k
  {}

  /** The commit branch b forks from. */
  function Base(commits: nat, b: nat, rareEvery: nat): Object
    requires rareEvery > 0 && b < BRANCHES && commits > 0
  {
    BackBound(commits, b);
    MainChain(commits - Back(commits, b), rareEvery).value
  }

  function BranchStream(oid: Object -> string, commits: nat, b: nat, rareEvery: nat): string
    requires rareEvery > 0 && b < BRANCHES && commits > 0
  {
    StreamText(BranchRef(b), Some(oid(Base(commits, b, rareEvery))), Ahead(commits, b))
  }

  function BranchesText(oid: Object -> string, commits: nat, n: nat, rareEvery: nat): string
    requires rareEvery > 0 && n <= BRANCHES && commits > 0
  {
    if n == 0 then "" else BranchesText(oid, commits, n - 1, rareEvery) + BranchStream(oid, commits, n - 1, rareEvery)
  }

  function BranchCommands(oid: Object -> string, commits: nat, b: nat, rareEvery: nat): seq<Command>
    requires rareEvery > 0 && b < BRANCHES && commits > 0
  {
    [CommandOf(BranchRef(b), Some(oid(Base(commits, b, rareEvery))), AheadCommit(commits, b, 0)),
     CommandOf(BranchRef(b), None, AheadCommit(commits, b, 1)),
     CommandOf(BranchRef(b), None, AheadCommit(commits, b, 2))]
  }

  function BranchesCommands(oid: Object -> string, commits: nat, n: nat, rareEvery: nat): seq<Command>
    requires rareEvery > 0 && n <= BRANCHES && commits > 0
  {
    if n == 0 then []
    else BranchesCommands(oid, commits, n - 1, rareEvery) + BranchCommands(oid, commits, n - 1, rareEvery)
  }

  lemma ThreeCommands(reference: string, from: Option<string>, a: Commit, b: Commit, c: Commit)
    ensures CommandsOf(reference, from, [a, b, c])
         == [CommandOf(reference, from, a), CommandOf(reference, None, b), CommandOf(reference, None, c)]
  {
    hide CommandOf;
    assert [a, b, c][..2] == [a, b] && [a, b][..1] == [a] && [a][..0] == [];
    assert CommandsOf(reference, from, [a]) == [CommandOf(reference, from, a)];
    assert CommandsOf(reference, from, [a, b]) == [CommandOf(reference, from, a), CommandOf(reference, None, b)];
  }

  lemma BranchTextIsPlain(commits: nat, b: nat)
    ensures OneLine(BranchRef(b)) && PlainCommits(Ahead(commits, b))
  {
    PaddedIsOneLine(b, 2);
    hide Print, Padded;
  }

  lemma BranchStreamStart(oid: Object -> string, commits: nat, n: nat, rareEvery: nat, rest: string)
    requires rareEvery > 0 && 0 < n <= BRANCHES && commits > 0 && CommandNext(rest)
    ensures CommandNext(BranchStream(oid, commits, n - 1, rareEvery) + rest)
  {
    hide StreamText, Ahead, BranchRef;
    var text := BranchStream(oid, commits, n - 1, rareEvery);
    StreamStart(BranchRef(n - 1), Some(oid(Base(commits, n - 1, rareEvery))), Ahead(commits, n - 1));
    if text == "" { assert text + rest == rest; }
  }

  /** The concatenated branch streams read as the concatenation of their commands. */
  lemma {:induction false} BranchesRead(oid: Object -> string, commits: nat, n: nat, rareEvery: nat, rest: string)
    requires rareEvery > 0 && n <= BRANCHES && commits > 0 && GoodNames(oid) && CommandNext(rest)
    ensures ReadStream(BranchesText(oid, commits, n, rareEvery) + rest)
         == Prepend(BranchesCommands(oid, commits, n, rareEvery), ReadStream(rest))
    decreases n
  {
    hide ReadStream, StreamText, CommandsOf, BranchRef, Base, CommandOf, AheadCommit;
    if n == 0 {
      assert "" + rest == rest;
      assert forall more: seq<Command> :: [] + more == more;
    } else {
      var from := Some(oid(Base(commits, n - 1, rareEvery)));
      var text := BranchStream(oid, commits, n - 1, rareEvery);
      BranchStreamStart(oid, commits, n, rareEvery, rest);
      BranchesRead(oid, commits, n - 1, rareEvery, text + rest);
      BranchTextIsPlain(commits, n - 1);
      StreamReadsBack(BranchRef(n - 1), from, Ahead(commits, n - 1), rest);
      ThreeCommands(BranchRef(n - 1), from, AheadCommit(commits, n - 1, 0), AheadCommit(commits, n - 1, 1),
          AheadCommit(commits, n - 1, 2));
      assert (BranchesText(oid, commits, n - 1, rareEvery) + text) + rest
          == BranchesText(oid, commits, n - 1, rareEvery) + (text + rest);
      var a, b := BranchesCommands(oid, commits, n - 1, rareEvery), BranchCommands(oid, commits, n - 1, rareEvery);
      assert forall more: seq<Command> :: a + (b + more) == (a + b) + more;
    }
  }

  lemma BranchRefsDiffer(a: nat, b: nat)
    ensures BranchRef(a) == BranchRef(b) ==> a == b
    ensures BranchRef(a) != MAIN
  {
    var prefix := "refs/heads/b";
    assert |prefix| == 12;
    assert BranchRef(a)[12..] == Padded(Print(a), 2) && BranchRef(b)[12..] == Padded(Print(b), 2);
    if BranchRef(a) == BranchRef(b) { PrintInjective(a, b, 2); }
    assert BranchRef(a)[11] == 'b' && MAIN[11] == 'm';
  }

  /** The refs after n branches. */
  ghost predicate HasBranches(oid: Object -> string, s: Session, commits: nat, n: nat, rareEvery: nat)
    requires rareEvery > 0 && n <= BRANCHES && commits > 0
  {
    && Honest(oid, s.objects)
    && (forall k :: 0 < k <= commits ==> oid(MainChain(k, rareEvery).value) in s.objects)
    && (forall r :: r in s.tips <==> exists b :: 0 <= b < n && r == BranchRef(b))
    && (forall b :: 0 <= b < n ==> s.tips[BranchRef(b)] == BranchTip(commits, b, Some(Base(commits, b, rareEvery))))
  }

  lemma {:induction false} ImportAppends(oid: Object -> string, repo: Repo, s: Session, a: seq<Command>,
      b: seq<Command>)
    ensures ImportCommands(oid, repo, s, a + b)
         == match ImportCommands(oid, repo, s, a) { case None => None case Some(t) => ImportCommands(oid, repo, t, b) }
  {
    hide ImportCommand;
    if b == [] {
      assert a + b == a;
    } else {
      assert (a + b)[..|a + b| - 1] == a + b[..|b| - 1];
      ImportAppends(oid, repo, s, a, b[..|b| - 1]);
    }
  }

  lemma OneBranchImports(oid: Object -> string, repo: Repo, s: Session, commits: nat, b: nat, rareEvery: nat)
    requires rareEvery > 0 && b < BRANCHES && commits > 0 && GoodNames(oid)
    requires HasBranches(oid, s, commits, b, rareEvery)
    ensures var t := ImportCommands(oid, repo, s, BranchCommands(oid, commits, b, rareEvery));
            t.Some? && HasBranches(oid, t.value, commits, b + 1, rareEvery)
  {
    var base := Base(commits, b, rareEvery);
    BackBound(commits, b);
    NamedObject(oid, s.objects, base);
    var t := ThreeImports(oid, repo, s, BranchRef(b), base, AheadCommit(commits, b, 0), AheadCommit(commits, b, 1),
        AheadCommit(commits, b, 2));
    hide ImportCommands, GoodNames, AheadCommit;
    NextBranch(oid, s, t, commits, b, rareEvery);
  }

  lemma NextBranch(oid: Object -> string, s: Session, t: Session, commits: nat, b: nat, rareEvery: nat)
    requires rareEvery > 0 && b < BRANCHES && commits > 0 && HasBranches(oid, s, commits, b, rareEvery)
    requires t.tips == s.tips[BranchRef(b) := BranchTip(commits, b, Some(Base(commits, b, rareEvery)))]
    requires Honest(oid, t.objects) && forall name :: name in s.objects ==> name in t.objects
    ensures HasBranches(oid, t, commits, b + 1, rareEvery)
  {
    hide BranchRef, MainChain, BranchTip, Base, Honest;
    forall c: nat | c <= b ensures BranchRef(c) == BranchRef(b) ==> c == b { BranchRefsDiffer(c, b); }
  }

  /** One commit on a ref whose parent is known. */
  lemma OneImport(oid: Object -> string, repo: Repo, s: Session, c: Command, parent: Object) returns (t: Session)
    requires GoodNames(oid) && Honest(oid, s.objects)
    requires if c.from.Some? then c.from.value == oid(parent) && oid(parent) in s.objects
               && s.objects[oid(parent)] == parent
             else c.reference in s.tips && s.tips[c.reference] == parent
    ensures ImportCommand(oid, repo, s, c) == Some(t)
    ensures t.tips == s.tips[c.reference := Object(c.message, c.committer, c.files, Some(parent))]
    ensures Honest(oid, t.objects) && forall name :: name in s.objects ==> name in t.objects
  {
    var o := Object(c.message, c.committer, c.files, Some(parent));
    t := Session(s.tips[c.reference := o], s.objects[oid(o) := o]);
  }

  lemma ThreeSteps(oid: Object -> string, repo: Repo, s: Session, c0: Command, c1: Command, c2: Command, s0: Session,
      s1: Session, t: Session)
    requires ImportCommand(oid, repo, s, c0) == Some(s0)
    requires ImportCommand(oid, repo, s0, c1) == Some(s1)
    requires ImportCommand(oid, repo, s1, c2) == Some(t)
    ensures ImportCommands(oid, repo, s, [c0, c1, c2]) == Some(t)
  {
    hide ImportCommand;
    assert [c0, c1, c2][..2] == [c0, c1] && [c0, c1][..1] == [c0] && [c0][..0] == [];
    assert ImportCommands(oid, repo, s, [c0]) == Some(s0);
    assert ImportCommands(oid, repo, s, [c0, c1]) == Some(s1);
  }

  /** Three commits on one ref, the first of them on `base`. */
  lemma ThreeImports(oid: Object -> string, repo: Repo, s: Session, reference: string, base: Object, a: Commit,
      b: Commit, c: Commit)
    returns (t: Session)
    requires GoodNames(oid) && Honest(oid, s.objects)
    requires oid(base) in s.objects && s.objects[oid(base)] == base
    ensures ImportCommands(oid, repo, s,
              [CommandOf(reference, Some(oid(base)), a), CommandOf(reference, None, b),
              CommandOf(reference, None, c)]) == Some(t)
    ensures t.tips == s.tips[reference := ObjectOf(c, Some(ObjectOf(b, Some(ObjectOf(a, Some(base))))))]
    ensures Honest(oid, t.objects) && forall name :: name in s.objects ==> name in t.objects
  {
    hide ImportCommand, ImportCommands, GoodNames, Honest, Message, Committer;
    var c0, c1, c2 := CommandOf(reference, Some(oid(base)), a), CommandOf(reference, None, b),
        CommandOf(reference, None, c);
    var s0 := OneImport(oid, repo, s, c0, base);
    var s1 := OneImport(oid, repo, s0, c1, ObjectOf(a, Some(base)));
    t := OneImport(oid, repo, s1, c2, ObjectOf(b, Some(ObjectOf(a, Some(base)))));
    ThreeSteps(oid, repo, s, c0, c1, c2, s0, s1, t);
  }

  lemma NoBranches(oid: Object -> string, repo: Repo, commits: nat, rareEvery: nat)
    requires rareEvery > 0 && commits > 0 && HasMain(oid, repo, commits, rareEvery)
    ensures HasBranches(oid, Session(map[], repo.objects), commits, 0, rareEvery)
  {
    hide MainChain, Honest;
  }

  lemma {:induction false} BranchesImport(oid: Object -> string, repo: Repo, commits: nat, n: nat, rareEvery: nat)
    requires rareEvery > 0 && n <= BRANCHES && commits > 0 && GoodNames(oid) && HasMain(oid, repo, commits, rareEvery)
    ensures var s := ImportCommands(oid, repo, Session(map[], repo.objects),
              BranchesCommands(oid, commits, n, rareEvery));
            s.Some? && HasBranches(oid, s.value, commits, n, rareEvery)
    decreases n
  {
    hide MainChain, BranchCommands, ImportCommand, GoodNames, HasBranches, HasMain;
    var start := Session(map[], repo.objects);
    if n == 0 {
      NoBranches(oid, repo, commits, rareEvery);
    } else {
      BranchesImport(oid, repo, commits, n - 1, rareEvery);
      var s := ImportCommands(oid, repo, start, BranchesCommands(oid, commits, n - 1, rareEvery)).value;
      ImportAppends(oid, repo, start, BranchesCommands(oid, commits, n - 1, rareEvery),
          BranchCommands(oid, commits, n - 1, rareEvery));
      OneBranchImports(oid, repo, s, commits, n - 1, rareEvery);
    }
  }

  /** The finished repository: the linear chain on `main` and the forked branches, no other ref. */
  ghost predicate IsBuilt(repo: Repo, commits: nat, rareEvery: nat)
    requires rareEvery > 0 && commits > 0
  {
    && (forall r :: r in repo.refs <==> r == MAIN || exists b :: 0 <= b < BRANCHES && r == BranchRef(b))
    && repo.refs[MAIN] == MainChain(commits, rareEvery).value
    && (forall b :: 0 <= b < BRANCHES ==>
          repo.refs[BranchRef(b)] == BranchTip(commits, b, Some(Base(commits, b, rareEvery))))
  }

  lemma BranchesComplete(oid: Object -> string, repo: Repo, commits: nat, rareEvery: nat)
    requires rareEvery > 0 && commits > 0 && GoodNames(oid) && HasMain(oid, repo, commits, rareEvery)
    ensures var repo' := Import(oid, repo, BranchesText(oid, commits, BRANCHES, rareEvery));
            repo'.Some? && IsBuilt(repo'.value, commits, rareEvery)
  {
    hide MainChain, BranchesText, BranchesCommands, ReadStream, ImportCommands, BranchTip, BranchRef, Descends;
    var text := BranchesText(oid, commits, BRANCHES, rareEvery);
    var commands := BranchesCommands(oid, commits, BRANCHES, rareEvery);
    BranchesRead(oid, commits, BRANCHES, rareEvery, "");
    ReadNothing();
    assert text + "" == text && commands + [] == commands;
    BranchesImport(oid, repo, commits, BRANCHES, rareEvery);
    var s := ImportCommands(oid, repo, Session(map[], repo.objects), commands).value;
    forall b: nat ensures BranchRef(b) != MAIN { BranchRefsDiffer(b, b); }
  }

  // ---- The loop that builds it ---------------------------------------------------------------------------------

  /** Imports the commits of `main` in chunks. `None` stands for the division by zero. */
  method BuildMain(oid: Object -> string, commits: nat, chunk: nat) returns (src: Option<Repo>)
    requires chunk > 0
    ensures src.Some? <==> commits == 0 || commits >= 50
    ensures commits == 0 && src.Some? ==> MAIN !in src.value.refs
    ensures commits >= 50 && src.Some? ==> HasMain(oid, src.value, commits, commits / 50)
  {
    hide HasMain, MainCommit, Import, StreamText, MAIN_TIP;
    var repo := Repo(map[], map[]);
    var rareEvery := commits / 50;
    if rareEvery > 0 { EmptyHasMain(oid, rareEvery); }
    var next := 0;
    while next < commits
      invariant next <= commits
      invariant rareEvery == 0 ==> next == 0
      invariant next == 0 ==> repo == Repo(map[], map[])
      invariant rareEvery > 0 ==> HasMain(oid, repo, next, rareEvery)
    {
      var end := if next + chunk < commits then next + chunk else commits;
      var batch := [];
      for i := next to end
        invariant rareEvery == 0 ==> i == next
        invariant rareEvery > 0 ==> batch == MainCommits(next, i, rareEvery)
      {
        MainCommitExists(i, rareEvery);
        var commit := MainCommit(i, rareEvery);
        if commit.None? { return None; }
        batch := batch + [commit.value];
      }
      var text := Stream(MAIN, if next > 0 then Some(MAIN_TIP) else None, batch);
      var imported := Import(oid, repo, text);
      ChunkExtendsMain(oid, repo, next, end, rareEvery);
      repo := imported.value;
      next := end;
    }
    return Some(repo);
  }

  lemma EmptyHasMain(oid: Object -> string, rareEvery: nat)
    requires rareEvery > 0
    ensures HasMain(oid, Repo(map[], map[]), 0, rareEvery)
  {}

  /** Prints the streams of the first n forked branches, one after the other. */
  method PrintBranches(oid: Object -> string, repo: Repo, commits: nat) returns (branches: string)
    requires commits >= 50 && HasMain(oid, repo, commits, commits / 50)
    ensures branches == BranchesText(oid, commits, BRANCHES, commits / 50)
  {
    hide MainChain, StreamText, BranchRef, AheadCommit, Honest;
    ghost var rareEvery := commits / 50;
    branches := "";
    for branch := 0 to BRANCHES
      invariant branches == BranchesText(oid, commits, branch, rareEvery)
    {
      var back := (branch + 1) * (commits / (BRANCHES * 2));
      BackBound(commits, branch);
      AncestorOfChain(commits, back, rareEvery);
      var base := Ancestor(Some(repo.refs[MAIN]), back);
      var ahead := [];
      for k := 0 to 3
        invariant ahead == Ahead(commits, branch)[..k]
      {
        ahead := ahead + [AheadCommit(commits, branch, k)];
      }
      assert ahead == Ahead(commits, branch);
      assert base == Some(Base(commits, branch, rareEvery));
      var text := Stream(BranchRef(branch), Some(oid(base.value)), ahead);
      branches := branches + text;
    }
  }

  /** Builds the source repository. `None` stands for the bench stopping with a panic. */
  method BuildSource(oid: Object -> string, commits: nat, chunk: nat) returns (src: Option<Repo>)
    requires chunk > 0 && GoodNames(oid)
    ensures src.Some? <==> commits >= 50
    ensures src.Some? ==> IsBuilt(src.value, commits, commits / 50)
  {
    hide IsBuilt, Import, GoodNames, Honest;
    var main := BuildMain(oid, commits, chunk);
    if main.None? || MAIN !in main.value.refs { return None; }
    var branches := PrintBranches(oid, main.value, commits);
    BranchesComplete(oid, main.value, commits, commits / 50);
    return Import(oid, main.value, branches);
  }

  // ---- What the repository looks like --------------------------------------------------------------------------

  /** A commit and everything before it. */
  function Reach(o: Option<Object>): set<Object>
    decreases o
  {
    if o.None? then {} else Reach(o.value.parent) + {o.value}
  }

  lemma {:induction false} ReachMain(k: nat, rareEvery: nat)
    requires rareEvery > 0
    ensures |Reach(MainChain(k, rareEvery))| == k
    ensures forall o :: o in Reach(MainChain(k, rareEvery)) ==> exists i: nat :: i < k && o.message == Message(i)
  {
    hide MainCommit, Message;
    if k > 0 {
      ReachMain(k - 1, rareEvery);
      MainCommitExists(k - 1, rareEvery);
      var o := MainChain(k, rareEvery).value;
      forall i: nat | i < k - 1 ensures Message(i) != Message(k - 1) { MessagesDiffer(i, k - 1); }
      assert o !in Reach(MainChain(k - 1, rareEvery));
    }
  }

  lemma MessagesDiffer(a: nat, b: nat)
    ensures Message(a) == Message(b) ==> a == b
  {
    var start := "commit ";
    assert |start| == 7;
    assert Message(a)[7..|Message(a)| - 1] == Print(a) && Message(b)[7..|Message(b)| - 1] == Print(b);
    if Message(a) == Message(b) {
      PrintedValue(a);
      PrintedValue(b);
    }
  }

  lemma {:induction false} ReachGrows(j: nat, k: nat, rareEvery: nat)
    requires rareEvery > 0 && j <= k
    ensures Reach(MainChain(j, rareEvery)) <= Reach(MainChain(k, rareEvery))
  {
    hide MainCommit;
    if j < k { ReachGrows(j, k - 1, rareEvery); }
  }

  lemma ReachThree(a: Commit, b: Commit, c: Commit, base: Option<Object>) returns (o0: Object, o1: Object, o2: Object)
    ensures o0 == ObjectOf(a, base) && o1 == ObjectOf(b, Some(o0)) && o2 == ObjectOf(c, Some(o1))
    ensures o0.message == Message(a.index) && o1.message == Message(b.index) && o2.message == Message(c.index)
    ensures Reach(Some(o2)) == Reach(base) + {o0, o1, o2}
  {
    hide Message, Committer;
    o0 := ObjectOf(a, base);
    o1 := ObjectOf(b, Some(o0));
    o2 := ObjectOf(c, Some(o1));
    assert Reach(Some(o0)) == Reach(base) + {o0};
    assert Reach(Some(o1)) == Reach(Some(o0)) + {o1};
    assert Reach(Some(o2)) == Reach(Some(o1)) + {o2};
  }

  lemma ThreeMore(main: set<Object>, behind: set<Object>, o0: Object, o1: Object, o2: Object)
    requires behind <= main && o0 !in main && o1 !in main && o2 !in main && o0 != o1 && o1 != o2 && o0 != o2
    ensures |(behind + {o0, o1, o2}) - main| == 3 && |main - (behind + {o0, o1, o2})| == |main| - |behind|
  {
    assert (behind + {o0, o1, o2}) - main == {o0, o1, o2};
    assert main - (behind + {o0, o1, o2}) == main - behind;
    assert main == (main - behind) + behind;
  }

  /** Three commits on a base are new to a history that holds the base and only earlier indices. */
  lemma ThreeNew(a: Commit, b: Commit, c: Commit, base: Option<Object>, main: set<Object>, bound: nat)
    requires Reach(base) <= main && bound <= a.index < b.index < c.index
    requires forall o :: o in main ==> exists i: nat :: i < bound && o.message == Message(i)
    ensures var tip := Reach(Some(ObjectOf(c, Some(ObjectOf(b, Some(ObjectOf(a, base)))))));
            |tip - main| == 3 && |main - tip| == |main| - |Reach(base)|
  {
    hide Message, Reach, ObjectOf;
    var o0, o1, o2 := ReachThree(a, b, c, base);
    forall o, k: nat | o in main && bound <= k ensures o.message != Message(k) {
      var i: nat :| i < bound && o.message == Message(i);
      MessagesDiffer(i, k);
    }
    MessagesDiffer(a.index, b.index);
    MessagesDiffer(a.index, c.index);
    MessagesDiffer(b.index, c.index);
    ThreeMore(main, Reach(base), o0, o1, o2);
  }

  lemma BaseIsOnMain(commits: nat, b: nat, rareEvery: nat)
    requires commits > 0 && rareEvery > 0 && b < BRANCHES
    ensures Back(commits, b) < commits
    ensures MainChain(commits - Back(commits, b), rareEvery) == Some(Base(commits, b, rareEvery))
  {
    BackBound(commits, b);
  }

  lemma TipAgainstMain(commits: nat, b: nat, rareEvery: nat)
    requires commits > 0 && rareEvery > 0 && b < BRANCHES
    ensures var main := Reach(MainChain(commits, rareEvery));
            var tip := Reach(Some(BranchTip(commits, b, Some(Base(commits, b, rareEvery)))));
            |main| == commits && |tip - main| == 3 && |main - tip| == Back(commits, b)
  {
    hide MainChain, Message, ObjectOf, Reach, Back, Base;
    BaseIsOnMain(commits, b, rareEvery);
    var forked := commits - Back(commits, b);
    ReachMain(commits, rareEvery);
    ReachMain(forked, rareEvery);
    ReachGrows(forked, commits, rareEvery);
    ThreeNew(AheadCommit(commits, b, 0), AheadCommit(commits, b, 1), AheadCommit(commits, b, 2),
             MainChain(forked, rareEvery), Reach(MainChain(commits, rareEvery)), commits);
  }

  /** In a built repository `main` has exactly the given number of commits, and every branch is
      exactly three commits ahead of it and (b + 1) * (commits / 40) behind it. */
  lemma BranchAheadAndBehind(repo: Repo, commits: nat, b: nat)
    requires commits >= 50 && b < BRANCHES && IsBuilt(repo, commits, commits / 50)
    ensures var main, tip := Reach(Some(repo.refs[MAIN])), Reach(Some(repo.refs[BranchRef(b)]));
            |main| == commits && |tip - main| == 3 && |main - tip| == Back(commits, b)
  {
    TipAgainstMain(commits, b, commits / 50);
    hide Reach, BranchTip, Base, MainChain, Back;
  }

  /** Importing in chunks of any size gives the repository that importing in one go gives. */
  lemma ChunksRefineOneImport(oid: Object -> string, chunked: Repo, whole: Repo, commits: nat)
    requires commits >= 50
    requires HasMain(oid, chunked, commits, commits / 50)
    requires Some(whole)
               == Import(oid, Repo(map[], map[]), StreamText(MAIN, None, MainCommits(0, commits, commits / 50)))
    ensures chunked.refs == whole.refs
  {
    EmptyHasMain(oid, commits / 50);
    ChunkExtendsMain(oid, Repo(map[], map[]), 0, commits, commits / 50);
  }
}
