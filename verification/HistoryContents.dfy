/** What the built history holds, commit by commit, told from its refs alone. */
module HistoryContents {
  import opened Options
  import opened Decimal
  import opened FastImport
  import opened HistoryBuild
  import Text

  /** Digits of that many places that read as the number. */
  predicate Digits(s: string, places: nat, n: nat) {
    AllDigits(s) && |s| == places && Value(s) == n
  }

  lemma {:induction false} PaddedLength(s: string, width: nat)
    ensures |Padded(s, width)| == if |s| < width then width else |s|
    decreases width - |s|
  {
    if |s| < width { PaddedLength("0" + s, width); }
  }

  lemma PrintLength(n: nat)
    ensures n < 100 ==> |Print(n)| <= 2
    ensures n < 1000 ==> |Print(n)| <= 3
  {
    if 10 <= n < 1000 {
      assert Print(n) == Print(n / 10) + [Digit(n % 10)];
      if n >= 100 { assert Print(n / 10) == Print(n / 10 / 10) + [Digit(n / 10 % 10)]; }
    }
  }

  lemma PaddedDigits(n: nat, width: nat)
    requires (width == 2 && n < 100) || (width == 3 && n < 1000)
    ensures Digits(Padded(Print(n), width), width, n)
  {
    hide Print, Padded, Value;
    PrintLength(n);
    PaddedLength(Print(n), width);
    PaddedValue(Print(n), width);
    PrintedValue(n);
  }

  // ---- One commit of `main` --------------------------------------------------------------------------

  /** "src/dXX/fYYY.txt", with XX and YYY from the commit's number. */
  ghost predicate IsSourcePath(path: string, i: nat) {
    exists directory, file ::
      && path == "src/d" + directory + "/f" + file + ".txt"
      && Digits(directory, 2, i % 200 % 20) && Digits(file, 3, i % 200)
  }

  /** The number, and eight lines to fill it up. */
  ghost predicate IsSourceContent(content: string, i: nat) {
    && |Text.Split(content, '\n')| == 10 && Text.Split(content, '\n')[9] == ""
    && Text.Split(content, '\n')[0] == "rev " + Print(i)
    && forall k :: 1 <= k < 9 ==> Text.Split(content, '\n')[k] == "filler line"
  }

  /** Forty lines, of which one carries the commit's number and the others 0. */
  ghost predicate IsRareContent(content: string, i: nat, hot: nat) {
    && |Text.Split(content, '\n')| == 41 && Text.Split(content, '\n')[40] == ""
    && forall k :: 0 <= k < 40 ==>
         Text.Split(content, '\n')[k] == "line " + Print(k) + " rev " + if k == hot then Print(i) else "0"
  }

  /** The commit numbered i of a history in which every commit divided by `rare` touches the rare file. */
  ghost predicate HoldsCommit(o: Object, i: nat, rare: nat)
    requires rare > 0
  {
    && o.message == "commit " + Print(i) + "\n"
    && o.committer == "Bench <bench@example.com> " + Print(1700000000 + 60 * i) + " +0000"
    && 1 <= |o.files| <= 2
    && IsSourcePath(o.files[0].path, i) && IsSourceContent(o.files[0].content, i)
    && (|o.files| == 2 <==> i % rare == 0)
    && (|o.files| == 2 ==>
          o.files[1].path == "rare/target.txt" && IsRareContent(o.files[1].content, i, i / rare % 40))
  }

  lemma SourcePath(i: nat)
    ensures IsSourcePath("src/d" + Padded(Print(i % 200 % 20), 2) + "/f" + Padded(Print(i % 200), 3) + ".txt", i)
  {
    hide Print, Padded, Value;
    PaddedDigits(i % 200 % 20, 2);
    PaddedDigits(i % 200, 3);
  }

  lemma DigitsHaveNoLineEnd(n: nat)
    ensures '\n' !in Print(n)
  {
    hide Print;
    assert forall i :: 0 <= i < |Print(n)| ==> IsDigit(Print(n)[i]);
  }

  function RareLine(k: nat, hot: nat, i: nat): string {
    "line " + Print(k) + " rev " + Print(if k == hot then i else 0)
  }

  function RareLines(n: nat, hot: nat, i: nat): (lines: seq<string>)
    ensures |lines| == n && forall k :: 0 <= k < n ==> lines[k] == RareLine(k, hot, i)
  {
    if n == 0 then [] else RareLines(n - 1, hot, i) + [RareLine(n - 1, hot, i)]
  }

  /** Splitting lines that each end in a line end gives the lines and an empty rest. */
  lemma {:induction false} SplitLines(lines: seq<string>, rest: string)
    requires forall l <- lines :: '\n' !in l
    ensures Text.Split(Ended(lines) + rest, '\n') == lines + Text.Split(rest, '\n')
  {
    hide Text.Split;
    if lines == [] {
      assert Ended([]) + rest == rest;
    } else {
      var init, last := lines[..|lines| - 1], lines[|lines| - 1];
      assert last in lines && forall l <- init :: l in lines;
      SplitLines(init, last + "\n" + rest);
      Text.SplitPrefix(last, '\n', rest);
      assert Ended(lines) + rest == Ended(init) + (last + "\n" + rest);
      assert last + "\n" + rest == last + ['\n'] + rest;
    }
  }

  function Ended(lines: seq<string>): string {
    if lines == [] then "" else Ended(lines[..|lines| - 1]) + lines[|lines| - 1] + "\n"
  }

  lemma {:induction false} RareBodyIsLines(i: nat, hot: nat, n: nat)
    ensures RareBody(i, hot, n) == Ended(RareLines(n, hot, i))
  {
    if n > 0 {
      RareBodyIsLines(i, hot, n - 1);
      RareBodyNext(i, hot, n - 1);
      hide RareBody, RareLine, Ended;
      EndedNext(RareLines(n - 1, hot, i), RareLine(n - 1, hot, i));
    }
  }

  lemma RareBodyNext(i: nat, hot: nat, n: nat)
    ensures RareBody(i, hot, n + 1) == RareBody(i, hot, n) + RareLine(n, hot, i) + "\n"
  {
    hide Print;
    var body, line := RareBody(i, hot, n), "line " + Print(n) + " rev ";
    assert body + "line " + Print(n) + " rev " == body + line;
  }

  lemma EndedNext(lines: seq<string>, line: string)
    ensures Ended(lines + [line]) == Ended(lines) + line + "\n"
  {
    assert (lines + [line])[..|lines|] == lines;
  }

  function Fillers(n: nat): (lines: seq<string>)
    ensures |lines| == n && forall l <- lines :: l == "filler line"
  {
    if n == 0 then [] else Fillers(n - 1) + ["filler line"]
  }

  lemma RepeatNext(line: string, n: nat)
    requires n > 0
    ensures Repeat(line + "\n", n) == Repeat(line + "\n", n - 1) + line + "\n"
  {
    assert Repeat(line + "\n", n - 1) + (line + "\n") == Repeat(line + "\n", n - 1) + line + "\n";
  }

  lemma {:induction false} RepeatIsLines(n: nat)
    ensures Repeat("filler line\n", n) == Ended(Fillers(n))
  {
    if n > 0 {
      RepeatIsLines(n - 1);
      hide Ended, Repeat;
      var line := "filler line";
      assert line + "\n" == "filler line\n";
      EndedNext(Fillers(n - 1), line);
      RepeatNext(line, n);
    }
  }

  lemma SourceContent(i: nat, n: nat)
    requires n == 8
    ensures IsSourceContent("rev " + Print(i) + "\n" + Repeat("filler line\n", n), i)
  {
    hide Print, Ended, Fillers, Repeat, Text.Split;
    var first := "rev " + Print(i);
    DigitsHaveNoLineEnd(i);
    RepeatIsLines(n);
    SplitLines(Fillers(n), "");
    SplitNothing();
    assert Ended(Fillers(n)) + "" == Ended(Fillers(n));
    Text.SplitPrefix(first, '\n', Ended(Fillers(n)));
    assert first + "\n" + Ended(Fillers(n)) == first + ['\n'] + Ended(Fillers(n));
    var parts := [first] + (Fillers(n) + [""]);
    forall k | 1 <= k < 9 ensures parts[k] == "filler line" {
      assert parts[k] == Fillers(n)[k - 1] && Fillers(n)[k - 1] in Fillers(n);
    }
  }

  lemma RareContent(i: nat, hot: nat, n: nat)
    requires n == 40
    ensures IsRareContent(RareBody(i, hot, n), i, hot)
  {
    hide Print, RareBody, Ended, RareLines, Text.Split;
    RareBodyIsLines(i, hot, n);
    var lines := RareLines(n, hot, i);
    forall l | l in lines ensures '\n' !in l {
      var k :| 0 <= k < n && lines[k] == l;
      DigitsHaveNoLineEnd(k);
      DigitsHaveNoLineEnd(if k == hot then i else 0);
    }
    SplitLines(lines, "");
    assert Ended(lines) + "" == Ended(lines);
    assert Text.Split("", '\n') == [""] by { SplitNothing(); }
    ZeroPrints();
  }

  lemma SplitNothing()
    ensures Text.Split("", '\n') == [""]
  {
  }

  lemma ZeroPrints()
    ensures Print(0) == "0"
  {
  }

  lemma ChainHoldsCommit(i: nat, rare: nat)
    requires rare > 0
    ensures HoldsCommit(MainChain(i + 1, rare).value, i, rare)
  {
    hide Print, Padded, Repeat, RareBody, IsRareContent, IsSourcePath, IsSourceContent;
    SourcePath(i);
    SourceContent(i, 8);
    RareContent(i, i / rare % 40, 40);
    MainCommitExists(i, rare);
    assert 60 * i == i * 60;
  }

  /** In a built repository the commit numbered i of `main` is N - 1 - i steps back from its tip. */
  lemma MainHoldsItsCommits(repo: Repo, commits: nat, i: nat)
    requires commits >= 50 && IsBuilt(repo, commits, commits / 50) && i < commits
    ensures "refs/heads/main" in repo.refs
    ensures var o := Ancestor(Some(repo.refs["refs/heads/main"]), commits - 1 - i);
            o.Some? && HoldsCommit(o.value, i, commits / 50)
  {
    hide MainChain, HoldsCommit, BranchTip, BranchRef;
    assert MAIN in repo.refs;
    AncestorOfChain(commits, commits - 1 - i, commits / 50);
    ChainHoldsCommit(i, commits / 50);
  }

  // ---- How many commits touch the rare file ----------------------------------------------------------------

  /** The commits of a history that touch the rare file. */
  function RareCommits(o: Option<Object>): nat
    decreases o
  {
    if o.None? then 0
    else
      RareCommits(o.value.parent)
      + if exists f :: f in o.value.files && f.path == "rare/target.txt" then 1 else 0
  }

  lemma RareIsHeld(o: Object, i: nat, rare: nat)
    requires rare > 0 && HoldsCommit(o, i, rare)
    ensures (exists f :: f in o.files && f.path == "rare/target.txt") <==> i % rare == 0
  {
    hide IsRareContent, Print, Digits;
    assert o.files[0].path[0] == 's';
    if |o.files| == 2 { assert o.files[1] in o.files; }
  }

  lemma {:induction false} RareCommitsOfChain(k: nat, rare: nat)
    requires rare > 0
    ensures RareCommits(MainChain(k, rare)) == (k + rare - 1) / rare
  {
    hide HoldsCommit, MainCommit;
    if k > 0 {
      RareCommitsOfChain(k - 1, rare);
      ChainHoldsCommit(k - 1, rare);
      RareIsHeld(MainChain(k, rare).value, k - 1, rare);
      NextCeiling(k - 1, rare);
    } else {
      Zero(rare);
    }
  }

  lemma Zero(rare: nat)
    requires rare > 0
    ensures (rare - 1) / rare == 0
  {
  }

  lemma NextCeiling(k: nat, rare: nat)
    requires rare > 0
    ensures (k + rare) / rare == (k + rare - 1) / rare + if k % rare == 0 then 1 else 0
  {
    var q, r := k / rare, k % rare;
    assert k == q * rare + r;
    DivideAt(q + 1, rare, r, k + rare);
    if r == 0 { DivideAt(q, rare, rare - 1, k + rare - 1); } else { DivideAt(q + 1, rare, r - 1, k + rare - 1); }
  }

  lemma DivideAt(q: nat, d: nat, r: nat, n: nat)
    requires r < d && n == q * d + r
    ensures n / d == q
  {
    var p := n / d;
    assert p * d <= n < p * d + d;
    if p < q { Product(p + 1, q, d); } else if p > q { Product(q + 1, p, d); }
  }

  lemma Product(a: nat, b: nat, d: nat)
    requires a <= b
    ensures a * d <= b * d
  {
    assert (b - a) * d >= 0;
  }

  /** The rare commits are spread evenly: one in N / 50, so 50 of 5,000 and of 50,000. */
  lemma RareCommitsAreSpread(repo: Repo, commits: nat)
    requires commits >= 50 && IsBuilt(repo, commits, commits / 50)
    ensures "refs/heads/main" in repo.refs
    ensures RareCommits(Some(repo.refs["refs/heads/main"])) == (commits + commits / 50 - 1) / (commits / 50)
    ensures commits % 50 == 0 ==> RareCommits(Some(repo.refs["refs/heads/main"])) == 50
  {
    hide MainChain, BranchTip, BranchRef, RareCommits;
    assert MAIN in repo.refs;
    RareCommitsOfChain(commits, commits / 50);
    if commits % 50 == 0 {
      var d := commits / 50;
      assert commits == 50 * d;
      DivideAt(50, d, d - 1, commits + d - 1);
    }
  }

  // ---- The branches ---------------------------------------------------------------------------------------------

  /** The k-th of the three commits of branch b. */
  ghost predicate HoldsAhead(o: Object, commits: nat, b: nat, k: nat) {
    && o.message == "commit " + Print(commits + 3 * b + k) + "\n"
    && o.committer == "Bench <bench@example.com> " + Print(1700000000 + 60 * (commits + 3 * b + k)) + " +0000"
    && |o.files| == 1
    && (exists digits :: Digits(digits, 2, b) && o.files[0].path == "branch/b" + digits + ".txt")
    && o.files[0].content == "b" + Print(b) + " " + Print(k) + "\n"
  }

  lemma AheadHolds(commits: nat, b: nat, k: nat, parent: Option<Object>)
    requires b < 20 && k < 3
    ensures HoldsAhead(ObjectOf(AheadCommit(commits, b, k), parent), commits, b, k)
  {
    hide Print, Padded, Value;
    PaddedDigits(b, 2);
    assert b * 3 == 3 * b && 60 * (commits + 3 * b + k) == (commits + 3 * b + k) * 60;
  }

  /** A built repository has twenty branches, b00 to b19, each three commits on top of the commit of `main`
      that is (b + 1) * (N / 40) behind its tip. */
  lemma BranchHoldsItsCommits(repo: Repo, commits: nat, b: nat) returns (digits: string)
    requires commits >= 50 && IsBuilt(repo, commits, commits / 50) && b < 20
    ensures Digits(digits, 2, b) && "refs/heads/b" + digits in repo.refs && "refs/heads/main" in repo.refs
    ensures BranchFrom(repo.refs["refs/heads/b" + digits], commits, b,
                       Ancestor(Some(repo.refs["refs/heads/main"]), Behind(commits, b)))
  {
    hide MainChain, Print, Padded, Value, BranchTip, BranchFrom, Ancestor;
    digits := Padded(Print(b), 2);
    assert MAIN in repo.refs && BranchRef(b) in repo.refs;
    PaddedDigits(b, 2);
    BaseIsOnMain(commits, b, commits / 50);
    AncestorOfChain(commits, Back(commits, b), commits / 50);
    TipIsFrom(commits, b, Some(Base(commits, b, commits / 50)));
  }

  function Behind(commits: nat, b: nat): nat {
    (b + 1) * (commits / 40)
  }

  /** Three commits on that one. */
  ghost predicate BranchFrom(tip: Object, commits: nat, b: nat, base: Option<Object>) {
    && base.Some? && HoldsAhead(tip, commits, b, 2)
    && tip.parent.Some? && HoldsAhead(tip.parent.value, commits, b, 1)
    && tip.parent.value.parent.Some? && HoldsAhead(tip.parent.value.parent.value, commits, b, 0)
    && tip.parent.value.parent.value.parent == base
  }

  lemma TipIsFrom(commits: nat, b: nat, base: Option<Object>)
    requires b < 20 && base.Some?
    ensures BranchFrom(BranchTip(commits, b, base), commits, b, base)
  {
    hide HoldsAhead, AheadCommit;
    var first := ObjectOf(AheadCommit(commits, b, 0), base);
    AheadHolds(commits, b, 0, base);
    AheadHolds(commits, b, 1, Some(first));
    AheadHolds(commits, b, 2, Some(ObjectOf(AheadCommit(commits, b, 1), Some(first))));
  }

  /** No other ref is there. */
  lemma OnlyMainAndBranches(repo: Repo, commits: nat, r: string)
    requires commits >= 50 && IsBuilt(repo, commits, commits / 50) && r in repo.refs
    ensures || r == "refs/heads/main"
            || exists b: nat, digits :: b < 20 && Digits(digits, 2, b) && r == "refs/heads/b" + digits
  {
    hide MainChain, Print, Padded, Value, BranchTip;
    if r != MAIN {
      var b :| 0 <= b < BRANCHES && r == BranchRef(b);
      PaddedDigits(b, 2);
    }
  }
}
