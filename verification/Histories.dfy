/** The generated histories the lane solver is fed. */
module Histories {
  import opened Decimal

  datatype Node = Node(id: string, parents: seq<string>)

  datatype Kind = T | E | D | DP | M | F

  function Prefix(k: Kind): string {
    match k
    case T => "t" case E => "e" case D => "d" case DP => "dp" case M => "m" case F => "f"
  }

  function Name(k: Kind, i: nat): string {
    Prefix(k) + Print(i)
  }

  const ROOT := "root"

  lemma NamesDiffer(k: Kind, i: nat, l: Kind, j: nat)
    ensures Name(k, i) == Name(l, j) <==> k == l && i == j
    ensures Name(k, i) != ROOT
  {
    PrintedValue(i);
    PrintedValue(j);
    assert IsDigit(Print(i)[0]) && IsDigit(Print(j)[0]);
    assert Name(k, i)[|Prefix(k)|..] == Print(i) && Name(l, j)[|Prefix(l)|..] == Print(j);
    if Name(k, i) == Name(l, j) {
      assert Name(k, i)[0] == Name(l, j)[0];
      assert |Prefix(k)| == 1 && |Prefix(l)| == 1 ==> k == l;
      assert |Prefix(k)| == 2 || |Prefix(l)| == 2 ==> Name(k, i)[1] == Name(l, j)[1];
    }
    assert Name(k, i)[0] != ROOT[0];
  }

  // ---- What a history fed to the solver must be ------------------------------------------------

  /** Every parent is listed, after the commit it is a parent of. */
  ghost predicate ChildrenFirst(cs: seq<Node>) {
    forall i, p :: 0 <= i < |cs| && p in cs[i].parents ==> exists j :: i < j < |cs| && cs[j].id == p
  }

  ghost predicate UniqueIds(cs: seq<Node>) {
    forall i, j :: 0 <= i < j < |cs| ==> cs[i].id != cs[j].id
  }

  function Merges(cs: seq<Node>): nat {
    if cs == [] then 0 else (if |cs[0].parents| > 1 then 1 else 0) + Merges(cs[1..])
  }

  ghost predicate Lists(cs: seq<Node>, id: string) {
    exists j :: 0 <= j < |cs| && cs[j].id == id
  }

  // ---- One chain -----------------------------------------------------------------------------------

  function ChainId(i: nat): string {
    "c" + Print(i)
  }

  lemma ChainIdsDiffer(i: nat, j: nat)
    ensures ChainId(i) == ChainId(j) <==> i == j
  {
    PrintedValue(i);
    PrintedValue(j);
    assert ChainId(i)[1..] == Print(i) && ChainId(j)[1..] == Print(j);
  }

  function ChainNode(n: nat, i: nat): Node {
    Node(ChainId(i), if i + 1 < n then [ChainId(i + 1)] else [])
  }

  /** A single first-parent chain, newest first. */
  method Linear(n: nat) returns (cs: seq<Node>)
    ensures |cs| == n && ChildrenFirst(cs) && UniqueIds(cs) && Merges(cs) == 0
    ensures forall i :: 0 <= i < n ==> cs[i] == ChainNode(n, i)
    ensures forall i :: 0 <= i < n ==>
              cs[i].id == "c" + Print(i) && cs[i].parents == if i < n - 1 then ["c" + Print(i + 1)] else []
  {
    cs := [];
    for i := 0 to n
      invariant |cs| == i
      invariant forall k :: 0 <= k < i ==> cs[k] == ChainNode(n, k)
    {
      cs := cs + [Node(ChainId(i), if i + 1 < n then [ChainId(i + 1)] else [])];
    }
    ChainIsOrdered(cs);
  }

  lemma ChainIsOrdered(cs: seq<Node>)
    requires forall i :: 0 <= i < |cs| ==> cs[i] == ChainNode(|cs|, i)
    ensures ChildrenFirst(cs) && UniqueIds(cs) && Merges(cs) == 0
  {
    hide ChainId;
    forall i, j | 0 <= i < j < |cs| ensures cs[i].id != cs[j].id {
      assert cs[i] == ChainNode(|cs|, i) && cs[j] == ChainNode(|cs|, j);
      ChainIdsDiffer(i, j);
    }
    forall i, p | 0 <= i < |cs| && p in cs[i].parents ensures exists j :: i < j < |cs| && cs[j].id == p {
      assert cs[i] == ChainNode(|cs|, i);
      assert cs[i + 1] == ChainNode(|cs|, i + 1);
    }
    forall i | 0 <= i < |cs| ensures |cs[i].parents| <= 1 { assert cs[i] == ChainNode(|cs|, i); }
    NoMerges(cs);
  }

  lemma {:induction false} NoMerges(cs: seq<Node>)
    requires forall i :: 0 <= i < |cs| ==> |cs[i].parents| <= 1
    ensures Merges(cs) == 0
  {
    if cs != [] { NoMerges(cs[1..]); }
  }

  // ---- Repeated merges --------------------------------------------------------------------------------

  function Mainline(i: nat): string {
    if i == 0 then ROOT else Name(M, i - 1)
  }

  function Cycle(i: nat): seq<Node> {
    [Node(Name(T, i), [Name(D, i)]), Node(Name(E, i), [Name(M, i)]), Node(Name(D, i), [Name(DP, i)]),
     Node(Name(DP, i), []), Node(Name(M, i), [Mainline(i), Name(F, i)]), Node(Name(F, i), [])]
  }

  /** The cycles below n, the newest first, and the root. */
  function History(n: nat): seq<Node> {
    if n == 0 then [Node(ROOT, [])] else Cycle(n - 1) + History(n - 1)
  }

  /** The six commits of cycle i of a history of n cycles: two stray tips, of which one leads over two commits to a
      root of its own and the other to the cycle's merge, and the merge of a one-commit branch into the mainline. */
  ghost predicate HoldsCycle(commits: seq<Node>, n: nat, i: nat) {
    var at := 6 * (n - 1 - i);
    && 0 <= at && at + 6 <= |commits|
    && commits[at] == Node("t" + Print(i), ["d" + Print(i)])
    && commits[at + 1] == Node("e" + Print(i), ["m" + Print(i)])
    && commits[at + 2] == Node("d" + Print(i), ["dp" + Print(i)])
    && commits[at + 3] == Node("dp" + Print(i), [])
    && commits[at + 4].id == "m" + Print(i)
    && commits[at + 4].parents == [if i == 0 then "root" else "m" + Print(i - 1), "f" + Print(i)]
    && commits[at + 5] == Node("f" + Print(i), [])
  }

  /** Every cycle is there, the newest first, and the root comes last. */
  lemma {:induction false} HistoryHoldsItsCycles(n: nat)
    ensures |History(n)| == 6 * n + 1 && History(n)[6 * n] == Node("root", [])
    ensures forall i :: 0 <= i < n ==> HoldsCycle(History(n), n, i)
  {
    hide HoldsCycle, Cycle;
    if n > 0 {
      HistoryHoldsItsCycles(n - 1);
      FirstCycle(n - 1, History(n - 1));
      forall i | 0 <= i < n - 1 ensures HoldsCycle(History(n), n, i) {
        LaterCycle(n - 1, History(n - 1), i);
      }
    }
  }

  lemma FirstCycle(n: nat, rest: seq<Node>)
    ensures HoldsCycle(Cycle(n) + rest, n + 1, n) && |Cycle(n)| == 6
  {
    assert Cycle(n) <= Cycle(n) + rest;
  }

  lemma LaterCycle(n: nat, rest: seq<Node>, i: nat)
    requires i < n && HoldsCycle(rest, n, i)
    ensures HoldsCycle(Cycle(n) + rest, n + 1, i)
  {
    hide Cycle, Print;
    FirstCycle(n, rest);
    CycleShifts(Cycle(n), rest, 6 * (n - 1 - i));
  }

  lemma CycleShifts(front: seq<Node>, rest: seq<Node>, at: nat)
    requires |front| == 6 && at + 6 <= |rest|
    ensures var all := front + rest;
            && all[at + 6] == rest[at] && all[at + 7] == rest[at + 1] && all[at + 8] == rest[at + 2]
            && all[at + 9] == rest[at + 3] && all[at + 10] == rest[at + 4] && all[at + 11] == rest[at + 5]
  {
  }

  method MergeHeavy(cycles: nat) returns (commits: seq<Node>)
    ensures commits == History(cycles)
    ensures forall i :: 0 <= i < cycles ==> HoldsCycle(commits, cycles, i)
    ensures |commits| == 6 * cycles + 1 && commits[6 * cycles] == Node("root", [])
    ensures |commits| == 6 * cycles + 1 && ChildrenFirst(commits) && UniqueIds(commits) && Merges(commits) == cycles
  {
    hide Name, HoldsCycle;
    commits := [];
    for i := cycles downto 0
      invariant commits + History(i) == History(cycles)
      invariant |commits| == 6 * (cycles - i)
    {
      ghost var before := commits;
      var mainline := if i == 0 then ROOT else Name(M, i - 1);
      commits := commits + [Node(Name(T, i), [Name(D, i)])];
      commits := commits + [Node(Name(E, i), [Name(M, i)])];
      commits := commits + [Node(Name(D, i), [Name(DP, i)])];
      commits := commits + [Node(Name(DP, i), [])];
      commits := commits + [Node(Name(M, i), [mainline, Name(F, i)])];
      commits := commits + [Node(Name(F, i), [])];
      assert commits == before + Cycle(i);
      assert commits + History(i) == before + (Cycle(i) + History(i));
    }
    commits := commits + [Node(ROOT, [])];
    HistoryIsOrdered(cycles);
    HistoryIsUnique(cycles);
    HistoryMerges(cycles);
    HistoryHoldsItsCycles(cycles);
  }

  lemma {:induction false} HistoryIsOrdered(n: nat)
    ensures ChildrenFirst(History(n)) && Lists(History(n), Mainline(n))
  {
    hide Name;
    if n > 0 {
      HistoryIsOrdered(n - 1);
      PrependCycle(n - 1, History(n - 1));
      assert Cycle(n - 1)[4].id == Mainline(n) && History(n)[4] == Cycle(n - 1)[4];
    } else {
      assert History(0)[0].id == ROOT;
    }
  }

  lemma PrependCycle(i: nat, rest: seq<Node>)
    requires ChildrenFirst(rest) && Lists(rest, Mainline(i))
    ensures ChildrenFirst(Cycle(i) + rest)
  {
    hide Name;
    var all := Cycle(i) + rest;
    var m :| 0 <= m < |rest| && rest[m].id == Mainline(i);
    assert all[6 + m].id == Mainline(i) && all[2].id == Name(D, i) && all[3].id == Name(DP, i)
        && all[4].id == Name(M, i) && all[5].id == Name(F, i);
    forall k, p | 0 <= k < |all| && p in all[k].parents ensures exists j :: k < j < |all| && all[j].id == p {
      if k >= 6 {
        assert all[k] == rest[k - 6];
        var j :| k - 6 < j < |rest| && rest[j].id == p;
        assert all[j + 6].id == p;
      }
    }
  }

  /** Every id of the first n cycles names one of them, or is the root. */
  lemma {:induction false} HistoryIds(n: nat, k: nat) returns (kind: Kind, i: nat)
    requires k < |History(n)|
    ensures History(n)[k].id == ROOT || (i < n && History(n)[k].id == Name(kind, i))
    decreases n
  {
    hide Name;
    kind, i := T, 0;
    if n > 0 {
      if k >= 6 {
        kind, i := HistoryIds(n - 1, k - 6);
      } else {
        kind, i := [T, E, D, DP, M, F][k], n - 1;
      }
    }
  }

  lemma {:induction false} HistoryIsUnique(n: nat)
    ensures UniqueIds(History(n))
  {
    hide Name;
    if n > 0 {
      HistoryIsUnique(n - 1);
      var all, rest := History(n), History(n - 1);
      forall i, j | 0 <= i < j < |all| ensures all[i].id != all[j].id {
        if i < 6 {
          var kind := [T, E, D, DP, M, F][i];
          assert all[i].id == Name(kind, n - 1);
          if j < 6 {
            NamesDiffer(kind, n - 1, [T, E, D, DP, M, F][j], n - 1);
          } else {
            var other, c := HistoryIds(n - 1, j - 6);
            NamesDiffer(kind, n - 1, other, c);
          }
        } else {
          assert all[i] == rest[i - 6] && all[j] == rest[j - 6];
        }
      }
    }
  }

  lemma {:induction false} MergesAppend(a: seq<Node>, b: seq<Node>)
    ensures Merges(a + b) == Merges(a) + Merges(b)
  {
    if a == [] {
      assert a + b == b;
    } else {
      assert (a + b)[1..] == a[1..] + b;
      MergesAppend(a[1..], b);
    }
  }

  lemma CycleMerges(i: nat)
    ensures Merges(Cycle(i)) == 1
  {
    hide Name;
    var c := Cycle(i);
    MergesAppend(c[..4], c[4..]);
    NoMerges(c[..4]);
    assert c == c[..4] + c[4..];
    assert c[4..] == [c[4]] + [c[5]];
    MergesAppend([c[4]], [c[5]]);
    NoMerges([c[5]]);
    assert Merges([c[4]]) == 1 + Merges([c[4]][1..]) && [c[4]][1..] == [];
  }

  /** One merge per cycle, so as many as there are cycles. */
  lemma {:induction false} HistoryMerges(n: nat)
    ensures Merges(History(n)) == n
  {
    if n == 0 {
      assert History(0)[1..] == [];
    } else {
      MergesAppend(Cycle(n - 1), History(n - 1));
      CycleMerges(n - 1);
      HistoryMerges(n - 1);
    }
  }
}
