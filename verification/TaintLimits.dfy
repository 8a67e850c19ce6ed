/** What the scan misses: a family of programs that outruns the cap, the exact condition for reaching the
    fixpoint, and the files it does not get to the end of. */
module TaintLimits {
  import opened Options
  import opened Syntax
  import opened TaintRules
  import opened RulePasses

  // ---- A family that outruns the cap ---------------------------------------------------------------------

  function ChainName(i: nat): (name: string)
    ensures |name| == i + 1
  {
    if i == 0 then "x" else ChainName(i - 1) + "x"
  }

  /** No name of the family reads like a message by itself. */
  ghost predicate NoneNamed(rx: Patterns) {
    forall k: nat :: !rx.messageNamed(ChainName(k))
  }

  /** `const x0 = String()` for 0, and `const x(i) = x(i-1)` above. */
  function ChainDeclaration(i: nat): Node {
    VariableDeclaration(Name(ChainName(i)), [],
                        Some(if i == 0 then Call(Identifier("String"), []) else Identifier(ChainName(i - 1))))
  }

  /** The n declarations written last use first. */
  function Backwards(n: nat): seq<Node> {
    if n == 0 then [] else [ChainDeclaration(n - 1)] + Backwards(n - 1)
  }

  function FirstNames(m: nat): set<string> {
    if m == 0 then {} else FirstNames(m - 1) + {ChainName(m - 1)}
  }

  lemma {:induction false} ChainNamesDiffer(i: nat, m: nat)
    ensures ChainName(i) in FirstNames(m) <==> i < m
  {
    if m > 0 { ChainNamesDiffer(i, m - 1); }
  }

  function ChainRule(i: nat): Rule<string> {
    Rule({}, {ChainName(i)}, i == 0, if i == 0 then {} else {ChainName(i - 1)})
  }

  function ChainRules(n: nat): seq<Rule<string>> {
    if n == 0 then [] else [ChainRule(n - 1)] + ChainRules(n - 1)
  }

  lemma ChainDeclarationNodes(i: nat) returns (inside: seq<Node>)
    ensures Preorder(ChainDeclaration(i)) == [ChainDeclaration(i)] + inside
    ensures forall n <- inside :: !n.VariableDeclaration? && !n.Catch?
  {
    hide Preorder, ChainName;
    var d := ChainDeclaration(i);
    var e := d.initializer.value;
    assert [] + [e] == [e];
    OnlyChild(e, d);
    if i == 0 {
      var callee := Identifier("String");
      OnlyChild(callee, e);
      LeafAlone(callee);
      inside := [e, callee];
    } else {
      LeafAlone(e);
      inside := [e];
    }
  }

  lemma ChainDeclarationRule(rx: Patterns, i: nat)
    requires NoneNamed(rx)
    ensures RuleOf(rx, ChainDeclaration(i)) == ChainRule(i)
  {
    assert BoundNames(ChainDeclaration(i).binding, None) == [ChainName(i)];
  }

  lemma QuietRest(rx: Patterns, d: Node, inside: seq<Node>)
    requires forall n <- inside :: !n.VariableDeclaration? && !n.Catch?
    ensures Active(RulesOf(rx, [d] + inside)) == Active([RuleOf(rx, d)])
    ensures SeedsIn([d] + inside) == SeedOf(d)
  {
    QuietNodes(rx, inside);
    SeedsAppend([d], inside);
    RulesAppend(rx, [d], inside);
  }

  lemma ChainDeclarationRules(rx: Patterns, i: nat, ns: seq<Node>)
    requires NoneNamed(rx)
    requires ns == Preorder(ChainDeclaration(i))
    ensures Active(RulesOf(rx, ns)) == [ChainRule(i)]
    ensures SeedsIn(ns) == {}
  {
    var inside := ChainDeclarationNodes(i);
    QuietRest(rx, ChainDeclaration(i), inside);
    ChainDeclarationRule(rx, i);
    assert ChainName(i) in ChainRule(i).conditional;
  }

  lemma {:induction false} QuietNodes(rx: Patterns, ns: seq<Node>)
    requires forall n <- ns :: !n.VariableDeclaration? && !n.Catch?
    ensures Active(RulesOf(rx, ns)) == [] && SeedsIn(ns) == {}
  {
    if ns != [] { QuietNodes(rx, ns[1..]); }
  }

  lemma {:induction false} NothingToPass(p: nat)
    ensures AfterPasses<string>([], {}, p) == {}
  {
    if p > 0 { NothingToPass(p - 1); }
  }

  lemma LeafAlone(leaf: Node)
    requires Children(leaf) == []
    ensures Preorder(leaf) == [leaf]
  {
    PreorderUnfolds(leaf);
  }

  lemma OnlyChild(child: Node, parent: Node)
    requires Children(parent) == [child]
    ensures Preorder(parent) == [parent] + Preorder(child)
  {
    PreorderUnfolds(parent);
    assert Forest([child]) == Preorder(child) + Forest([]);
  }

  lemma BackwardsForest(n: nat)
    requires n > 0
    ensures Forest(Backwards(n)) == Preorder(ChainDeclaration(n - 1)) + Forest(Backwards(n - 1))
  {
    assert Backwards(n)[0] == ChainDeclaration(n - 1) && Backwards(n)[1..] == Backwards(n - 1);
  }

  lemma JoinRules(rx: Patterns, head: seq<Node>, tail: seq<Node>, n: nat)
    requires n > 0 && SeedsIn(head) == {} && SeedsIn(tail) == {}
    requires Active(RulesOf(rx, head)) == [ChainRule(n - 1)] && Active(RulesOf(rx, tail)) == ChainRules(n - 1)
    ensures Active(RulesOf(rx, head + tail)) == ChainRules(n) && SeedsIn(head + tail) == {}
  {
    SeedsAppend(head, tail);
    RulesAppend(rx, head, tail);
  }

  lemma {:induction false} BackwardsHasRules(rx: Patterns, n: nat, ns: seq<Node>)
    requires NoneNamed(rx)
    requires ns == Forest(Backwards(n))
    ensures Active(RulesOf(rx, ns)) == ChainRules(n) && SeedsIn(ns) == {}
    decreases n, 1
  {
    if n == 0 {
      assert ns == [];
    } else {
      var head, tail := Preorder(ChainDeclaration(n - 1)), Forest(Backwards(n - 1));
      assert ns == head + tail by { BackwardsForest(n); }
      BackwardsStep(rx, n, head, tail);
    }
  }

  lemma {:induction false} BackwardsStep(rx: Patterns, n: nat, head: seq<Node>, tail: seq<Node>)
    requires NoneNamed(rx)
    requires n > 0 && head == Preorder(ChainDeclaration(n - 1)) && tail == Forest(Backwards(n - 1))
    ensures Active(RulesOf(rx, head + tail)) == ChainRules(n) && SeedsIn(head + tail) == {}
    decreases n, 0
  {
    hide *;
    ChainDeclarationRules(rx, n - 1, head);
    BackwardsHasRules(rx, n - 1, tail);
    JoinRules(rx, head, tail, n);
  }

  lemma RulesAppend(rx: Patterns, ms: seq<Node>, ns: seq<Node>)
    ensures Active(RulesOf(rx, ms + ns)) == Active(RulesOf(rx, ms)) + Active(RulesOf(rx, ns))
  {
    RulesConcat(rx, ms, ns);
    ActiveAppends(RulesOf(rx, ms), RulesOf(rx, ns));
  }

  lemma ChainRuleEffect(i: nat, m: nat)
    ensures FirstNames(m) + Effect(ChainRule(i), FirstNames(m)) == FirstNames(if i == m then m + 1 else m)
  {
    if i > 0 { ChainNamesDiffer(i - 1, m); }
    assert Fires(ChainRule(i), FirstNames(m)) <==> i <= m by {
      if 0 < i <= m { assert ChainName(i - 1) in ChainRule(i).sources * FirstNames(m); }
    }
    ChainNamesDiffer(i, m);
  }

  lemma {:induction false} ChainPass(n: nat, m: nat)
    ensures Pass(ChainRules(n), FirstNames(m)) == FirstNames(if m < n then m + 1 else m)
  {
    if n > 0 {
      PassHead(ChainRules(n), FirstNames(m));
      assert ChainRules(n)[1..] == ChainRules(n - 1);
      ChainRuleEffect(n - 1, m);
      ChainPass(n - 1, if n - 1 == m then m + 1 else m);
    }
  }

  lemma {:induction false} ChainPasses(n: nat, p: nat)
    ensures AfterPasses(ChainRules(n), {}, p) == FirstNames(if p < n then p else n)
  {
    if p > 0 {
      ChainPasses(n, p - 1);
      ChainPass(n, if p - 1 < n then p - 1 else n);
    }
  }

  lemma {:induction false} ActiveChainRules(n: nat)
    ensures Active(ChainRules(n)) == ChainRules(n)
  {
    if n > 0 {
      ActiveChainRules(n - 1);
      assert ChainName(n - 1) in ChainRule(n - 1).conditional;
    }
  }

  lemma BackwardsProgram(rx: Patterns, n: nat)
    requires NoneNamed(rx)
    ensures Active(RulesOf(rx, Preorder(Other(Backwards(n))))) == Active(ChainRules(n))
    ensures SeedsIn(Preorder(Other(Backwards(n)))) == {}
  {
    var root := Other(Backwards(n));
    PreorderUnfolds(root);
    hide Preorder, RuleOf, Forest, Backwards, RulesOf, SeedsIn, ChainRules, Active, NoneNamed;
    assert [] + Active(ChainRules(n)) == Active(ChainRules(n));
    BackwardsHasRules(rx, n, Forest(Backwards(n)));
    RulesAppend(rx, [root], Forest(Backwards(n)));
    QuietNodes(rx, [root]);
    SeedsAppend([root], Forest(Backwards(n)));
    ActiveChainRules(n);
  }

  lemma ChainSaturates(rules: seq<Rule<string>>, n: nat, p: nat)
    requires Active(rules) == Active(ChainRules(n))
    ensures AfterPasses(rules, {}, p) == FirstNames(if p < n then p else n)
    ensures Saturated(rules, {}) == FirstNames(n)
  {
    hide Active, Pass, FirstNames;
    var b := |Bindable(rules) - {}|;
    var q := if b < n then n else b;
    ChainPasses(n, p);
    ChainPasses(n, q);
    SameActivePasses(rules, ChainRules(n), {}, p);
    SameActivePasses(rules, ChainRules(n), {}, q);
    UncappedLoopEnds(rules, {}, b);
    QuietPassIsFinal(rules, {}, b, q);
  }

  /** n declarations written last use first need n passes: the scan taints the first eight names
      and no other, although all n are in the fixpoint. */
  lemma BackwardDeclarationsOutrunTheCap(rx: Patterns, n: nat)
    requires NoneNamed(rx)
    ensures Tainted(rx, Other(Backwards(n))) == FirstNames(if n < MAX_PASSES then n else MAX_PASSES)
    ensures Saturated(RulesOf(rx, Preorder(Other(Backwards(n)))), SeedsIn(Preorder(Other(Backwards(n)))))
              == FirstNames(n)
    ensures n > MAX_PASSES ==> ChainName(MAX_PASSES) in FirstNames(n) - Tainted(rx, Other(Backwards(n)))
  {
    hide RulesOf, SeedsIn, Preorder, Pass, Active, FirstNames, ChainName, AfterPasses;
    BackwardsProgram(rx, n);
    ChainSaturates(RulesOf(rx, Preorder(Other(Backwards(n)))), n, MAX_PASSES);
    ChainNamesDiffer(MAX_PASSES, n);
    ChainNamesDiffer(MAX_PASSES, if n < MAX_PASSES then n else MAX_PASSES);
  }

  /** The scan reaches the fixpoint it is written for exactly when every name reachable at all is
      reachable with fewer than eight steps back to an earlier declaration. */
  lemma ScanIsCompleteExactlyWhen(rx: Patterns, root: Node)
    ensures var rules, seeds := RulesOf(rx, Preorder(root)), SeedsIn(Preorder(root));
            && Tainted(rx, root) <= Saturated(rules, seeds)
            && (Tainted(rx, root) == Saturated(rules, seeds)
                <==> forall x :: Reachable(rules, seeds, x) ==> !AlwaysBackward(rules, seeds, MAX_PASSES, x))
  {
    hide Yields, Pass, RulesOf, SeedsIn, Preorder;
    var rules, seeds := RulesOf(rx, Preorder(root)), SeedsIn(Preorder(root));
    SaturatedIsLeastFixpoint(rules, seeds);
    ClosedBoundsPasses(rules, seeds, Saturated(rules, seeds), MAX_PASSES);
    CapLosesExactly(rules, seeds, MAX_PASSES);
    if Tainted(rx, root) == Saturated(rules, seeds) {
      forall x | Reachable(rules, seeds, x) ensures !AlwaysBackward(rules, seeds, MAX_PASSES, x) {
        assert x !in Saturated(rules, seeds) - Tainted(rx, root);
      }
    } else {
      var x :| x in Saturated(rules, seeds) - Tainted(rx, root);
    }
  }

  // ---- Files that are not scanned to their end -----------------------------------------------------

  /** Without declarations and catch clauses nothing is tainted. */
  lemma QuietFile(rx: Patterns, root: Node)
    requires forall n <- Preorder(root) :: !n.VariableDeclaration? && !n.Catch?
    ensures Tainted(rx, root) == {}
  {
    hide AfterPasses, Preorder, RulesOf, SeedsIn;
    QuietNodes(rx, Preorder(root));
    assert Active<string>([]) == [];
    SameActivePasses(RulesOf(rx, Preorder(root)), [], {}, MAX_PASSES);
    NothingToPass(MAX_PASSES);
  }

  /** `name.search()`. */
  function BareSearch(name: string, search: string): Node {
    Call(PropertyAccess(Identifier(name), search), [])
  }

  /** `text.search("x")`. */
  function TextSearch(text: string, search: string): Node {
    Call(PropertyAccess(Identifier(text), search), [StringLiteral("x")])
  }

  lemma BareSearchNodes(name: string, search: string)
    ensures Preorder(BareSearch(name, search))
         == [BareSearch(name, search), PropertyAccess(Identifier(name), search), Identifier(name)]
  {
    hide Preorder;
    var receiver := Identifier(name);
    OnlyChild(receiver, PropertyAccess(receiver, search));
    OnlyChild(PropertyAccess(receiver, search), BareSearch(name, search));
    PreorderUnfolds(receiver);
  }

  lemma TextSearchNodes(text: string, search: string)
    ensures Preorder(TextSearch(text, search))
         == [TextSearch(text, search), PropertyAccess(Identifier(text), search), Identifier(text), StringLiteral("x")]
  {
    hide Preorder;
    var receiver, phrase := Identifier(text), StringLiteral("x");
    var access := PropertyAccess(receiver, search);
    OnlyChild(receiver, access);
    PreorderUnfolds(receiver);
    PreorderUnfolds(phrase);
    PreorderUnfolds(TextSearch(text, search));
    TwoTrees(access, phrase);
  }

  lemma TwoTrees(a: Node, b: Node)
    ensures Forest([a, b]) == Preorder(a) + Preorder(b)
  {
    hide Preorder;
    assert [a, b][1..] == [b] && Forest([b]) == Preorder(b) + Forest([]);
  }

  /** A file with nothing but a search call that has no argument, on a name that says nothing, is not
      scanned to its end. */
  lemma ArgumentlessSearchThrows(rx: Patterns, name: string, search: string)
    requires !rx.messageNamed(name) && search in SEARCH
    ensures !Finishes(rx, Other([BareSearch(name, search)]))
  {
    hide AfterPasses, SEARCH, Preorder, NoneThrows, Throws, Tainted;
    var root := Other([BareSearch(name, search)]);
    OnlyChild(BareSearch(name, search), root);
    BareSearchNodes(name, search);
    QuietFile(rx, root);
    SearchThrows(rx, name, search);
    NoneThrowsAnywhere(rx, Preorder(root), {});
    assert Preorder(root)[1] == BareSearch(name, search);
  }

  lemma SearchThrows(rx: Patterns, name: string, search: string)
    requires !rx.messageNamed(name) && search in SEARCH
    ensures Throws(rx, BareSearch(name, search), {})
  {
  }

  lemma SearchMatches(rx: Patterns, text: string, search: string)
    requires rx.messageNamed(text) && search in SEARCH
    ensures Reported(rx, TextSearch(text, search), {})
  {
  }

  /** The walk of a file with one search of a text. */
  function OneSearchNodes(text: string, search: string): seq<Node> {
    [Other([TextSearch(text, search)]), TextSearch(text, search)]
    + [PropertyAccess(Identifier(text), search), Identifier(text), StringLiteral("x")]
  }

  lemma OneSearchIsQuiet(rx: Patterns, text: string, search: string)
    ensures Preorder(Other([TextSearch(text, search)])) == OneSearchNodes(text, search)
    ensures Tainted(rx, Other([TextSearch(text, search)])) == {}
  {
    hide Preorder, Tainted;
    var one := TextSearch(text, search);
    OnlyChild(one, Other([one]));
    TextSearchNodes(text, search);
    QuietFile(rx, Other([one]));
  }

  lemma OneSearchFinishes(rx: Patterns, text: string, search: string)
    ensures NoneThrows(rx, OneSearchNodes(text, search), {})
  {
    hide NoneThrows, Throws;
    NoneThrowsAnywhere(rx, OneSearchNodes(text, search), {});
    OnlyEmptyCallsThrow(rx);
  }

  lemma OneSearchReports(rx: Patterns, text: string, search: string)
    requires rx.messageNamed(text) && search in SEARCH
    ensures ReportedIn(rx, OneSearchNodes(text, search), {}) == [TextSearch(text, search)]
  {
    hide SEARCH, Reported;
    SearchMatches(rx, text, search);
    OneReport(rx, Other([TextSearch(text, search)]), TextSearch(text, search),
              [PropertyAccess(Identifier(text), search), Identifier(text), StringLiteral("x")]);
  }

  lemma OneSearchAnswers(rx: Patterns, text: string, search: string)
    requires rx.messageNamed(text) && search in SEARCH
    ensures Answer(rx, Other([TextSearch(text, search)])) == Some([TextSearch(text, search)])
  {
    hide SEARCH, Preorder, NoneThrows, Tainted, OneSearchNodes, ReportedIn;
    OneSearchIsQuiet(rx, text, search);
    OneSearchFinishes(rx, text, search);
    OneSearchReports(rx, text, search);
  }

  lemma OnlyEmptyCallsThrow(rx: Patterns)
    ensures forall n, t :: Throws(rx, n, t) ==> n.Call? && n.arguments == []
  {
  }

  lemma OneReport(rx: Patterns, root: Node, one: Node, rest: seq<Node>)
    requires root.Other? && Reported(rx, one, {}) && forall n <- rest :: !n.Call? && !n.Binary? && !n.Switch?
    ensures ReportedIn(rx, [root, one] + rest, {}) == [one]
  {
    ReportsAppend(rx, [root, one], rest, {});
    NoReports(rx, rest);
    ReportsAppend(rx, [root], [one], {});
    assert [root, one] == [root] + [one];
  }

  lemma {:induction false} NoReports(rx: Patterns, ns: seq<Node>)
    requires forall n <- ns :: !n.Call? && !n.Binary? && !n.Switch?
    ensures ReportedIn(rx, ns, {}) == []
  {
    if ns != [] { NoReports(rx, ns[1..]); }
  }
}
