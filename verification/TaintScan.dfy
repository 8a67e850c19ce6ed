/** The scan as the program runs it: a set of tainted names grown in place, and a list of matches
    pushed by a walk. Every method is proved against the functions of `TaintRules`. */
module TaintScan {
  import opened Options
  import opened Syntax
  import opened RulePasses
  import opened TaintRules

  method Unwrap(node: Node) returns (current: Node)
    ensures current == Unwrapped(node)
  {
    current := node;
    while IsWrapper(current)
      invariant Unwrapped(current) == Unwrapped(node)
      decreases current
    {
      current := current.expression;
    }
  }

  lemma ElementNamesAppend(es: seq<Element>, only: Option<string>, i: nat)
    requires i < |es|
    ensures ElementNames(es[..i + 1], only) == ElementNames(es[..i], only) + OneElementNames(es[i], only)
  {
    if i == 0 {
      assert es[..1] == [es[0]];
    } else {
      ElementNamesAppend(es[1..], only, i - 1);
      assert es[..i + 1][1..] == es[1..][..i] && es[..i][1..] == es[1..][..i - 1];
    }
  }

  lemma SlotNamesAppend(slots: seq<Option<Binding>>, only: Option<string>, i: nat)
    requires i < |slots|
    ensures SlotNames(slots[..i + 1], only) == SlotNames(slots[..i], only) + OneSlotNames(slots[i], only)
  {
    if i == 0 {
      assert slots[..1] == [slots[0]];
    } else {
      SlotNamesAppend(slots[1..], only, i - 1);
      assert slots[..i + 1][1..] == slots[1..][..i] && slots[..i][1..] == slots[1..][..i - 1];
    }
  }

  /** Appends the names a pattern binds to `out`. */
  method BindingNames(name: Binding, out: seq<string>, only: Option<string>) returns (result: seq<string>)
    ensures result == out + BoundNames(name, only)
    decreases name
  {
    result := out;
    match name
    case Name(text) => result := result + [text];
    case ObjectPattern(es) =>
      for i := 0 to |es|
        invariant result == out + ElementNames(es[..i], only)
      {
        ElementNamesAppend(es, only, i);
        if only.None? || PropertyOf(es[i]) == only {
          result := BindingNames(es[i].target, result, None);
        }
      }
      assert es[..|es|] == es;
    case ArrayPattern(slots) =>
      for i := 0 to |slots|
        invariant result == out + SlotNames(slots[..i], only)
      {
        SlotNamesAppend(slots, only, i);
        if slots[i].Some? {
          result := BindingNames(slots[i].value, result, only);
        }
      }
      assert slots[..|slots|] == slots;
  }

  class Scan {
    const rx: Patterns
    var tainted: set<string>
    var found: seq<Node>

    constructor (rx: Patterns)
      ensures this.rx == rx && tainted == {} && found == []
    {
      this.rx := rx;
      tainted, found := {}, [];
    }

    /** The names a declaration taints as things stand. */
    method NamesTainted(declaration: Node) returns (names: seq<string>)
      ensures ToSet(names) == Effect(RuleOf(rx, declaration), tainted)
    {
      names := [];
      if !declaration.VariableDeclaration? || declaration.initializer.None? { return; }
      var initializer := Unwrap(declaration.initializer.value);
      assert Derives(rx, initializer, tainted) <==> Fires(RuleOf(rx, declaration), tainted) by {
        DerivesByMention(rx, initializer, tainted);
      }
      if declaration.binding.ObjectPattern? {
        names := BindingNames(declaration.binding, names, Some("message"));
        if Derives(rx, initializer, tainted) {
          names := BindingNames(declaration.binding, names, None);
        }
      } else if Derives(rx, initializer, tainted) {
        names := BindingNames(declaration.binding, names, None);
      }
    }

    /** Adds what a declaration taints; tells whether that was anything new. */
    method TaintVariable(declaration: Node) returns (changed: bool)
      modifies this`tainted
      ensures tainted == old(tainted) + Effect(RuleOf(rx, declaration), old(tainted))
      ensures changed <==> tainted != old(tainted)
    {
      hide RuleOf, Effect, Fires, Derives, Mentions, BoundNames;
      var names := NamesTainted(declaration);
      changed := false;
      for i := 0 to |names|
        invariant forall x :: x in tainted <==> x in old(tainted) || x in names[..i]
        invariant changed <==> tainted != old(tainted)
      {
        if names[i] !in tainted {
          tainted := tainted + {names[i]};
          changed := true;
          assert names[i] in tainted && names[i] !in old(tainted);
        }
      }
      assert tainted == old(tainted) + ToSet(names);
    }

    /** Taints the names every catch clause below `node` binds. */
    method Seed(node: Node)
      modifies this`tainted
      ensures tainted == old(tainted) + SeedsIn(Preorder(node))
      decreases node
    {
      hide Preorder, Children;
      if node.Catch? && node.variable.Some? {
        var names := BindingNames(node.variable.value, [], None);
        tainted := tainted + ToSet(names);
      }
      var cs := Children(node);
      assert SeedsIn(Forest(cs[..0])) == {};
      for i := 0 to |cs|
        invariant tainted == old(tainted) + SeedOf(node) + SeedsIn(Forest(cs[..i]))
      {
        assert cs[i] in cs;
        Seed(cs[i]);
        ForestSplits(cs, i);
        SeedsAppend(Forest(cs[..i]), Preorder(cs[i]));
      }
      assert cs[..|cs|] == cs;
      PreorderUnfolds(node);
    }

    /** One in-place pass below `node`. */
    method Walk(node: Node) returns (changed: bool)
      modifies this`tainted
      ensures tainted == Pass(RulesOf(rx, Preorder(node)), old(tainted))
      ensures changed <==> tainted != old(tainted)
      decreases node
    {
      hide Preorder, Children, Forest, Pass;
      changed := TaintVariable(node);
      var cs := Children(node);
      assert cs[..0] == [];
      NothingWalked(rx, tainted);
      ghost var first := tainted;
      for i := 0 to |cs|
        invariant tainted == Pass(RulesOf(rx, Forest(cs[..i])), first)
        invariant old(tainted) <= first <= tainted
        invariant changed <==> tainted != old(tainted)
      {
        assert cs[i] in cs;
        ghost var before := tainted;
        var more := Walk(cs[i]);
        ForestSplits(cs, i);
        RulesConcat(rx, Forest(cs[..i]), Preorder(cs[i]));
        PassAppends(RulesOf(rx, Forest(cs[..i])), RulesOf(rx, Preorder(cs[i])), first);
        PassGrows(RulesOf(rx, Preorder(cs[i])), before);
        changed := changed || more;
      }
      assert cs[..|cs|] == cs;
      PreorderUnfolds(node);
      PassHead(RulesOf(rx, Preorder(node)), old(tainted));
    }

    /** Reports the qualifying nodes below `node`, unless a call among them throws. */
    method Visit(node: Node) returns (finished: bool)
      modifies this`found
      ensures finished <==> NoneThrows(rx, Preorder(node), tainted)
      ensures finished ==> found == old(found) + ReportedIn(rx, Preorder(node), tainted)
      decreases node
    {
      hide Reported, Throws, Preorder, Children, Forest, NoneThrows, ReportedIn;
      PreorderUnfolds(node);
      NothingVisited(rx, tainted);
      var cs := Children(node);
      ThrowsHead(rx, node, Forest(cs), tainted);
      if Throws(rx, node, tainted) { return false; }
      if Reported(rx, node, tainted) { found := found + [node]; }
      ghost var first := found;
      assert cs[..0] == [];
      for i := 0 to |cs|
        invariant NoneThrows(rx, Forest(cs[..i]), tainted)
        invariant found == first + ReportedIn(rx, Forest(cs[..i]), tainted)
      {
        assert cs[i] in cs;
        ForestSplits(cs, i);
        ThrowsAppend(rx, Forest(cs[..i]), Preorder(cs[i]), tainted);
        finished := Visit(cs[i]);
        if !finished {
          ForestPrefixThrows(rx, cs, i + 1, tainted);
          return false;
        }
        ReportsAppend(rx, Forest(cs[..i]), Preorder(cs[i]), tainted);
      }
      assert cs[..|cs|] == cs;
      ReportsHead(rx, node, Forest(cs), tainted);
      return true;
    }

    /** The whole scan of one file. */
    method ClassifierMatches(parsed: Node) returns (finished: bool)
      requires tainted == {} && found == []
      modifies this
      ensures tainted == Tainted(rx, parsed)
      ensures Answer(rx, parsed) == if finished then Some(found) else None
    {
      hide AfterPasses, Preorder, RulesOf, SeedsIn, NoneThrows, ReportedIn, Pass;
      ghost var rules, seeds := RulesOf(rx, Preorder(parsed)), SeedsIn(Preorder(parsed));
      NextPass(rules, seeds, 0);
      Seed(parsed);
      var pass := 0;
      while pass < MAX_PASSES
        invariant pass <= MAX_PASSES
        invariant tainted == AfterPasses(rules, seeds, pass)
        invariant found == []
      {
        NextPass(rules, seeds, pass);
        var changed := Walk(parsed);
        if !changed {
          QuietPassIsFinal(rules, seeds, pass, MAX_PASSES);
          break;
        }
        pass := pass + 1;
      }
      assert tainted == Tainted(rx, parsed);
      finished := Visit(parsed);
      assert [] + ReportedIn(rx, Preorder(parsed), tainted) == ReportedIn(rx, Preorder(parsed), tainted);
    }
  }

  lemma ReportsHead(rx: Patterns, n: Node, ns: seq<Node>, t: set<string>)
    ensures ReportedIn(rx, [n] + ns, t) == (if Reported(rx, n, t) then [n] else []) + ReportedIn(rx, ns, t)
  {
    hide Reported;
    assert ([n] + ns)[1..] == ns;
  }

  lemma NothingWalked(rx: Patterns, t: set<string>)
    ensures Pass(RulesOf(rx, Forest([])), t) == t
  {
  }

  lemma NothingVisited(rx: Patterns, t: set<string>)
    ensures Forest([]) == [] && NoneThrows(rx, [], t) && ReportedIn(rx, [], t) == []
  {
  }

  lemma ThrowsHead(rx: Patterns, n: Node, ns: seq<Node>, t: set<string>)
    ensures NoneThrows(rx, [n] + ns, t) <==> !Throws(rx, n, t) && NoneThrows(rx, ns, t)
  {
    hide Throws;
    assert ([n] + ns)[1..] == ns;
  }

  lemma {:induction false} ThrowsAppend(rx: Patterns, ms: seq<Node>, ns: seq<Node>, t: set<string>)
    ensures NoneThrows(rx, ms + ns, t) <==> NoneThrows(rx, ms, t) && NoneThrows(rx, ns, t)
  {
    hide Throws;
    if ms == [] {
      assert ms + ns == ns;
    } else {
      assert ms + ns == [ms[0]] + (ms[1..] + ns);
      ThrowsHead(rx, ms[0], ms[1..] + ns, t);
      ThrowsAppend(rx, ms[1..], ns, t);
    }
  }

  /** A call that throws ends the walk, whatever comes after it. */
  lemma ForestPrefixThrows(rx: Patterns, cs: seq<Node>, i: nat, t: set<string>)
    requires i <= |cs| && !NoneThrows(rx, Forest(cs[..i]), t)
    ensures !NoneThrows(rx, Forest(cs), t)
  {
    assert cs == cs[..i] + cs[i..];
    ForestAppend(cs[..i], cs[i..]);
    ThrowsAppend(rx, Forest(cs[..i]), Forest(cs[i..]), t);
  }

  lemma ForestSplits(cs: seq<Node>, i: nat)
    requires i < |cs|
    ensures Forest(cs[..i + 1]) == Forest(cs[..i]) + Preorder(cs[i])
  {
    assert cs[..i + 1] == cs[..i] + [cs[i]];
    ForestAppend(cs[..i], [cs[i]]);
    assert Forest([cs[i]]) == Preorder(cs[i]) + Forest([]);
  }
}
