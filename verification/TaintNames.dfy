/** Which names the scan taints, told from the file: the walk reaches every part of it, a pattern binds the
    names it is made of, and a name is tainted by a catch clause, a `message` member or a value that holds
    the text of an error. */
module TaintNames {
  import opened Options
  import opened Syntax
  import opened RulePasses
  import opened TaintRules
  import opened TaintReports
  import opened TaintLimits

  // ---- What the walk reaches -----------------------------------------------------------------------

  /** `c` is written directly inside `n`. */
  ghost predicate PartOf(n: Node, c: Node) {
    match n
    case Parenthesized(e) => c == e
    case NonNull(e) => c == e
    case As(e, _) => c == e
    case PropertyAccess(e, _) => c == e
    case ElementAccess(e, a) => c == e || c == a
    case Template(spans) => c in spans
    case Binary(l, _, r) => c == l || c == r
    case Call(f, args) => c == f || c in args
    case Switch(s, clauses) =>
      c == s || exists clause <- clauses :: c in clause.body || (clause.CaseClause? && c == clause.test)
    case VariableDeclaration(_, embedded, initializer) => c in embedded || initializer == Some(c)
    case Catch(_, embedded, block) => c in embedded || c == block
    case Other(children) => c in children
    case _ => false
  }

  lemma {:induction false} ClausePartsAreNodes(clauses: seq<Clause>, clause: Clause, c: Node)
    requires clause in clauses && (c in clause.body || (clause.CaseClause? && c == clause.test))
    ensures c in ClauseNodes(clauses)
  {
    if clauses[0] != clause { ClausePartsAreNodes(clauses[1..], clause, c); }
  }

  lemma PartsAreChildren(n: Node, c: Node)
    ensures PartOf(n, c) <==> c in Children(n)
  {
    if n.Switch? {
      if clause :| clause in n.clauses && (c in clause.body || (clause.CaseClause? && c == clause.test)) {
        ClausePartsAreNodes(n.clauses, clause, c);
      }
    }
  }

  lemma {:induction false} InForest(ns: seq<Node>, n: Node, c: Node)
    requires n in ns && c in Preorder(n)
    ensures c in Forest(ns)
  {
    hide Preorder;
    if ns[0] != n { InForest(ns[1..], n, c); }
  }

  lemma {:induction false} FromForest(ns: seq<Node>, c: Node) returns (n: Node)
    requires c in Forest(ns)
    ensures n in ns && c in Preorder(n)
  {
    hide Preorder;
    if c in Preorder(ns[0]) { n := ns[0]; } else { n := FromForest(ns[1..], c); }
  }

  /** The walk starts at the root and reaches every part of every node it reaches. */
  lemma {:induction false} WalkReachesParts(root: Node, n: Node, c: Node)
    requires n in Preorder(root) && PartOf(n, c)
    ensures root in Preorder(root) && c in Preorder(root)
    decreases root
  {
    hide PartOf, Preorder, Children;
    PreorderUnfolds(root);
    if n == root {
      PartsAreChildren(n, c);
      PreorderUnfolds(c);
      InForest(Children(root), c, c);
    } else {
      var child := FromForest(Children(root), n);
      WalkReachesParts(child, n, c);
      InForest(Children(root), child, c);
    }
  }

  // ---- What a pattern binds --------------------------------------------------------------------------

  /** The name stands somewhere in the pattern. */
  ghost predicate Binds(b: Binding, x: string)
    decreases b
  {
    match b
    case Name(text) => text == x
    case ObjectPattern(es) => exists i :: 0 <= i < |es| && Binds(es[i].target, x)
    case ArrayPattern(slots) => exists i :: 0 <= i < |slots| && slots[i].Some? && Binds(slots[i].value, x)
  }

  /** The element takes that member: by the name before the colon or, without one, by its own. */
  predicate TakesMember(e: Element, member: string) {
    e.property == Some(member) || (e.property.None? && e.target == Name(member))
  }

  /** The name is bound from that member of the value, or of one of its items. */
  ghost predicate BindsMember(b: Binding, member: string, x: string)
    decreases b
  {
    match b
    case Name(text) => text == x
    case ObjectPattern(es) => exists i :: 0 <= i < |es| && TakesMember(es[i], member) && Binds(es[i].target, x)
    case ArrayPattern(slots) =>
      exists i :: 0 <= i < |slots| && slots[i].Some? && BindsMember(slots[i].value, member, x)
  }

  lemma {:induction false} BoundNamesAre(b: Binding, x: string)
    ensures x in BoundNames(b, None) <==> Binds(b, x)
    decreases b
  {
    match b
    case Name(_) =>
    case ObjectPattern(es) => ElementNamesAre(es, x);
    case ArrayPattern(slots) => SlotNamesAre(slots, x);
  }

  lemma {:induction false} ElementNamesAre(es: seq<Element>, x: string)
    ensures x in ElementNames(es, None) <==> exists i :: 0 <= i < |es| && Binds(es[i].target, x)
    decreases es
  {
    hide Binds;
    if es != [] {
      assert es[0].target < es[0];
      BoundNamesAre(es[0].target, x);
      ElementNamesAre(es[1..], x);
      if i :| 0 <= i < |es| && Binds(es[i].target, x) && i > 0 { assert es[1..][i - 1] == es[i]; }
      if i :| 0 <= i < |es[1..]| && Binds(es[1..][i].target, x) { assert es[i + 1] == es[1..][i]; }
    }
  }

  lemma {:induction false} SlotNamesAre(slots: seq<Option<Binding>>, x: string)
    ensures x in SlotNames(slots, None) <==> exists i :: 0 <= i < |slots| && slots[i].Some? && Binds(slots[i].value, x)
    decreases slots
  {
    hide Binds;
    if slots != [] {
      OneSlotNamesAre(slots[0], x);
      SlotNamesAre(slots[1..], x);
      if i :| 0 <= i < |slots| && slots[i].Some? && Binds(slots[i].value, x) && i > 0 {
        assert slots[1..][i - 1] == slots[i];
      }
      if i :| 0 <= i < |slots[1..]| && slots[1..][i].Some? && Binds(slots[1..][i].value, x) {
        assert slots[i + 1] == slots[1..][i];
      }
    }
  }

  lemma {:induction false} OneSlotNamesAre(slot: Option<Binding>, x: string)
    ensures x in OneSlotNames(slot, None) <==> slot.Some? && Binds(slot.value, x)
    decreases slot
  {
    hide Binds, BoundNames;
    if slot.Some? { BoundNamesAre(slot.value, x); }
  }

  lemma {:induction false} OneMemberSlotNamesAre(slot: Option<Binding>, member: string, x: string)
    ensures x in OneSlotNames(slot, Some(member)) <==> slot.Some? && BindsMember(slot.value, member, x)
    decreases slot
  {
    hide BindsMember, BoundNames;
    if slot.Some? { MemberNamesAre(slot.value, member, x); }
  }

  lemma {:induction false} MemberNamesAre(b: Binding, member: string, x: string)
    ensures x in BoundNames(b, Some(member)) <==> BindsMember(b, member, x)
    decreases b
  {
    match b
    case Name(_) =>
    case ObjectPattern(es) => MemberElementNamesAre(es, member, x);
    case ArrayPattern(slots) => MemberSlotNamesAre(slots, member, x);
  }

  lemma {:induction false} MemberElementNamesAre(es: seq<Element>, member: string, x: string)
    ensures x in ElementNames(es, Some(member))
       <==> exists i :: 0 <= i < |es| && TakesMember(es[i], member) && Binds(es[i].target, x)
    decreases es
  {
    hide Binds, BoundNames;
    if es != [] {
      BoundNamesAre(es[0].target, x);
      MemberElementNamesAre(es[1..], member, x);
      if i :| 0 <= i < |es| && TakesMember(es[i], member) && Binds(es[i].target, x) && i > 0 {
        assert es[1..][i - 1] == es[i];
      }
      if i :| 0 <= i < |es[1..]| && TakesMember(es[1..][i], member) && Binds(es[1..][i].target, x) {
        assert es[i + 1] == es[1..][i];
      }
    }
  }

  lemma {:induction false} MemberSlotNamesAre(slots: seq<Option<Binding>>, member: string, x: string)
    ensures x in SlotNames(slots, Some(member))
       <==> exists i :: 0 <= i < |slots| && slots[i].Some? && BindsMember(slots[i].value, member, x)
    decreases slots
  {
    hide BindsMember, BoundNames;
    if slots != [] {
      OneMemberSlotNamesAre(slots[0], member, x);
      MemberSlotNamesAre(slots[1..], member, x);
      if i :| 0 <= i < |slots| && slots[i].Some? && BindsMember(slots[i].value, member, x) && i > 0 {
        assert slots[1..][i - 1] == slots[i];
      }
      if i :| 0 <= i < |slots[1..]| && slots[1..][i].Some? && BindsMember(slots[1..][i].value, member, x) {
        assert slots[i + 1] == slots[1..][i];
      }
    }
  }

  // ---- What taints a name -------------------------------------------------------------------------------

  /** A catch clause of the file binds the name. */
  ghost predicate IsCaught(root: Node, x: string) {
    exists n :: n in Preorder(root) && n.Catch? && n.variable.Some? && Binds(n.variable.value, x)
  }

  /** The declaration, which has an initializer, gives the name the text of an error: from a `message` member,
      or because the initializer holds one given the tainted names. */
  ghost predicate GivesText(rx: Patterns, t: set<string>, n: Node, x: string) {
    && n.VariableDeclaration? && n.initializer.Some?
    && (|| (n.binding.ObjectPattern? && BindsMember(n.binding, "message", x))
        || (HoldsText(rx, t, n.initializer.value) && Binds(n.binding, x)))
  }

  lemma {:induction false} SeedsAre(ns: seq<Node>, x: string)
    ensures x in SeedsIn(ns) <==> exists n :: n in ns && n.Catch? && n.variable.Some? && Binds(n.variable.value, x)
  {
    hide Binds, BoundNames;
    if ns != [] {
      if ns[0].Catch? && ns[0].variable.Some? { BoundNamesAre(ns[0].variable.value, x); }
      SeedsAre(ns[1..], x);
    }
  }

  lemma RuleGives(rx: Patterns, t: set<string>, n: Node, x: string)
    ensures x in Effect(RuleOf(rx, n), t) <==> GivesText(rx, t, n, x)
  {
    hide Binds, BindsMember, BoundNames, Derives, Mentions, HoldsText;
    if n.VariableDeclaration? && n.initializer.Some? {
      var init := Unwrapped(n.initializer.value);
      DerivesByMention(rx, init, t);
      WrappedDerives(rx, n.initializer.value, t);
      DerivesExactlyWhenHoldsText(rx, t, n.initializer.value);
      BoundNamesAre(n.binding, x);
      MemberNamesAre(n.binding, "message", x);
    }
  }

  lemma WrappedDerives(rx: Patterns, e: Node, t: set<string>)
    ensures Derives(rx, Unwrapped(e), t) == Derives(rx, e, t)
  {
    assert Unwrapped(Unwrapped(e)) == Unwrapped(e);
  }

  lemma {:induction false} RuleAt(rx: Patterns, ns: seq<Node>, i: nat)
    requires i < |ns|
    ensures RulesOf(rx, ns)[i] == RuleOf(rx, ns[i])
  {
    hide RuleOf;
    if i > 0 { RuleAt(rx, ns[1..], i - 1); }
  }

  /** What a rule adds given what a pass starts with is there at its end. */
  lemma RuleIsApplied<T>(rules: seq<Rule<T>>, t: set<T>, i: nat)
    requires i < |rules|
    ensures Effect(rules[i], t) <= Pass(rules, t)
  {
    hide Effect;
    PassGrows(rules[..i], t);
    EffectMonotone(rules[i], t, Pass(rules[..i], t));
    assert rules[..i + 1][..i] == rules[..i];
    PassPrefixGrows(rules, t, i + 1);
  }

  /** A caught name is tainted, whatever the passes, and a name given an error's text, given what is tainted
      after p passes, is tainted after one pass more. */
  lemma TextTaints(rx: Patterns, root: Node, p: nat, n: Node, x: string)
    ensures IsCaught(root, x) ==> x in TaintedAfter(rx, root, p)
    ensures n in Preorder(root) && GivesText(rx, TaintedAfter(rx, root, p), n, x) ==> x in TaintedAfter(rx, root, p + 1)
  {
    hide GivesText, Preorder, RulesOf, SeedsIn, Effect, Pass;
    var ns := Preorder(root);
    var rules, seeds := RulesOf(rx, ns), SeedsIn(ns);
    SeedsAre(ns, x);
    MorePassesGrow(rules, seeds, 0, p);
    NextPass(rules, seeds, p);
    if n in ns && GivesText(rx, TaintedAfter(rx, root, p), n, x) {
      var i :| 0 <= i < |ns| && ns[i] == n;
      RuleAt(rx, ns, i);
      RuleGives(rx, TaintedAfter(rx, root, p), n, x);
      RuleIsApplied(rules, TaintedAfter(rx, root, p), i);
    }
  }

  lemma {:induction false} AddedByRule<T>(rules: seq<Rule<T>>, t: set<T>, x: T) returns (i: nat)
    requires x in Pass(rules, t) && x !in t
    ensures i < |rules| && x in Effect(rules[i], Pass(rules, t))
  {
    hide Effect;
    var init := rules[..|rules| - 1];
    var last := |rules| - 1;
    if x in Pass(init, t) {
      i := AddedByRule(init, t, x);
      EffectMonotone(rules[i], Pass(init, t), Pass(rules, t));
    } else {
      i := last;
      EffectMonotone(rules[i], Pass(init, t), Pass(rules, t));
    }
  }

  /** Nothing else is tainted: a tainted name is caught, or some declaration gives it an error's text. */
  lemma {:induction false} TaintedNamesHoldText(rx: Patterns, root: Node, p: nat, x: string)
    requires x in TaintedAfter(rx, root, p)
    ensures IsCaught(root, x) || exists n :: n in Preorder(root) && GivesText(rx, TaintedAfter(rx, root, p), n, x)
  {
    hide GivesText, Preorder, RulesOf, SeedsIn, Effect, Pass;
    var ns := Preorder(root);
    var rules, seeds := RulesOf(rx, ns), SeedsIn(ns);
    if p == 0 {
      NextPass(rules, seeds, 0);
      SeedsAre(ns, x);
    } else {
      NextPass(rules, seeds, p - 1);
      if x in TaintedAfter(rx, root, p - 1) {
        TaintedNamesHoldText(rx, root, p - 1, x);
        MorePassesGrow(rules, seeds, p - 1, p);
        if n :| n in ns && GivesText(rx, TaintedAfter(rx, root, p - 1), n, x) {
          var i :| 0 <= i < |ns| && ns[i] == n;
          RuleGives(rx, TaintedAfter(rx, root, p - 1), n, x);
          RuleGives(rx, TaintedAfter(rx, root, p), n, x);
          EffectMonotone(RuleOf(rx, n), TaintedAfter(rx, root, p - 1), TaintedAfter(rx, root, p));
        }
      } else {
        var i := AddedByRule(rules, TaintedAfter(rx, root, p - 1), x);
        RuleAt(rx, ns, i);
        RuleGives(rx, TaintedAfter(rx, root, p), ns[i], x);
      }
    }
  }

  /** The scan makes eight passes. */
  lemma EightPasses(rx: Patterns, root: Node)
    ensures Tainted(rx, root) == TaintedAfter(rx, root, 8)
  {
  }
}
