/** Wrapping expressions in parentheses, casts and non-null assertions changes nothing. */
module TaintWrappers {
  import opened Options
  import opened Syntax
  import opened TaintRules
  import opened RulePasses

  /** The program without parentheses, casts and non-null assertions. */
  function Bare(n: Node): (r: Node)
    ensures !IsWrapper(r)
  {
    match n
    case Identifier(_) => n
    case StringLiteral(_) => n
    case NoSubstitutionTemplate(_) => n
    case RegularExpression(_) => n
    case Parenthesized(e) => Bare(e)
    case NonNull(e) => Bare(e)
    case As(e, _) => Bare(e)
    case PropertyAccess(e, name) => PropertyAccess(Bare(e), name)
    case ElementAccess(e, a) => ElementAccess(Bare(e), Bare(a))
    case Template(spans) => Template(BareAll(spans))
    case Binary(l, op, r) => Binary(Bare(l), op, Bare(r))
    case Call(f, args) => Call(Bare(f), BareAll(args))
    case Switch(s, cs) => Switch(Bare(s), BareClauses(cs))
    case VariableDeclaration(b, es, init) =>
      VariableDeclaration(b, BareAll(es), match init case None => None case Some(e) => Some(Bare(e)))
    case Catch(v, es, block) => Catch(v, BareAll(es), Bare(block))
    case Other(cs) => Other(BareAll(cs))
  }

  function BareAll(ns: seq<Node>): (r: seq<Node>)
    ensures |r| == |ns| && forall i :: 0 <= i < |ns| ==> r[i] == Bare(ns[i])
  {
    if ns == [] then [] else [Bare(ns[0])] + BareAll(ns[1..])
  }

  function BareClauses(cs: seq<Clause>): (r: seq<Clause>)
    ensures |r| == |cs| && forall i :: 0 <= i < |cs| ==> r[i] == BareClause(cs[i])
  {
    if cs == [] then [] else [BareClause(cs[0])] + BareClauses(cs[1..])
  }

  function BareClause(c: Clause): Clause {
    match c
    case CaseClause(test, body) => CaseClause(Bare(test), BareAll(body))
    case DefaultClause(body) => DefaultClause(BareAll(body))
  }

  lemma BareAllAppends(ms: seq<Node>, ns: seq<Node>)
    ensures BareAll(ms + ns) == BareAll(ms) + BareAll(ns)
  {}

  lemma {:induction false} BareClauseNodes(cs: seq<Clause>)
    ensures ClauseNodes(BareClauses(cs)) == BareAll(ClauseNodes(cs))
  {
    if cs != [] {
      BareClauseNodes(cs[1..]);
      assert BareClauses(cs)[1..] == BareClauses(cs[1..]);
      var head := if cs[0].CaseClause? then [cs[0].test] + cs[0].body else cs[0].body;
      if cs[0].CaseClause? { BareAllAppends([cs[0].test], cs[0].body); }
      BareAllAppends(head, ClauseNodes(cs[1..]));
    }
  }

  lemma BareAllFew(a: Node, b: Node)
    ensures BareAll([]) == [] && BareAll([a]) == [Bare(a)] && BareAll([a, b]) == [Bare(a), Bare(b)]
  {
    hide Bare;
  }

  lemma BareChildrenOfCall(f: Node, args: seq<Node>)
    ensures Children(Bare(Call(f, args))) == BareAll([f] + args)
  {
    hide BareAll;
    BareAllFew(f, f);
    BareAllAppends([f], args);
  }

  lemma BareChildrenOfDeclaration(b: Binding, es: seq<Node>, init: Option<Node>)
    ensures Children(Bare(VariableDeclaration(b, es, init))) == BareAll(es + if init.Some? then [init.value] else [])
  {
    hide BareAll;
    if init.Some? {
      BareAllFew(init.value, init.value);
      BareAllAppends(es, [init.value]);
    } else {
      assert es + [] == es && BareAll(es) + [] == BareAll(es);
    }
  }

  lemma BareChildrenOfCatch(v: Option<Binding>, es: seq<Node>, block: Node)
    ensures Children(Bare(Catch(v, es, block))) == BareAll(es + [block])
  {
    hide BareAll;
    BareAllFew(block, block);
    BareAllAppends(es, [block]);
  }

  lemma BareChildrenOfSwitch(s: Node, cs: seq<Clause>)
    ensures Children(Bare(Switch(s, cs))) == BareAll([s] + ClauseNodes(cs))
  {
    hide BareAll, BareClauses, ClauseNodes;
    BareClauseNodes(cs);
    BareAllFew(s, s);
    BareAllAppends([s], ClauseNodes(cs));
  }

  lemma BareChildren(n: Node)
    requires !IsWrapper(n)
    ensures Children(Bare(n)) == BareAll(Children(n))
  {
    hide BareAll, BareClauses, ClauseNodes;
    match n
    case Call(f, args) => BareChildrenOfCall(f, args);
    case VariableDeclaration(b, es, init) => BareChildrenOfDeclaration(b, es, init);
    case Catch(v, es, block) => BareChildrenOfCatch(v, es, block);
    case Switch(s, cs) => BareChildrenOfSwitch(s, cs);
    case PropertyAccess(e, _) => BareAllFew(e, e);
    case ElementAccess(e, a) => BareAllFew(e, a);
    case Binary(l, _, r) => BareAllFew(l, r);
    case Template(_) =>
    case Other(_) =>
    case _ => BareAllFew(n, n);
  }

  lemma {:induction false} BareUnwrapped(n: Node)
    ensures Bare(n) == Bare(Unwrapped(n)) && Unwrapped(Bare(n)) == Bare(n)
    ensures LiteralText(Bare(n)) == LiteralText(n)
  {
    if IsWrapper(n) { BareUnwrapped(n.expression); }
  }

  lemma BareLeafDerives(rx: Patterns, e: Node, t: set<string>)
    requires var n := Unwrapped(e);
             !n.PropertyAccess? && !n.ElementAccess? && !n.Template? && !n.Binary? && !n.Call?
    ensures Derives(rx, Bare(e), t) == Derives(rx, e, t)
  {
    BareUnwrapped(e);
  }

  lemma BareAccessDerives(rx: Patterns, e: Node, obj: Node, t: set<string>)
    requires var n := Unwrapped(e); (n.PropertyAccess? || n.ElementAccess?) && obj == n.expression
    requires Derives(rx, Bare(obj), t) == Derives(rx, obj, t)
    ensures Derives(rx, Bare(e), t) == Derives(rx, e, t)
  {
    BareUnwrapped(e);
  }

  lemma BareTemplateDerives(rx: Patterns, e: Node, spans: seq<Node>, t: set<string>)
    requires Unwrapped(e) == Template(spans)
    requires forall i :: 0 <= i < |spans| ==> Derives(rx, BareAll(spans)[i], t) == Derives(rx, spans[i], t)
    ensures Derives(rx, Bare(e), t) == Derives(rx, e, t)
  {
    hide STRING_PRESERVING, BareAll;
    BareUnwrapped(e);
    assert Unwrapped(Bare(e)) == Template(BareAll(spans));
  }

  lemma BareBinaryDerives(rx: Patterns, e: Node, l: Node, r: Node, t: set<string>)
    requires Unwrapped(e).Binary? && l == Unwrapped(e).left && r == Unwrapped(e).right
    requires Derives(rx, Bare(l), t) == Derives(rx, l, t) && Derives(rx, Bare(r), t) == Derives(rx, r, t)
    ensures Derives(rx, Bare(e), t) == Derives(rx, e, t)
  {
    BareUnwrapped(e);
  }

  lemma {:induction false} BareDerives(rx: Patterns, e: Node, t: set<string>)
    ensures Derives(rx, Bare(e), t) == Derives(rx, e, t)
    decreases e
  {
    hide Derives, Bare;
    match Unwrapped(e)
    case PropertyAccess(obj, _) =>
      BareDerives(rx, obj, t);
      BareAccessDerives(rx, e, obj, t);
    case ElementAccess(obj, _) =>
      BareDerives(rx, obj, t);
      BareAccessDerives(rx, e, obj, t);
    case Template(spans) =>
      BareSpansDerive(rx, spans, t);
      BareTemplateDerives(rx, e, spans, t);
    case Binary(l, _, r) =>
      BareDerives(rx, l, t);
      BareDerives(rx, r, t);
      BareBinaryDerives(rx, e, l, r, t);
    case Call(f, args) =>
      if Unwrapped(f).PropertyAccess? { BareDerives(rx, Unwrapped(f).expression, t); }
      BareCallDerives(rx, e, f, args, t);
    case _ => BareLeafDerives(rx, e, t);
  }

  lemma BareCallDerives(rx: Patterns, e: Node, f: Node, args: seq<Node>, t: set<string>)
    requires Unwrapped(e) == Call(f, args)
    requires Unwrapped(f).PropertyAccess? ==>
      Derives(rx, Bare(Unwrapped(f).expression), t) == Derives(rx, Unwrapped(f).expression, t)
    ensures Derives(rx, Bare(e), t) == Derives(rx, e, t)
  {
    hide STRING_PRESERVING;
    BareUnwrapped(e);
    BareUnwrapped(f);
  }

  lemma {:induction false} BareSpansDerive(rx: Patterns, es: seq<Node>, t: set<string>)
    ensures forall i :: 0 <= i < |es| ==> Derives(rx, BareAll(es)[i], t) == Derives(rx, es[i], t)
    decreases es
  {
    forall i | 0 <= i < |es| ensures Derives(rx, BareAll(es)[i], t) == Derives(rx, es[i], t) {
      BareDerives(rx, es[i], t);
    }
  }

  lemma BareCallMentions(rx: Patterns, e: Node, f: Node)
    requires Unwrapped(e).Call? && f == Unwrapped(Unwrapped(e).callee)
    requires f.PropertyAccess? ==> Mentions(rx, Bare(f.expression)) == Mentions(rx, f.expression)
    ensures Mentions(rx, Bare(e)) == Mentions(rx, e)
  {
    hide STRING_PRESERVING;
    BareUnwrapped(e);
    BareUnwrapped(Unwrapped(e).callee);
  }

  lemma BareBinaryMentions(rx: Patterns, e: Node, l: Node, r: Node)
    requires Unwrapped(e).Binary? && l == Unwrapped(e).left && r == Unwrapped(e).right
    requires Mentions(rx, Bare(l)) == Mentions(rx, l) && Mentions(rx, Bare(r)) == Mentions(rx, r)
    ensures Mentions(rx, Bare(e)) == Mentions(rx, e)
  {
    BareUnwrapped(e);
  }

  lemma BareAccessMentions(rx: Patterns, e: Node, obj: Node)
    requires var n := Unwrapped(e); (n.PropertyAccess? || n.ElementAccess?) && obj == n.expression
    requires Mentions(rx, Bare(obj)) == Mentions(rx, obj)
    ensures Mentions(rx, Bare(e)) == Mentions(rx, e)
  {
    BareUnwrapped(e);
  }

  lemma BareTemplateMentions(rx: Patterns, e: Node)
    requires Unwrapped(e).Template?
               && AllMentions(rx, BareAll(Unwrapped(e).spans)) == AllMentions(rx, Unwrapped(e).spans)
    ensures Mentions(rx, Bare(e)) == Mentions(rx, e)
  {
    BareUnwrapped(e);
  }

  lemma BareLeafMentions(rx: Patterns, e: Node)
    requires var n := Unwrapped(e);
             !n.PropertyAccess? && !n.ElementAccess? && !n.Template? && !n.Binary? && !n.Call?
    ensures Mentions(rx, Bare(e)) == Mentions(rx, e)
  {
    BareUnwrapped(e);
  }

  lemma {:induction false} BareMentions(rx: Patterns, e: Node)
    ensures Mentions(rx, Bare(e)) == Mentions(rx, e)
    decreases e
  {
    hide Mentions, Bare;
    match Unwrapped(e)
    case PropertyAccess(obj, _) =>
      BareMentions(rx, obj);
      BareAccessMentions(rx, e, obj);
    case ElementAccess(obj, _) =>
      BareMentions(rx, obj);
      BareAccessMentions(rx, e, obj);
    case Template(spans) =>
      BareAllMentions(rx, spans);
      BareTemplateMentions(rx, e);
    case Binary(l, _, r) =>
      BareMentions(rx, l);
      BareMentions(rx, r);
      BareBinaryMentions(rx, e, l, r);
    case Call(f, _) =>
      if Unwrapped(f).PropertyAccess? { BareMentions(rx, Unwrapped(f).expression); }
      BareCallMentions(rx, e, Unwrapped(f));
    case _ => BareLeafMentions(rx, e);
  }

  lemma {:induction false} BareAllMentions(rx: Patterns, es: seq<Node>)
    ensures AllMentions(rx, BareAll(es)) == AllMentions(rx, es)
    decreases es
  {
    if es != [] {
      BareMentions(rx, es[0]);
      BareAllMentions(rx, es[1..]);
      assert BareAll(es)[1..] == BareAll(es[1..]);
    }
  }

  lemma BareRule(rx: Patterns, n: Node)
    requires !IsWrapper(n)
    ensures RuleOf(rx, Bare(n)) == RuleOf(rx, n) && SeedOf(Bare(n)) == SeedOf(n)
  {
    if n.VariableDeclaration? && n.initializer.Some? {
      var e := n.initializer.value;
      BareUnwrapped(e);
      BareDerives(rx, Unwrapped(e), {});
      BareMentions(rx, Unwrapped(e));
    }
  }

  lemma BareRemoves(rx: Patterns, n: Node, t: set<string>)
    ensures RemovesFromText(rx, Bare(n), t) == RemovesFromText(rx, n, t)
  {
    BareUnwrapped(n);
    if Unwrapped(n).Call? {
      var f := Unwrapped(n).callee;
      BareUnwrapped(f);
      if Unwrapped(f).PropertyAccess? { BareDerives(rx, Unwrapped(f).expression, t); }
    }
  }

  lemma BareCallMatches(rx: Patterns, m: Method, a: Option<Node>, t: set<string>)
    ensures CallMatches(rx, Method(m.name, Bare(m.receiver)), if a.Some? then Some(Bare(a.value)) else None, t)
         == CallMatches(rx, m, a, t)
  {
    BareUnwrapped(m.receiver);
    BareDerives(rx, m.receiver, t);
    if a.Some? {
      BareUnwrapped(a.value);
      BareDerives(rx, a.value, t);
    }
  }

  lemma BareMethod(f: Node)
    ensures MethodOf(Bare(f)).Some? == MethodOf(f).Some?
    ensures MethodOf(f).Some? ==>
              MethodOf(Bare(f)).value == Method(MethodOf(f).value.name, Bare(MethodOf(f).value.receiver))
  {
    BareUnwrapped(f);
    if Unwrapped(f).ElementAccess? { BareUnwrapped(Unwrapped(f).argument); }
  }

  lemma BareEquals(rx: Patterns, l: Node, r: Node, t: set<string>)
    ensures EqualsLiteral(rx, Bare(l), Bare(r), t) == EqualsLiteral(rx, l, r, t)
  {
    forall n | n == l || n == r
      ensures Derives(rx, Bare(n), t) == Derives(rx, n, t)
                && RemovesFromText(rx, Bare(n), t) == RemovesFromText(rx, n, t)
      ensures ClassifyingLiteral(Bare(n)) == ClassifyingLiteral(n) && IsEmpty(Bare(n)) == IsEmpty(n)
    {
      BareUnwrapped(n);
      BareDerives(rx, n, t);
      BareRemoves(rx, n, t);
    }
  }

  lemma BareComparesText(cs: seq<Clause>)
    ensures ComparesText(BareClauses(cs)) == ComparesText(cs)
  {
    forall i | 0 <= i < |cs| && cs[i].CaseClause?
      ensures LiteralText(BareClauses(cs)[i].test) == LiteralText(cs[i].test)
    {
      BareUnwrapped(cs[i].test);
    }
  }

  lemma BareReported(rx: Patterns, n: Node, t: set<string>)
    requires !IsWrapper(n)
    ensures Reported(rx, Bare(n), t) == Reported(rx, n, t)
  {
    match n
    case Call(f, args) =>
      BareMethod(f);
      if MethodOf(f).Some? {
        BareCallMatches(rx, MethodOf(f).value, FirstArgument(args), t);
        assert FirstArgument(BareAll(args)) == if args == [] then None else Some(Bare(args[0]));
      }
    case Binary(l, _, r) => BareEquals(rx, l, r, t);
    case Switch(s, cs) =>
      BareDerives(rx, s, t);
      BareComparesText(cs);
    case _ =>
  }

  /** The nodes of a walk that are not wrappers, without the wrappers inside them. */
  function BareNodes(ns: seq<Node>): seq<Node> {
    if ns == [] then [] else (if IsWrapper(ns[0]) then [] else [Bare(ns[0])]) + BareNodes(ns[1..])
  }

  lemma {:induction false} BareNodesAppend(ms: seq<Node>, ns: seq<Node>)
    ensures BareNodes(ms + ns) == BareNodes(ms) + BareNodes(ns)
  {
    if ms == [] {
      assert ms + ns == ns;
    } else {
      assert (ms + ns)[1..] == ms[1..] + ns;
      BareNodesAppend(ms[1..], ns);
    }
  }

  lemma {:induction false} BarePreorder(n: Node)
    ensures BareNodes(Preorder(n)) == Preorder(Bare(n))
    decreases n, 1, 0
  {
    PreorderUnfolds(n);
    BareNodesAppend([n], Forest(Children(n)));
    BareForest(n, Children(n));
    assert BareNodes([n]) == if IsWrapper(n) then [] else [Bare(n)];
    if IsWrapper(n) {
      assert BareAll(Children(n)) == [Bare(n)];
      assert Forest([Bare(n)]) == Preorder(Bare(n)) + Forest([]);
    } else {
      PreorderUnfolds(Bare(n));
      BareChildren(n);
    }
  }

  lemma {:induction false} BareForest(root: Node, ns: seq<Node>)
    requires forall c <- ns :: c < root
    ensures BareNodes(Forest(ns)) == Forest(BareAll(ns))
    decreases root, 0, |ns|
  {
    if ns != [] {
      assert ns[0] in ns && forall c <- ns[1..] :: c in ns;
      BarePreorder(ns[0]);
      BareForest(root, ns[1..]);
      BareNodesAppend(Preorder(ns[0]), Forest(ns[1..]));
      assert BareAll(ns)[1..] == BareAll(ns[1..]);
    }
  }

  lemma BareThrows(rx: Patterns, n: Node, t: set<string>)
    requires !IsWrapper(n)
    ensures Throws(rx, Bare(n), t) == Throws(rx, n, t)
  {
    if n.Call? {
      BareMethod(n.callee);
      if MethodOf(n.callee).Some? { BareDerives(rx, MethodOf(n.callee).value.receiver, t); }
    }
  }

  lemma {:induction false} BareNoneThrows(rx: Patterns, ns: seq<Node>, t: set<string>)
    ensures NoneThrows(rx, BareNodes(ns), t) == NoneThrows(rx, ns, t)
  {
    hide Throws, Bare;
    if ns != [] {
      BareNoneThrows(rx, ns[1..], t);
      if IsWrapper(ns[0]) {
        assert BareNodes(ns) == BareNodes(ns[1..]);
        WrapperIsInert(rx, ns[0], t);
      } else {
        BareThrows(rx, ns[0], t);
        assert BareNodes(ns)[1..] == BareNodes(ns[1..]);
      }
    }
  }

  lemma WrapperIsInert(rx: Patterns, n: Node, t: set<string>)
    requires IsWrapper(n)
    ensures RuleOf(rx, n) == NO_RULE && SeedOf(n) == {} && !Reported(rx, n, t) && !Throws(rx, n, t)
  {}

  lemma {:induction false} BareRules(rx: Patterns, ns: seq<Node>)
    ensures Active(RulesOf(rx, BareNodes(ns))) == Active(RulesOf(rx, ns))
    ensures SeedsIn(BareNodes(ns)) == SeedsIn(ns)
  {
    hide RuleOf, Bare, SeedOf;
    if ns != [] {
      BareRules(rx, ns[1..]);
      assert RulesOf(rx, ns)[1..] == RulesOf(rx, ns[1..]);
      if IsWrapper(ns[0]) {
        assert BareNodes(ns) == BareNodes(ns[1..]);
        WrapperIsInert(rx, ns[0], {});
      } else {
        BareRule(rx, ns[0]);
        assert BareNodes(ns)[1..] == BareNodes(ns[1..]);
        assert RulesOf(rx, BareNodes(ns))[1..] == RulesOf(rx, BareNodes(ns[1..]));
      }
    }
  }

  lemma {:induction false} BareReports(rx: Patterns, ns: seq<Node>, t: set<string>)
    ensures ReportedIn(rx, BareNodes(ns), t) == BareAll(ReportedIn(rx, ns, t))
  {
    hide Reported, Bare;
    if ns != [] {
      BareReports(rx, ns[1..], t);
      if IsWrapper(ns[0]) {
        assert BareNodes(ns) == BareNodes(ns[1..]);
        WrapperIsInert(rx, ns[0], t);
      } else {
        BareReported(rx, ns[0], t);
        assert BareNodes(ns)[1..] == BareNodes(ns[1..]);
        BareAllAppends([ns[0]], ReportedIn(rx, ns[1..], t));
      }
    }
  }

  /** Two programs that differ only in wrappers taint the same names, and report the same nodes up
      to wrappers, in the same order. */
  lemma WrappersDoNotMatter(rx: Patterns, n: Node, m: Node)
    requires Bare(n) == Bare(m)
    ensures Tainted(rx, n) == Tainted(rx, m)
    ensures Finishes(rx, n) == Finishes(rx, m)
    ensures BareAll(Matches(rx, n)) == BareAll(Matches(rx, m))
  {
    BareScan(rx, n);
    BareScan(rx, m);
  }

  lemma BareScan(rx: Patterns, n: Node)
    ensures Tainted(rx, Bare(n)) == Tainted(rx, n)
    ensures Finishes(rx, Bare(n)) == Finishes(rx, n)
    ensures Matches(rx, Bare(n)) == BareAll(Matches(rx, n))
  {
    BarePreorder(n);
    BareRules(rx, Preorder(n));
    BareReports(rx, Preorder(n), Tainted(rx, n));
    BareNoneThrows(rx, Preorder(n), Tainted(rx, n));
    SameActivePasses(RulesOf(rx, BareNodes(Preorder(n))), RulesOf(rx, Preorder(n)), SeedsIn(Preorder(n)), MAX_PASSES);
  }
}
