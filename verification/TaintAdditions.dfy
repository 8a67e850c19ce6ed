/** Adding nodes to a program: what was tainted stays tainted, and every match stays reported exactly when
    the scan still finishes. */
module TaintAdditions {
  import opened Options
  import opened Syntax
  import opened TaintRules
  import opened RulePasses
  import opened TaintLimits

  // ---- Adding nodes --------------------------------------------------------------------------------

  /** `m` is `n` with any nodes added to the child lists of `Other` nodes and to the statements of
      `case` clauses, and any clauses added to `switch` statements, at any depth. */
  ghost predicate Embeds(n: Node, m: Node)
    decreases n, m
  {
    match n
    case Identifier(_) => m == n
    case StringLiteral(_) => m == n
    case NoSubstitutionTemplate(_) => m == n
    case RegularExpression(_) => m == n
    case Parenthesized(e) => m.Parenthesized? && Embeds(e, m.expression)
    case NonNull(e) => m.NonNull? && Embeds(e, m.expression)
    case As(e, text) => m.As? && m.typeText == text && Embeds(e, m.expression)
    case PropertyAccess(e, name) => m.PropertyAccess? && m.name == name && Embeds(e, m.expression)
    case ElementAccess(e, a) => m.ElementAccess? && Embeds(e, m.expression) && Embeds(a, m.argument)
    case Template(spans) => m.Template? && |spans| == |m.spans| && EmbedsAll(spans, m.spans)
    case Binary(l, op, r) => m.Binary? && m.operator == op && Embeds(l, m.left) && Embeds(r, m.right)
    case Call(f, args) =>
      m.Call? && Embeds(f, m.callee) && |args| == |m.arguments| && EmbedsAll(args, m.arguments)
    case Switch(s, cs) => m.Switch? && Embeds(s, m.subject) && EmbedsClauses(cs, m.clauses)
    case VariableDeclaration(b, es, init) =>
      && m.VariableDeclaration? && m.binding == b && |es| == |m.embedded| && EmbedsAll(es, m.embedded)
      && (match init
          case None => m.initializer.None?
          case Some(e) => m.initializer.Some? && Embeds(e, m.initializer.value))
    case Catch(v, es, block) =>
      m.Catch? && m.variable == v && |es| == |m.embedded| && EmbedsAll(es, m.embedded) && Embeds(block, m.block)
    case Other(cs) => m.Other? && EmbedsAll(cs, m.children)
  }

  ghost predicate EmbedsAll(ns: seq<Node>, ms: seq<Node>)
    decreases ns, ms
  {
    if ns == [] then true
    else if ms == [] then false
    else (Embeds(ns[0], ms[0]) && EmbedsAll(ns[1..], ms[1..])) || EmbedsAll(ns, ms[1..])
  }

  ghost predicate EmbedsClauses(cs: seq<Clause>, ds: seq<Clause>)
    decreases cs, ds
  {
    if cs == [] then true
    else if ds == [] then false
    else (EmbedsClause(cs[0], ds[0]) && EmbedsClauses(cs[1..], ds[1..])) || EmbedsClauses(cs, ds[1..])
  }

  ghost predicate EmbedsClause(c: Clause, d: Clause)
    decreases c, d
  {
    match c
    case CaseClause(test, body) => d.CaseClause? && Embeds(test, d.test) && EmbedsAll(body, d.body)
    case DefaultClause(body) => d.DefaultClause? && EmbedsAll(body, d.body)
  }

  lemma {:induction false} EmbedsShrinks(ns: seq<Node>, ms: seq<Node>)
    requires EmbedsAll(ns, ms)
    ensures |ns| <= |ms|
    decreases |ms|
  {
    if ns != [] {
      if Embeds(ns[0], ms[0]) && EmbedsAll(ns[1..], ms[1..]) {
        EmbedsShrinks(ns[1..], ms[1..]);
      } else {
        EmbedsShrinks(ns, ms[1..]);
      }
    }
  }

  lemma {:induction false} EmbedsPairwise(ns: seq<Node>, ms: seq<Node>, i: nat)
    requires EmbedsAll(ns, ms) && |ns| == |ms| && i < |ns|
    ensures Embeds(ns[i], ms[i])
  {
    if EmbedsAll(ns, ms[1..]) { EmbedsShrinks(ns, ms[1..]); assert false; }
    if i > 0 { EmbedsPairwise(ns[1..], ms[1..], i - 1); }
  }

  lemma {:induction false} EmbedsAppend(a: seq<Node>, b: seq<Node>, c: seq<Node>, d: seq<Node>)
    requires EmbedsAll(a, b) && EmbedsAll(c, d)
    ensures EmbedsAll(a + c, b + d)
    decreases |b|
  {
    if b == [] {
      assert a + c == c && b + d == d;
    } else {
      assert (b + d)[0] == b[0] && (b + d)[1..] == b[1..] + d;
      if a == [] {
        EmbedsAppend(a, b[1..], c, d);
        assert a + c == c;
      } else if Embeds(a[0], b[0]) && EmbedsAll(a[1..], b[1..]) {
        assert (a + c)[0] == a[0] && (a + c)[1..] == a[1..] + c;
        EmbedsAppend(a[1..], b[1..], c, d);
      } else {
        EmbedsAppend(a, b[1..], c, d);
      }
    }
  }

  function NodesOf(c: Clause): seq<Node> {
    if c.CaseClause? then [c.test] + c.body else c.body
  }

  lemma ClauseNodesHead(cs: seq<Clause>)
    requires cs != []
    ensures ClauseNodes(cs) == NodesOf(cs[0]) + ClauseNodes(cs[1..])
  {
  }

  lemma EmbedsClauseHead(c: Clause, d: Clause)
    requires EmbedsClause(c, d)
    ensures EmbedsAll(NodesOf(c), NodesOf(d))
  {
    if c.CaseClause? { EmbedsOneAppend(c.test, d.test, c.body, d.body); }
  }

  lemma {:induction false} EmbedsClauseNodes(cs: seq<Clause>, ds: seq<Clause>)
    requires EmbedsClauses(cs, ds)
    ensures EmbedsAll(ClauseNodes(cs), ClauseNodes(ds))
    decreases |ds|
  {
    hide EmbedsClause, EmbedsAll, NodesOf, ClauseNodes;
    if cs == [] {
      NothingEmbeds(ClauseNodes(ds));
    } else {
      ClauseNodesHead(ds);
      if EmbedsClause(cs[0], ds[0]) && EmbedsClauses(cs[1..], ds[1..]) {
        ClauseNodesHead(cs);
        EmbedsClauseNodes(cs[1..], ds[1..]);
        EmbedsClauseHead(cs[0], ds[0]);
        EmbedsAppend(NodesOf(cs[0]), NodesOf(ds[0]), ClauseNodes(cs[1..]), ClauseNodes(ds[1..]));
      } else {
        EmbedsClauseNodes(cs, ds[1..]);
        NothingEmbeds(NodesOf(ds[0]));
        EmbedsAppend([], NodesOf(ds[0]), ClauseNodes(cs), ClauseNodes(ds[1..]));
        assert [] + ClauseNodes(cs) == ClauseNodes(cs);
      }
    }
  }

  lemma NothingEmbeds(ms: seq<Node>)
    ensures EmbedsAll([], ms) && ClauseNodes([]) == []
  {
  }

  lemma EmbedsOneAppend(n: Node, m: Node, ns: seq<Node>, ms: seq<Node>)
    requires Embeds(n, m) && EmbedsAll(ns, ms)
    ensures EmbedsAll([n] + ns, [m] + ms)
  {
    assert ([n] + ns)[1..] == ns && ([m] + ms)[1..] == ms;
  }

  lemma EmbedsSwitchNodes(s: Node, t: Node, cs: seq<Clause>, ds: seq<Clause>)
    requires Embeds(s, t) && EmbedsClauses(cs, ds)
    ensures EmbedsAll([s] + ClauseNodes(cs), [t] + ClauseNodes(ds))
  {
    hide Embeds, EmbedsAll, EmbedsClauses;
    EmbedsClauseNodes(cs, ds);
    EmbedsOneAppend(s, t, ClauseNodes(cs), ClauseNodes(ds));
  }

  lemma EmbedsDeclarationNodes(es: seq<Node>, fs: seq<Node>, init: Option<Node>, init': Option<Node>)
    requires EmbedsAll(es, fs) && init.Some? == init'.Some? && (init.Some? ==> Embeds(init.value, init'.value))
    ensures EmbedsAll(es + if init.Some? then [init.value] else [], fs + if init'.Some? then [init'.value] else [])
  {
    hide Embeds;
    EmbedsAppend(es, fs, if init.Some? then [init.value] else [], if init'.Some? then [init'.value] else []);
  }

  lemma EmbedsTwo(a: Node, b: Node, c: Node, d: Node)
    requires Embeds(a, b) && Embeds(c, d)
    ensures EmbedsAll([a], [b]) && EmbedsAll([a, c], [b, d])
  {
    hide Embeds;
    EmbedsOneAppend(a, b, [], []);
    EmbedsOneAppend(c, d, [], []);
    EmbedsOneAppend(a, b, [c], [d]);
    assert [a] + [] == [a] && [b] + [] == [b] && [c] + [] == [c] && [d] + [] == [d];
    assert [a] + [c] == [a, c] && [b] + [d] == [b, d];
  }

  lemma EmbedsChildren(n: Node, m: Node)
    requires Embeds(n, m)
    ensures EmbedsAll(Children(n), Children(m))
  {
    hide EmbedsAll, EmbedsClauses, ClauseNodes, IsWrapper;
    match n
    case Parenthesized(e) => EmbedsTwo(e, m.expression, e, m.expression);
    case NonNull(e) => EmbedsTwo(e, m.expression, e, m.expression);
    case As(e, _) => EmbedsTwo(e, m.expression, e, m.expression);
    case PropertyAccess(e, _) => EmbedsTwo(e, m.expression, e, m.expression);
    case ElementAccess(e, a) => EmbedsTwo(e, m.expression, a, m.argument);
    case Binary(l, _, r) => EmbedsTwo(l, m.left, r, m.right);
    case Call(f, args) => EmbedsOneAppend(f, m.callee, args, m.arguments);
    case Switch(s, cs) => EmbedsSwitchNodes(s, m.subject, cs, m.clauses);
    case VariableDeclaration(_, es, init) => EmbedsDeclarationNodes(es, m.embedded, init, m.initializer);
    case Catch(_, es, block) =>
      EmbedsTwo(block, m.block, block, m.block);
      EmbedsAppend(es, m.embedded, [block], [m.block]);
    case Template(_) =>
    case Other(_) =>
    case _ => NothingEmbeds([]);
  }

  lemma {:induction false} EmbedsPreorder(n: Node, m: Node)
    requires Embeds(n, m)
    ensures EmbedsAll(Preorder(n), Preorder(m))
    decreases n, 1, 0
  {
    EmbedsChildren(n, m);
    EmbedsForest(n, Children(n), Children(m));
    PreorderUnfolds(n);
    PreorderUnfolds(m);
    EmbedsOneAppend(n, m, Forest(Children(n)), Forest(Children(m)));
  }

  lemma {:induction false} EmbedsForest(root: Node, ns: seq<Node>, ms: seq<Node>)
    requires forall c <- ns :: c < root
    requires EmbedsAll(ns, ms)
    ensures EmbedsAll(Forest(ns), Forest(ms))
    decreases root, 0, |ms|
  {
    if ns != [] {
      if Embeds(ns[0], ms[0]) && EmbedsAll(ns[1..], ms[1..]) {
        assert ns[0] in ns && forall c <- ns[1..] :: c in ns;
        EmbedsPreorder(ns[0], ms[0]);
        EmbedsForest(root, ns[1..], ms[1..]);
        EmbedsAppend(Preorder(ns[0]), Preorder(ms[0]), Forest(ns[1..]), Forest(ms[1..]));
      } else {
        EmbedsForest(root, ns, ms[1..]);
        EmbedsAppend([], Preorder(ms[0]), Forest(ns), Forest(ms[1..]));
        assert [] + Forest(ns) == Forest(ns);
      }
    }
  }

  lemma {:induction false} EmbedsUnwrapped(n: Node, m: Node)
    requires Embeds(n, m)
    ensures Embeds(Unwrapped(n), Unwrapped(m))
    ensures LiteralText(n) == LiteralText(m)
  {
    if IsWrapper(n) { EmbedsUnwrapped(n.expression, m.expression); }
  }

  lemma {:induction false} EmbedsDerives(rx: Patterns, e: Node, f: Node, t: set<string>, u: set<string>)
    requires Embeds(e, f) && t <= u && Derives(rx, e, t)
    ensures Derives(rx, f, u)
    decreases e
  {
    EmbedsUnwrapped(e, f);
    var g := Unwrapped(f);
    match Unwrapped(e)
    case PropertyAccess(obj, name) =>
      if name != "message" { EmbedsDerives(rx, obj, g.expression, t, u); }
    case ElementAccess(obj, _) => EmbedsDerives(rx, obj, g.expression, t, u);
    case Template(spans) =>
      var i :| 0 <= i < |spans| && Derives(rx, spans[i], t);
      EmbedsPairwise(spans, g.spans, i);
      EmbedsDerives(rx, spans[i], g.spans[i], t, u);
    case Binary(l, _, r) =>
      if Derives(rx, l, t) { EmbedsDerives(rx, l, g.left, t, u); } else { EmbedsDerives(rx, r, g.right, t, u); }
    case Call(callee, _) =>
      EmbedsUnwrapped(callee, g.callee);
      if Unwrapped(callee).PropertyAccess? {
        EmbedsDerives(rx, Unwrapped(callee).expression, Unwrapped(g.callee).expression, t, u);
      }
    case _ =>
  }

  lemma EmbedsRule(rx: Patterns, n: Node, m: Node)
    requires Embeds(n, m)
    ensures Weaker(RuleOf(rx, n), RuleOf(rx, m)) && SeedOf(n) == SeedOf(m)
  {
    if n.VariableDeclaration? && n.initializer.Some? {
      EmbedsUnwrapped(n.initializer.value, m.initializer.value);
      var e, f := Unwrapped(n.initializer.value), Unwrapped(m.initializer.value);
      if Derives(rx, e, {}) { EmbedsDerives(rx, e, f, {}, {}); }
      forall x | x in Mentions(rx, e)
        ensures Derives(rx, f, {}) || x in Mentions(rx, f)
      {
        assert x in Mentions(rx, e) * {x};
        DerivesByMention(rx, e, {x});
        EmbedsDerives(rx, e, f, {x}, {x});
        DerivesByMention(rx, f, {x});
      }
    }
  }

  lemma {:induction false} EmbedsComparesText(cs: seq<Clause>, ds: seq<Clause>)
    requires EmbedsClauses(cs, ds) && ComparesText(cs)
    ensures ComparesText(ds)
    decreases |ds|
  {
    var i :| 0 <= i < |cs| && cs[i].CaseClause? && LiteralText(cs[i].test).Some?;
    var paired := EmbedsClause(cs[0], ds[0]) && EmbedsClauses(cs[1..], ds[1..]);
    if paired && i == 0 {
      EmbedsUnwrapped(cs[0].test, ds[0].test);
      assert LiteralText(ds[0].test).Some?;
    } else {
      if paired {
        assert cs[1..][i - 1] == cs[i];
        EmbedsComparesText(cs[1..], ds[1..]);
      } else {
        EmbedsComparesText(cs, ds[1..]);
      }
      var j :| 0 <= j < |ds[1..]| && ds[1..][j].CaseClause? && LiteralText(ds[1..][j].test).Some?;
      assert ds[j + 1] == ds[1..][j];
    }
  }

  lemma EmbedsRemoves(rx: Patterns, n: Node, m: Node, t: set<string>, u: set<string>)
    requires Embeds(n, m) && t <= u && RemovesFromText(rx, n, t)
    ensures RemovesFromText(rx, m, u)
  {
    EmbedsUnwrapped(n, m);
    var f, g := Unwrapped(n).callee, Unwrapped(m).callee;
    EmbedsUnwrapped(f, g);
    EmbedsDerives(rx, Unwrapped(f).expression, Unwrapped(g).expression, t, u);
  }

  lemma EmbedsOperand(rx: Patterns, n: Node, m: Node, t: set<string>, u: set<string>)
    requires Embeds(n, m) && t <= u
    ensures Derives(rx, n, t) ==> Derives(rx, m, u)
    ensures RemovesFromText(rx, n, t) ==> RemovesFromText(rx, m, u)
    ensures ClassifyingLiteral(n) == ClassifyingLiteral(m) && IsEmpty(n) == IsEmpty(m)
  {
    hide Derives;
    EmbedsUnwrapped(n, m);
    if Derives(rx, n, t) { EmbedsDerives(rx, n, m, t, u); }
    if RemovesFromText(rx, n, t) { EmbedsRemoves(rx, n, m, t, u); }
  }

  lemma EmbedsEquals(rx: Patterns, l: Node, l': Node, r: Node, r': Node, t: set<string>, u: set<string>)
    requires Embeds(l, l') && Embeds(r, r') && t <= u && EqualsLiteral(rx, l, r, t)
    ensures EqualsLiteral(rx, l', r', u)
  {
    hide Derives, RemovesFromText, ClassifyingLiteral, IsEmpty, Embeds;
    EmbedsOperand(rx, l, l', t, u);
    EmbedsOperand(rx, r, r', t, u);
  }

  lemma EmbedsMethod(f: Node, g: Node)
    requires Embeds(f, g) && MethodOf(f).Some?
    ensures MethodOf(g).Some? && MethodOf(g).value.name == MethodOf(f).value.name
    ensures Embeds(MethodOf(f).value.receiver, MethodOf(g).value.receiver)
  {
    EmbedsUnwrapped(f, g);
    if Unwrapped(f).ElementAccess? { EmbedsUnwrapped(Unwrapped(f).argument, Unwrapped(g).argument); }
  }

  lemma EmbedsCallMatches(rx: Patterns, m: Method, k: Method, a: Option<Node>, b: Option<Node>, t: set<string>,
      u: set<string>)
    requires m.name == k.name && Embeds(m.receiver, k.receiver) && t <= u
    requires a.Some? == b.Some? && (a.Some? ==> Embeds(a.value, b.value))
    requires CallMatches(rx, m, a, t)
    ensures CallMatches(rx, k, b, u)
  {
    EmbedsUnwrapped(m.receiver, k.receiver);
    if Derives(rx, m.receiver, t) { EmbedsDerives(rx, m.receiver, k.receiver, t, u); }
    if a.Some? {
      EmbedsUnwrapped(a.value, b.value);
      if Derives(rx, a.value, t) { EmbedsDerives(rx, a.value, b.value, t, u); }
    }
  }

  lemma EmbedsReported(rx: Patterns, n: Node, m: Node, t: set<string>, u: set<string>)
    requires Embeds(n, m) && t <= u && Reported(rx, n, t)
    ensures Reported(rx, m, u)
  {
    match n
    case Call(f, args) =>
      EmbedsMethod(f, m.callee);
      if args != [] { EmbedsPairwise(args, m.arguments, 0); }
      EmbedsCallMatches(rx, MethodOf(f).value, MethodOf(m.callee).value, FirstArgument(args),
          FirstArgument(m.arguments), t, u);
    case Binary(l, _, r) => EmbedsEquals(rx, l, m.left, r, m.right, t, u);
    case Switch(s, cs) =>
      EmbedsDerives(rx, s, m.subject, t, u);
      EmbedsComparesText(cs, m.clauses);
  }

  lemma EmbedsMethodBack(f: Node, g: Node)
    requires Embeds(f, g) && MethodOf(g).Some?
    ensures MethodOf(f).Some?
  {
    EmbedsUnwrapped(f, g);
    if Unwrapped(f).ElementAccess? { EmbedsUnwrapped(Unwrapped(f).argument, Unwrapped(g).argument); }
  }

  /** What is added elsewhere can stop a call from throwing, by tainting its receiver, and never makes it throw. */
  lemma AddingNodesThrowsNoMore(rx: Patterns, n: Node, m: Node, t: set<string>, u: set<string>)
    requires Embeds(n, m) && t <= u && Throws(rx, m, u)
    ensures Throws(rx, n, t)
  {
    EmbedsMethodBack(n.callee, m.callee);
    EmbedsMethod(n.callee, m.callee);
    var receiver := MethodOf(n.callee).value.receiver;
    if Derives(rx, receiver, t) { EmbedsDerives(rx, receiver, MethodOf(m.callee).value.receiver, t, u); }
  }

  lemma {:induction false} EmbedsRules(rx: Patterns, ns: seq<Node>, ms: seq<Node>)
    requires EmbedsAll(ns, ms)
    ensures WeakerList(RulesOf(rx, ns), RulesOf(rx, ms)) && SeedsIn(ns) <= SeedsIn(ms)
    decreases |ms|
  {
    hide RuleOf, Embeds, SeedOf;
    if ns != [] {
      assert RulesOf(rx, ms)[1..] == RulesOf(rx, ms[1..]);
      if Embeds(ns[0], ms[0]) && EmbedsAll(ns[1..], ms[1..]) {
        assert RulesOf(rx, ns)[1..] == RulesOf(rx, ns[1..]);
        EmbedsRule(rx, ns[0], ms[0]);
        EmbedsRules(rx, ns[1..], ms[1..]);
      } else {
        EmbedsRules(rx, ns, ms[1..]);
      }
    }
  }

  lemma {:induction false} EmbedsReports(rx: Patterns, ns: seq<Node>, ms: seq<Node>, t: set<string>, u: set<string>)
    requires EmbedsAll(ns, ms) && t <= u
    ensures EmbedsAll(ReportedIn(rx, ns, t), ReportedIn(rx, ms, u))
    decreases |ms|
  {
    hide Reported;
    if ns != [] {
      var head := if Reported(rx, ms[0], u) then [ms[0]] else [];
      if Embeds(ns[0], ms[0]) && EmbedsAll(ns[1..], ms[1..]) {
        EmbedsReports(rx, ns[1..], ms[1..], t, u);
        if Reported(rx, ns[0], t) {
          EmbedsReported(rx, ns[0], ms[0], t, u);
          EmbedsOneAppend(ns[0], ms[0], [], []);
        }
        EmbedsAppend(if Reported(rx, ns[0], t) then [ns[0]] else [], head,
                     ReportedIn(rx, ns[1..], t), ReportedIn(rx, ms[1..], u));
      } else {
        EmbedsReports(rx, ns, ms[1..], t, u);
        EmbedsAppend([], head, ReportedIn(rx, ns, t), ReportedIn(rx, ms[1..], u));
        assert [] + ReportedIn(rx, ns, t) == ReportedIn(rx, ns, t);
      }
    }
  }

  /** Adding declarations, catch clauses or any other nodes never removes a tainted name after any
      number of passes, nor a qualifying node, with the cap in force. So the scan of the larger file
      answers with all the matches of the smaller one, exactly when it finishes. */
  lemma AddingNodesKeepsMatches(rx: Patterns, n: Node, m: Node)
    requires Embeds(n, m)
    ensures forall p: nat :: TaintedAfter(rx, n, p) <= TaintedAfter(rx, m, p)
    ensures EmbedsAll(Matches(rx, n), Matches(rx, m))
    ensures var before, after := Answer(rx, n), Answer(rx, m);
            before.Some? ==> (after.Some? && EmbedsAll(before.value, after.value) <==> Finishes(rx, m))
  {
    EmbedsPreorder(n, m);
    EmbedsRules(rx, Preorder(n), Preorder(m));
    forall p: nat ensures TaintedAfter(rx, n, p) <= TaintedAfter(rx, m, p) {
      WeakerPasses(RulesOf(rx, Preorder(n)), RulesOf(rx, Preorder(m)), SeedsIn(Preorder(n)), SeedsIn(Preorder(m)), p);
    }
    EmbedsReports(rx, Preorder(n), Preorder(m), Tainted(rx, n), Tainted(rx, m));
  }

  // ---- When adding nodes keeps the scan from finishing -------------------------------------------------

  /** Where the nodes of one walk stand in another: in the same order, each with additions at most. */
  ghost predicate Placed(ns: seq<Node>, ms: seq<Node>, places: seq<nat>) {
    && |places| == |ns|
    && (forall i :: 0 <= i < |places| ==> places[i] < |ms| && Embeds(ns[i], ms[places[i]]))
    && (forall i, j :: 0 <= i < j < |places| ==> places[i] < places[j])
  }

  function Shifted(places: seq<nat>): (r: seq<nat>)
    ensures |r| == |places| && forall i :: 0 <= i < |r| ==> r[i] == places[i] + 1
  {
    if places == [] then [] else [places[0] + 1] + Shifted(places[1..])
  }

  lemma {:induction false} EmbedsPlaces(ns: seq<Node>, ms: seq<Node>) returns (places: seq<nat>)
    requires EmbedsAll(ns, ms)
    ensures Placed(ns, ms, places)
    decreases |ms|
  {
    hide Embeds;
    if ns == [] {
      places := [];
    } else if Embeds(ns[0], ms[0]) && EmbedsAll(ns[1..], ms[1..]) {
      var rest := EmbedsPlaces(ns[1..], ms[1..]);
      places := [0] + Shifted(rest);
    } else {
      var rest := EmbedsPlaces(ns, ms[1..]);
      places := Shifted(rest);
    }
  }

  /** Every node of a file has its place in the file with the additions; the rest are the added nodes. */
  lemma NodesHavePlaces(n: Node, m: Node) returns (places: seq<nat>)
    requires Embeds(n, m)
    ensures Placed(Preorder(n), Preorder(m), places)
  {
    EmbedsPreorder(n, m);
    places := EmbedsPlaces(Preorder(n), Preorder(m));
  }

  /** A call of the larger file that throws although it is none of the placed ones. */
  ghost predicate AddedCallThrows(rx: Patterns, m: Node, places: seq<nat>) {
    exists k :: 0 <= k < |Preorder(m)| && k !in places && Throws(rx, Preorder(m)[k], Tainted(rx, m))
  }

  /** A scan that finished is kept from finishing by what is added exactly when one of the added calls
      is an argumentless search on a receiver that derives nothing in the file as it is then. */
  lemma AdditionsThrowExactlyWhen(rx: Patterns, n: Node, m: Node, places: seq<nat>)
    requires Embeds(n, m) && Finishes(rx, n) && Placed(Preorder(n), Preorder(m), places)
    ensures !Finishes(rx, m) <==> AddedCallThrows(rx, m, places)
  {
    hide Throws, Preorder, Embeds, TaintedAfter, NoneThrows;
    AddingNodesKeepsMatches(rx, n, m);
    NoneThrowsAnywhere(rx, Preorder(n), Tainted(rx, n));
    NoneThrowsAnywhere(rx, Preorder(m), Tainted(rx, m));
    forall i | 0 <= i < |places| ensures !Throws(rx, Preorder(m)[places[i]], Tainted(rx, m)) {
      if Throws(rx, Preorder(m)[places[i]], Tainted(rx, m)) {
        AddingNodesThrowsNoMore(rx, Preorder(n)[i], Preorder(m)[places[i]], Tainted(rx, n), Tainted(rx, m));
      }
    }
  }

  /** Every match keeps its place. */
  lemma MatchesKeepTheirPlaces(rx: Patterns, n: Node, m: Node, places: seq<nat>, i: nat)
    requires Embeds(n, m) && Placed(Preorder(n), Preorder(m), places) && i < |places|
    requires Reported(rx, Preorder(n)[i], Tainted(rx, n))
    ensures Reported(rx, Preorder(m)[places[i]], Tainted(rx, m))
  {
    hide Preorder, Embeds, TaintedAfter, Reported;
    AddingNodesKeepsMatches(rx, n, m);
    EmbedsReported(rx, Preorder(n)[i], Preorder(m)[places[i]], Tainted(rx, n), Tainted(rx, m));
  }

  /** Adding an argumentless search loses a match: the file with a search of a message alone is
      answered with that match, the file with the other call after it is not answered. */
  lemma AddedSearchLosesTheMatch(rx: Patterns, text: string, name: string, search: string)
    requires rx.messageNamed(text) && !rx.messageNamed(name) && search in SEARCH
    ensures var one, other := TextSearch(text, search), BareSearch(name, search);
            && Embeds(Other([one]), Other([one, other]))
            && Answer(rx, Other([one])) == Some([one])
            && Answer(rx, Other([one, other])) == None
  {
    hide SEARCH, NoneThrows, Tainted, Matches, Embeds, Preorder;
    EmbedsBefore(text, search, BareSearch(name, search));
    OneSearchAnswers(rx, text, search);
    BareSearchStops(rx, text, name, search);
  }

  lemma BothSearchNodes(rx: Patterns, text: string, name: string, search: string)
    ensures var root := Other([TextSearch(text, search), BareSearch(name, search)]);
            && Preorder(root)
               == [root] + (Preorder(TextSearch(text, search)) + Preorder(BareSearch(name, search)))
            && |Preorder(root)| > 5 && Preorder(root)[5] == BareSearch(name, search)
            && Tainted(rx, root) == {}
  {
    hide Preorder, Tainted;
    var root := Other([TextSearch(text, search), BareSearch(name, search)]);
    PreorderUnfolds(root);
    TwoTrees(TextSearch(text, search), BareSearch(name, search));
    TextSearchNodes(text, search);
    BareSearchNodes(name, search);
    QuietFile(rx, root);
  }

  lemma BareSearchStops(rx: Patterns, text: string, name: string, search: string)
    requires !rx.messageNamed(name) && search in SEARCH
    ensures !Finishes(rx, Other([TextSearch(text, search), BareSearch(name, search)]))
  {
    hide SEARCH, Preorder, NoneThrows, Throws, Tainted;
    var root := Other([TextSearch(text, search), BareSearch(name, search)]);
    BothSearchNodes(rx, text, name, search);
    SearchThrows(rx, name, search);
    NoneThrowsAnywhere(rx, Preorder(root), {});
  }

  lemma EmbedsBefore(text: string, search: string, other: Node)
    ensures Embeds(Other([TextSearch(text, search)]), Other([TextSearch(text, search), other]))
  {
    var one := TextSearch(text, search);
    assert EmbedsAll([StringLiteral("x")], [StringLiteral("x")]);
    assert Embeds(one, one);
    assert EmbedsAll([one][1..], [one, other][1..]);
  }
}
