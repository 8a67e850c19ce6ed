/** What the scan answers for a file, told from the file: which values hold the text of an error, which
    names take one, and which calls, comparisons and switches are reported. */
module TaintReports {
  import opened Options
  import opened Syntax
  import opened RulePasses
  import opened TaintRules

  // ---- Values that hold the text of an error ---------------------------------------------------------

  /** A value that is an error's text by itself: a tainted name or one that reads like a message, `.message`
      of anything, `String(..)` and `formatError(..)`. */
  ghost predicate IsText(rx: Patterns, t: set<string>, e: Node) {
    || (exists x :: Unwrapped(e) == Identifier(x) && (x in t || rx.messageNamed(x)))
    || (exists of: Node :: Unwrapped(e) == PropertyAccess(of, "message"))
    || (exists f: Node, args: seq<Node> :: Unwrapped(e) == Call(f, args) && IsConversion(f))
  }

  ghost predicate IsConversion(f: Node) {
    Unwrapped(f) == Identifier("String") || Unwrapped(f) == Identifier("formatError")
  }

  /** The methods that keep the text of their receiver. */
  predicate KeepsText(name: string) {
    || name == "toLowerCase" || name == "toUpperCase" || name == "trim" || name == "trimStart" || name == "trimEnd"
    || name == "toString" || name == "slice" || name == "substring" || name == "substr" || name == "replace"
    || name == "replaceAll" || name == "normalize" || name == "split" || name == "at" || name == "padStart"
    || name == "padEnd" || name == "concat"
  }

  /** `f` is a part whose text `e` holds: what a member that reads like a message or an index is taken from,
      a template's expression, a side of `??`, `||` or `+`, the receiver of a method that keeps the text. */
  ghost predicate HoldsTextOf(rx: Patterns, e: Node, f: Node) {
    || (exists name :: Unwrapped(e) == PropertyAccess(f, name) && rx.messageNamed(name))
    || (exists index :: Unwrapped(e) == ElementAccess(f, index))
    || (Unwrapped(e).Template? && f in Unwrapped(e).spans)
    || (exists other ::
          Unwrapped(e) == Binary(f, QuestionQuestion, other) || Unwrapped(e) == Binary(other, QuestionQuestion, f))
    || (exists other :: Unwrapped(e) == Binary(f, BarBar, other) || Unwrapped(e) == Binary(other, BarBar, f))
    || (exists other :: Unwrapped(e) == Binary(f, Plus, other) || Unwrapped(e) == Binary(other, Plus, f))
    || (exists callee: Node, args: seq<Node>, name ::
          Unwrapped(e) == Call(callee, args) && Unwrapped(callee) == PropertyAccess(f, name) && KeepsText(name))
  }

  /** From `e` down to an error's text, each value holding the text of the next. */
  ghost predicate TextPath(rx: Patterns, t: set<string>, e: Node, path: seq<Node>) {
    && path != [] && path[0] == e
    && (forall i :: 0 < i < |path| ==> HoldsTextOf(rx, path[i - 1], path[i]))
    && IsText(rx, t, path[|path| - 1])
  }

  ghost predicate HoldsText(rx: Patterns, t: set<string>, e: Node) {
    exists path :: TextPath(rx, t, e, path)
  }

  lemma KeepsTextIsPreserving(name: string)
    ensures KeepsText(name) <==> name in STRING_PRESERVING
  {
  }

  lemma TextDerives(rx: Patterns, t: set<string>, e: Node)
    requires IsText(rx, t, e)
    ensures Derives(rx, e, t)
  {
    hide STRING_PRESERVING;
  }

  lemma HoldingShape(rx: Patterns, e: Node, f: Node)
    requires HoldsTextOf(rx, e, f)
    ensures var n := Unwrapped(e);
            || (n.PropertyAccess? && n.expression == f && rx.messageNamed(n.name))
            || (n.ElementAccess? && n.expression == f)
            || (n.Template? && f in n.spans)
            || (n.Binary? && (n.left == f || n.right == f)
                && (n.operator.QuestionQuestion? || n.operator.BarBar? || n.operator.Plus?))
            || (n.Call? && Unwrapped(n.callee).PropertyAccess? && Unwrapped(n.callee).expression == f
                && KeepsText(Unwrapped(n.callee).name))
  {
    hide KeepsText, Unwrapped;
  }

  lemma HoldingDerives(rx: Patterns, t: set<string>, e: Node, f: Node)
    requires HoldsTextOf(rx, e, f) && Derives(rx, f, t)
    ensures Derives(rx, e, t)
  {
    HoldingShape(rx, e, f);
    hide Derives, STRING_PRESERVING, KeepsText, HoldsTextOf, Unwrapped;
    match Unwrapped(e)
    case PropertyAccess(_, _) => AccessDerives(rx, t, e, f);
    case ElementAccess(_, _) => AccessDerives(rx, t, e, f);
    case Template(_) => SpanDerives(rx, t, e, f);
    case Binary(_, _, _) => SideDerives(rx, t, e, f);
    case Call(callee, _) =>
      KeepsTextIsPreserving(Unwrapped(callee).name);
      ReceiverDerives(rx, t, e, f);
  }

  lemma AccessDerives(rx: Patterns, t: set<string>, e: Node, f: Node)
    requires Derives(rx, f, t)
    requires var n := Unwrapped(e);
             || (n.PropertyAccess? && n.expression == f && rx.messageNamed(n.name))
             || (n.ElementAccess? && n.expression == f)
    ensures Derives(rx, e, t)
  {
  }

  lemma SideDerives(rx: Patterns, t: set<string>, e: Node, f: Node)
    requires Derives(rx, f, t)
    requires var n := Unwrapped(e);
             && n.Binary? && (n.left == f || n.right == f)
             && (n.operator.QuestionQuestion? || n.operator.BarBar? || n.operator.Plus?)
    ensures Derives(rx, e, t)
  {
  }

  lemma ReceiverDerives(rx: Patterns, t: set<string>, e: Node, f: Node)
    requires Derives(rx, f, t)
    requires var n := Unwrapped(e);
             && n.Call? && Unwrapped(n.callee).PropertyAccess? && Unwrapped(n.callee).expression == f
             && Unwrapped(n.callee).name in STRING_PRESERVING
    ensures Derives(rx, e, t)
  {
    hide STRING_PRESERVING;
  }

  lemma SpanDerives(rx: Patterns, t: set<string>, e: Node, f: Node)
    requires Unwrapped(e).Template? && f in Unwrapped(e).spans && Derives(rx, f, t)
    ensures Derives(rx, e, t)
  {
    hide STRING_PRESERVING, Unwrapped;
    var i :| 0 <= i < |Unwrapped(e).spans| && Unwrapped(e).spans[i] == f;
    assert Derives(rx, Unwrapped(e).spans[i], t);
  }

  /** A value that derives from an error is its text or holds the text of a part that does. */
  lemma DerivesFromPart(rx: Patterns, t: set<string>, e: Node) returns (f: Option<Node>)
    requires Derives(rx, e, t)
    ensures f.None? ==> IsText(rx, t, e)
    ensures f.Some? ==> HoldsTextOf(rx, e, f.value) && Derives(rx, f.value, t) && f.value < e
  {
    hide STRING_PRESERVING, KeepsText, IsText, HoldsTextOf;
    match Unwrapped(e)
    case Identifier(x) => f := None; assert IsText(rx, t, e) by { NameIsText(rx, t, e, x); }
    case PropertyAccess(of, name) =>
      if name == "message" {
        f := None;
        MessageIsText(rx, t, e, of);
      } else {
        f := Some(of);
        MemberHolds(rx, e, of, name);
      }
    case ElementAccess(of, index) =>
      f := Some(of);
      IndexHolds(rx, e, of, index);
    case Template(spans) =>
      var i :| 0 <= i < |spans| && Derives(rx, spans[i], t);
      f := Some(spans[i]);
      SpanHolds(rx, e, i);
    case Binary(l, op, r) =>
      f := Some(if Derives(rx, l, t) then l else r);
      SideHolds(rx, e, l, op, r);
    case Call(callee, args) =>
      if Unwrapped(callee).PropertyAccess? {
        f := Some(Unwrapped(callee).expression);
        ReceiverHolds(rx, e, callee, args);
      } else {
        f := None;
        ConversionIsText(rx, t, e, callee, args);
      }
  }

  lemma NameIsText(rx: Patterns, t: set<string>, e: Node, x: string)
    requires Unwrapped(e) == Identifier(x) && (x in t || rx.messageNamed(x))
    ensures IsText(rx, t, e)
  {
  }

  lemma MessageIsText(rx: Patterns, t: set<string>, e: Node, of: Node)
    requires Unwrapped(e) == PropertyAccess(of, "message")
    ensures IsText(rx, t, e)
  {
  }

  lemma ConversionIsText(rx: Patterns, t: set<string>, e: Node, f: Node, args: seq<Node>)
    requires Unwrapped(e) == Call(f, args) && Unwrapped(f).Identifier?
    requires Unwrapped(f).text == "String" || Unwrapped(f).text == "formatError"
    ensures IsText(rx, t, e)
  {
    assert Unwrapped(f) == Identifier(Unwrapped(f).text);
    assert IsConversion(f);
  }

  lemma MemberHolds(rx: Patterns, e: Node, of: Node, name: string)
    requires Unwrapped(e) == PropertyAccess(of, name) && rx.messageNamed(name)
    ensures HoldsTextOf(rx, e, of)
  {
  }

  lemma IndexHolds(rx: Patterns, e: Node, of: Node, index: Node)
    requires Unwrapped(e) == ElementAccess(of, index)
    ensures HoldsTextOf(rx, e, of)
  {
  }

  lemma SpanHolds(rx: Patterns, e: Node, i: nat)
    requires Unwrapped(e).Template? && i < |Unwrapped(e).spans|
    ensures HoldsTextOf(rx, e, Unwrapped(e).spans[i])
  {
  }

  lemma SideHolds(rx: Patterns, e: Node, l: Node, op: Operator, r: Node)
    requires Unwrapped(e) == Binary(l, op, r) && (op.QuestionQuestion? || op.BarBar? || op.Plus?)
    ensures HoldsTextOf(rx, e, l) && HoldsTextOf(rx, e, r)
  {
  }

  lemma ReceiverHolds(rx: Patterns, e: Node, callee: Node, args: seq<Node>)
    requires Unwrapped(e) == Call(callee, args) && Unwrapped(callee).PropertyAccess?
    requires Unwrapped(callee).name in STRING_PRESERVING
    ensures HoldsTextOf(rx, e, Unwrapped(callee).expression)
  {
    hide STRING_PRESERVING, KeepsText;
    var of, name := Unwrapped(callee).expression, Unwrapped(callee).name;
    KeepsTextIsPreserving(name);
    assert Unwrapped(callee) == PropertyAccess(of, name);
  }

  lemma {:induction false} DerivesHasPath(rx: Patterns, t: set<string>, e: Node) returns (path: seq<Node>)
    requires Derives(rx, e, t)
    ensures TextPath(rx, t, e, path)
    decreases e
  {
    hide Derives, HoldsTextOf, IsText;
    var f := DerivesFromPart(rx, t, e);
    if f.None? {
      path := [e];
    } else {
      var rest := DerivesHasPath(rx, t, f.value);
      path := [e] + rest;
    }
  }

  lemma {:induction false} PathDerives(rx: Patterns, t: set<string>, e: Node, path: seq<Node>)
    requires TextPath(rx, t, e, path)
    ensures Derives(rx, e, t)
    decreases |path|
  {
    hide Derives, HoldsTextOf, IsText;
    if |path| == 1 {
      TextDerives(rx, t, e);
    } else {
      assert forall i :: 0 < i < |path[1..]| ==> path[1..][i] == path[i + 1] && path[1..][i - 1] == path[i];
      PathDerives(rx, t, path[1], path[1..]);
      HoldingDerives(rx, t, e, path[1]);
    }
  }

  /** The scan's test finds exactly the values that hold the text of an error. */
  lemma DerivesExactlyWhenHoldsText(rx: Patterns, t: set<string>, e: Node)
    ensures Derives(rx, e, t) <==> HoldsText(rx, t, e)
  {
    hide Derives;
    if Derives(rx, e, t) {
      var path := DerivesHasPath(rx, t, e);
    } else if HoldsText(rx, t, e) {
      var path :| TextPath(rx, t, e, path);
      PathDerives(rx, t, e, path);
    }
  }

  /** `x.message`, `String(x)` and a tainted name hold an error's text. */
  lemma TextIsHeld(rx: Patterns, t: set<string>, e: Node)
    requires IsText(rx, t, e)
    ensures HoldsText(rx, t, e)
  {
    hide IsText;
    assert TextPath(rx, t, e, [e]);
  }

  // ---- What is reported ------------------------------------------------------------------------------

  lemma {:induction false} AmongReports(rx: Patterns, ns: seq<Node>, t: set<string>, n: Node)
    ensures n in ReportedIn(rx, ns, t) <==> n in ns && Reported(rx, n, t)
  {
    hide Reported;
    if ns != [] { AmongReports(rx, ns[1..], t, n); }
  }

  lemma AmongAnswers(rx: Patterns, root: Node, n: Node)
    requires Answer(rx, root).Some?
    ensures n in Answer(rx, root).value <==> n in Preorder(root) && Reported(rx, n, Tainted(rx, root))
  {
    hide Reported, NoneThrows, Preorder, TaintedAfter;
    AmongReports(rx, Preorder(root), Tainted(rx, root), n);
  }

  /** The node is that text, quoted, in backquotes or between slashes. */
  predicate ReadsAs(n: Node, text: string) {
    IsQuoted(n, text) || Unwrapped(n) == RegularExpression(text)
  }

  predicate IsQuoted(n: Node, text: string) {
    Unwrapped(n) == StringLiteral(text) || Unwrapped(n) == NoSubstitutionTemplate(text)
  }

  lemma LiteralReads(n: Node)
    ensures forall text :: ReadsAs(n, text) <==> LiteralText(n) == Some(text)
  {
  }

  predicate IsSearch(name: string) {
    || name == "includes" || name == "startsWith" || name == "endsWith" || name == "indexOf" || name == "lastIndexOf"
    || name == "match" || name == "matchAll" || name == "test" || name == "exec" || name == "search" || name == "split"
  }

  lemma SearchesAreListed(name: string)
    ensures IsSearch(name) <==> name in SEARCH
  {
  }

  /** `callee` is `of.name` or `of["name"]`. */
  ghost predicate IsMethod(callee: Node, of: Node, name: string) {
    || Unwrapped(callee) == PropertyAccess(of, name)
    || (exists key: Node :: Unwrapped(callee) == ElementAccess(of, key) && ReadsAs(key, name))
  }

  lemma MethodIs(callee: Node, of: Node, name: string)
    ensures IsMethod(callee, of, name) <==> MethodOf(callee) == Some(Method(name, of))
  {
    hide ReadsAs, LiteralText;
    if Unwrapped(callee).ElementAccess? { LiteralReads(Unwrapped(callee).argument); }
  }

  /** A literal that reads like a message: twelve characters at least, and a sentence or a marker. */
  ghost predicate IsPhrase(rx: Patterns, n: Node) {
    exists text :: ReadsAs(n, text) && |text| >= 12 && (rx.sentence(text) || rx.marker(text))
  }

  lemma PhraseIs(rx: Patterns, n: Node)
    ensures IsPhrase(rx, n) <==> Phrase(rx, LiteralText(n))
  {
    LiteralReads(n);
  }

  /** A search of a text or for a phrase; a pattern tried on a text, or a phrase tried on anything; a search
      method called through `.call` with a text. */
  ghost predicate CallSearches(rx: Patterns, t: set<string>, of: Node, name: string, args: seq<Node>) {
    || (IsSearch(name) && (HoldsText(rx, t, of) || (args != [] && IsPhrase(rx, args[0]))))
    || ((name == "test" || name == "exec") && args != []
        && (HoldsText(rx, t, args[0]) || (Unwrapped(of).RegularExpression? && IsPhrase(rx, of))))
    || (name == "call" && args != [] && HoldsText(rx, t, args[0])
        && exists through: Node, search :: Unwrapped(of) == PropertyAccess(through, search) && IsSearch(search))
  }

  lemma ThroughSearch(of: Node)
    ensures (exists through: Node, search :: Unwrapped(of) == PropertyAccess(through, search) && IsSearch(search))
       <==> Unwrapped(of).PropertyAccess? && Unwrapped(of).name in SEARCH
  {
    hide SEARCH, IsSearch;
    if Unwrapped(of).PropertyAccess? { SearchesAreListed(Unwrapped(of).name); }
  }

  lemma CallSearchesIs(rx: Patterns, t: set<string>, of: Node, name: string, args: seq<Node>)
    ensures CallSearches(rx, t, of, name, args) <==> CallMatches(rx, Method(name, of), FirstArgument(args), t)
  {
    hide SEARCH, IsSearch, HoldsText, IsPhrase, Derives, Phrase, LiteralText;
    SearchesAreListed(name);
    ThroughSearch(of);
    DerivesExactlyWhenHoldsText(rx, t, of);
    PhraseIs(rx, of);
    if args != [] {
      DerivesExactlyWhenHoldsText(rx, t, args[0]);
      PhraseIs(rx, args[0]);
    }
  }

  /** A call is answered exactly when it is one of a method that searches so. */
  lemma CallIsAnsweredExactlyWhen(rx: Patterns, root: Node, callee: Node, args: seq<Node>)
    requires Answer(rx, root).Some? && Call(callee, args) in Preorder(root)
    ensures Call(callee, args) in Answer(rx, root).value
       <==> exists of: Node, name :: IsMethod(callee, of, name) && CallSearches(rx, Tainted(rx, root), of, name, args)
  {
    hide CallMatches, CallSearches, IsMethod, MethodOf, Answer, Preorder, Tainted;
    AmongAnswers(rx, root, Call(callee, args));
    forall of: Node, name
      ensures IsMethod(callee, of, name) <==> MethodOf(callee) == Some(Method(name, of))
      ensures CallSearches(rx, Tainted(rx, root), of, name, args)
         <==> CallMatches(rx, Method(name, of), FirstArgument(args), Tainted(rx, root))
    {
      MethodIs(callee, of, name);
      CallSearchesIs(rx, Tainted(rx, root), of, name, args);
    }
    if MethodOf(callee).Some? {
      var m := MethodOf(callee).value;
      assert IsMethod(callee, m.receiver, m.name);
    }
  }

  /** A text compared with a quoted one that is not empty. */
  ghost predicate Classifies(rx: Patterns, t: set<string>, text: Node, literal: Node) {
    HoldsText(rx, t, text) && exists s :: s != "" && IsQuoted(literal, s)
  }

  /** A text with something removed from it, compared with the empty one. */
  ghost predicate Empties(rx: Patterns, t: set<string>, text: Node, literal: Node) {
    && IsQuoted(literal, "")
    && exists callee: Node, args: seq<Node>, of: Node ::
         && Unwrapped(text) == Call(callee, args) && HoldsText(rx, t, of)
         && (|| Unwrapped(callee) == PropertyAccess(of, "replace")
             || Unwrapped(callee) == PropertyAccess(of, "replaceAll"))
  }

  lemma ClassifiesIs(rx: Patterns, t: set<string>, text: Node, literal: Node)
    ensures Classifies(rx, t, text, literal) <==> ClassifyingLiteral(literal) && Derives(rx, text, t)
  {
    hide Derives, HoldsText;
    DerivesExactlyWhenHoldsText(rx, t, text);
    LiteralReads(literal);
    if ClassifyingLiteral(literal) { assert IsQuoted(literal, LiteralText(literal).value); }
  }

  lemma EmptiesIs(rx: Patterns, t: set<string>, text: Node, literal: Node)
    ensures Empties(rx, t, text, literal) <==> IsEmpty(literal) && RemovesFromText(rx, text, t)
  {
    hide Derives, HoldsText;
    if RemovesFromText(rx, text, t) {
      var callee := Unwrapped(text).callee;
      var of := Unwrapped(callee).expression;
      DerivesExactlyWhenHoldsText(rx, t, of);
      assert Unwrapped(text) == Call(callee, Unwrapped(text).arguments);
      assert || Unwrapped(callee) == PropertyAccess(of, "replace")
             || Unwrapped(callee) == PropertyAccess(of, "replaceAll");
    } else if Empties(rx, t, text, literal) {
      EmptiesRemoves(rx, t, text, literal);
    }
  }

  lemma EmptiesRemoves(rx: Patterns, t: set<string>, text: Node, literal: Node)
    requires Empties(rx, t, text, literal)
    ensures RemovesFromText(rx, text, t)
  {
    hide Derives, HoldsText, IsQuoted;
    var callee: Node, args: seq<Node>, of: Node :|
      && Unwrapped(text) == Call(callee, args) && HoldsText(rx, t, of)
      && (Unwrapped(callee) == PropertyAccess(of, "replace") || Unwrapped(callee) == PropertyAccess(of, "replaceAll"));
    DerivesExactlyWhenHoldsText(rx, t, of);
  }

  /** A comparison is answered exactly when it is `===`, `!==`, `==` or `!=` and one side classifies or
      empties the other. */
  lemma ComparisonIsAnsweredExactlyWhen(rx: Patterns, root: Node, l: Node, op: Operator, r: Node)
    requires Answer(rx, root).Some? && Binary(l, op, r) in Preorder(root)
    ensures Binary(l, op, r) in Answer(rx, root).value
       <==> && (|| op == EqualsEqualsEquals || op == ExclamationEqualsEquals
                || op == EqualsEquals || op == ExclamationEquals)
            && (|| Classifies(rx, Tainted(rx, root), l, r) || Classifies(rx, Tainted(rx, root), r, l)
                || Empties(rx, Tainted(rx, root), l, r) || Empties(rx, Tainted(rx, root), r, l))
  {
    hide Classifies, Empties, ClassifyingLiteral, IsEmpty, Derives, RemovesFromText, Answer, Preorder, Tainted;
    AmongAnswers(rx, root, Binary(l, op, r));
    ClassifiesIs(rx, Tainted(rx, root), l, r);
    ClassifiesIs(rx, Tainted(rx, root), r, l);
    EmptiesIs(rx, Tainted(rx, root), l, r);
    EmptiesIs(rx, Tainted(rx, root), r, l);
  }

  /** A switch is answered exactly when it is on a text and has a literal case. */
  lemma SwitchIsAnsweredExactlyWhen(rx: Patterns, root: Node, subject: Node, clauses: seq<Clause>)
    requires Answer(rx, root).Some? && Switch(subject, clauses) in Preorder(root)
    ensures Switch(subject, clauses) in Answer(rx, root).value
       <==> && HoldsText(rx, Tainted(rx, root), subject)
            && exists clause, text :: clause in clauses && clause.CaseClause? && ReadsAs(clause.test, text)
  {
    hide Derives, HoldsText, Answer, Preorder, Tainted, LiteralText, ReadsAs;
    AmongAnswers(rx, root, Switch(subject, clauses));
    DerivesExactlyWhenHoldsText(rx, Tainted(rx, root), subject);
    CasesCompare(clauses);
  }

  lemma CasesCompare(clauses: seq<Clause>)
    ensures ComparesText(clauses)
       <==> exists clause, text :: clause in clauses && clause.CaseClause? && ReadsAs(clause.test, text)
  {
    hide LiteralText, ReadsAs;
    if ComparesText(clauses) {
      var i :| 0 <= i < |clauses| && clauses[i].CaseClause? && LiteralText(clauses[i].test).Some?;
      LiteralReads(clauses[i].test);
      assert clauses[i] in clauses && ReadsAs(clauses[i].test, LiteralText(clauses[i].test).value);
    }
    if clause, text :| clause in clauses && clause.CaseClause? && ReadsAs(clause.test, text) {
      LiteralReads(clause.test);
      var i :| 0 <= i < |clauses| && clauses[i] == clause;
      assert LiteralText(clauses[i].test).Some?;
    }
  }

  /** Nothing else is ever answered, and nothing that is not in the file. */
  lemma OnlyTheseAreAnswered(rx: Patterns, root: Node, n: Node)
    requires Answer(rx, root).Some? && n in Answer(rx, root).value
    ensures n in Preorder(root) && (n.Call? || n.Binary? || n.Switch?)
  {
    hide Answer, Preorder, Tainted;
    AmongAnswers(rx, root, n);
  }

  /** The plainest matches: an error's text compared, either way round and with any of the four operators. */
  lemma ComparedTextIsAnswered(rx: Patterns, root: Node, e: Node, op: Operator, s: string)
    requires Answer(rx, root).Some? && IsText(rx, Tainted(rx, root), e) && s != ""
    requires op == EqualsEqualsEquals || op == ExclamationEqualsEquals || op == EqualsEquals || op == ExclamationEquals
    ensures Binary(e, op, StringLiteral(s)) in Preorder(root) ==>
              Binary(e, op, StringLiteral(s)) in Answer(rx, root).value
    ensures Binary(StringLiteral(s), op, e) in Preorder(root) ==>
              Binary(StringLiteral(s), op, e) in Answer(rx, root).value
  {
    hide Answer, Preorder, Tainted, IsText, HoldsText;
    TextIsHeld(rx, Tainted(rx, root), e);
    assert IsQuoted(StringLiteral(s), s);
    if Binary(e, op, StringLiteral(s)) in Preorder(root) {
      ComparisonIsAnsweredExactlyWhen(rx, root, e, op, StringLiteral(s));
    }
    if Binary(StringLiteral(s), op, e) in Preorder(root) {
      ComparisonIsAnsweredExactlyWhen(rx, root, StringLiteral(s), op, e);
    }
  }

  /** A file is answered exactly when it has no search call without an argument on something that holds no text. */
  lemma AnsweredExactlyWhen(rx: Patterns, root: Node)
    ensures Answer(rx, root).Some?
       <==> !exists callee: Node, of: Node, name ::
              && Call(callee, []) in Preorder(root) && IsMethod(callee, of, name) && IsSearch(name)
              && !HoldsText(rx, Tainted(rx, root), of)
  {
    hide Derives, HoldsText, Preorder, Tainted, SEARCH, IsSearch, IsMethod, MethodOf;
    var t, ns := Tainted(rx, root), Preorder(root);
    NoneThrowsAnywhere(rx, ns, t);
    forall callee: Node, of: Node, name
      ensures IsMethod(callee, of, name) <==> MethodOf(callee) == Some(Method(name, of))
      ensures IsSearch(name) <==> name in SEARCH
      ensures Derives(rx, of, t) <==> HoldsText(rx, t, of)
    {
      MethodIs(callee, of, name);
      SearchesAreListed(name);
      DerivesExactlyWhenHoldsText(rx, t, of);
    }
    if i :| 0 <= i < |ns| && Throws(rx, ns[i], t) {
      var m := MethodOf(ns[i].callee).value;
      assert ns[i] == Call(ns[i].callee, []) && IsMethod(ns[i].callee, m.receiver, m.name);
    }
    if callee: Node, of: Node, name :|
      Call(callee, []) in ns && IsMethod(callee, of, name) && IsSearch(name) && !HoldsText(rx, t, of) {
      var i :| 0 <= i < |ns| && ns[i] == Call(callee, []);
      assert Throws(rx, ns[i], t);
    }
  }
}
