/** What the error-text scan computes, as functions of a set of tainted names. */
module TaintRules {
  import opened Options
  import opened Syntax
  import opened RulePasses

  /** The three regular expressions of the scan, kept as arbitrary predicates on text. */
  datatype Patterns = Patterns(messageNamed: string -> bool, sentence: string -> bool, marker: string -> bool)

  const SEARCH: set<string> := {
    "includes", "startsWith", "endsWith", "indexOf", "lastIndexOf", "match", "matchAll",
    "test", "exec", "search", "split"
  }

  const STRING_PRESERVING: set<string> := {
    "toLowerCase", "toUpperCase", "trim", "trimStart", "trimEnd", "toString", "slice", "substring",
    "substr", "replace", "replaceAll", "normalize", "split", "at", "padStart", "padEnd", "concat"
  }

  const MIN_PHRASE: nat := 12
  const MAX_PASSES: nat := 8

  function Unwrapped(n: Node): (r: Node)
    ensures !IsWrapper(r)
    ensures r == n || r < n
    ensures !IsWrapper(n) ==> r == n
  {
    if IsWrapper(n) then Unwrapped(n.expression) else n
  }

  function LiteralText(n: Node): Option<string> {
    match Unwrapped(n)
    case StringLiteral(text) => Some(text)
    case NoSubstitutionTemplate(text) => Some(text)
    case RegularExpression(text) => Some(text)
    case _ => None
  }

  function PropertyOf(e: Element): Option<string> {
    if e.property.Some? then e.property
    else if e.target.Name? then Some(e.target.text) else None
  }

  /** The names a pattern binds, in source order; with `only`, those bound from that property. */
  function BoundNames(b: Binding, only: Option<string>): seq<string>
    decreases b
  {
    match b
    case Name(text) => [text]
    case ObjectPattern(es) => ElementNames(es, only)
    case ArrayPattern(slots) => SlotNames(slots, only)
  }

  function ElementNames(es: seq<Element>, only: Option<string>): seq<string>
    decreases es
  {
    if es == [] then []
    else
      OneElementNames(es[0], only) + ElementNames(es[1..], only)
  }

  function OneElementNames(e: Element, only: Option<string>): seq<string>
    decreases e
  {
    if only.None? || PropertyOf(e) == only then BoundNames(e.target, None) else []
  }

  function SlotNames(slots: seq<Option<Binding>>, only: Option<string>): seq<string>
    decreases slots
  {
    if slots == [] then []
    else
      OneSlotNames(slots[0], only) + SlotNames(slots[1..], only)
  }

  function OneSlotNames(slot: Option<Binding>, only: Option<string>): seq<string>
    decreases slot
  {
    if slot.Some? then BoundNames(slot.value, only) else []
  }

  function ToSet(names: seq<string>): (s: set<string>)
    ensures forall x :: x in s <==> x in names
  {
    if names == [] then {} else {names[0]} + ToSet(names[1..])
  }

  /** Whether the value of `e` is an error, or text made from one, given the tainted names. */
  predicate Derives(rx: Patterns, e: Node, t: set<string>)
    decreases e
  {
    match Unwrapped(e)
    case Identifier(text) => text in t || rx.messageNamed(text)
    case PropertyAccess(obj, name) =>
      name == "message" || (rx.messageNamed(name) && Derives(rx, obj, t))
    case ElementAccess(obj, _) => Derives(rx, obj, t)
    case Template(spans) => exists i :: 0 <= i < |spans| && Derives(rx, spans[i], t)
    case Binary(l, op, r) =>
      (op.QuestionQuestion? || op.BarBar? || op.Plus?) && (Derives(rx, l, t) || Derives(rx, r, t))
    case Call(f, _) =>
      (match Unwrapped(f)
       case Identifier(text) => text == "String" || text == "formatError"
       case PropertyAccess(obj, name) => name in STRING_PRESERVING && Derives(rx, obj, t)
       case _ => false)
    case _ => false
  }

  /** The names any one of which, tainted, makes `e` derive from an error. */
  function Mentions(rx: Patterns, e: Node): set<string>
    decreases e
  {
    match Unwrapped(e)
    case Identifier(text) => {text}
    case PropertyAccess(obj, name) => if rx.messageNamed(name) then Mentions(rx, obj) else {}
    case ElementAccess(obj, _) => Mentions(rx, obj)
    case Template(spans) => AllMentions(rx, spans)
    case Binary(l, op, r) =>
      if op.QuestionQuestion? || op.BarBar? || op.Plus? then Mentions(rx, l) + Mentions(rx, r) else {}
    case Call(f, _) =>
      (match Unwrapped(f)
       case PropertyAccess(obj, name) => if name in STRING_PRESERVING then Mentions(rx, obj) else {}
       case _ => {})
    case _ => {}
  }

  function AllMentions(rx: Patterns, es: seq<Node>): set<string>
    decreases es
  {
    if es == [] then {} else Mentions(rx, es[0]) + AllMentions(rx, es[1..])
  }

  lemma UnionMeets(a: set<string>, b: set<string>, t: set<string>)
    ensures (a + b) * t != {} <==> a * t != {} || b * t != {}
  {
    assert (a + b) * t == a * t + b * t;
  }

  /** Tainted names act on an expression one by one. */
  ghost predicate ByMention(rx: Patterns, e: Node, t: set<string>) {
    Derives(rx, e, t) <==> Derives(rx, e, {}) || Mentions(rx, e) * t != {}
  }

  lemma LeafByMention(rx: Patterns, e: Node, t: set<string>)
    requires var n := Unwrapped(e);
             !n.PropertyAccess? && !n.ElementAccess? && !n.Template? && !n.Binary? && !n.Call?
    ensures ByMention(rx, e, t)
  {
    if Unwrapped(e).Identifier? {
      var text := Unwrapped(e).text;
      if text in t { assert text in {text} * t; }
    }
  }

  lemma AccessByMention(rx: Patterns, e: Node, t: set<string>)
    requires var n := Unwrapped(e); (n.PropertyAccess? || n.ElementAccess?) && ByMention(rx, n.expression, t)
    ensures ByMention(rx, e, t)
  {
  }

  lemma TemplateByMention(rx: Patterns, e: Node, spans: seq<Node>, t: set<string>)
    requires Unwrapped(e) == Template(spans)
    requires (exists i :: 0 <= i < |spans| && Derives(rx, spans[i], t))
         <==> (exists i :: 0 <= i < |spans| && Derives(rx, spans[i], {})) || AllMentions(rx, spans) * t != {}
    ensures ByMention(rx, e, t)
  {
  }

  lemma BinaryByMention(rx: Patterns, e: Node, l: Node, r: Node, t: set<string>)
    requires Unwrapped(e).Binary? && l == Unwrapped(e).left && r == Unwrapped(e).right
    requires ByMention(rx, l, t) && ByMention(rx, r, t)
    ensures ByMention(rx, e, t)
  {
    UnionMeets(Mentions(rx, l), Mentions(rx, r), t);
  }

  lemma CallByMention(rx: Patterns, e: Node, f: Node, t: set<string>)
    requires Unwrapped(e).Call? && f == Unwrapped(Unwrapped(e).callee)
    requires f.PropertyAccess? ==> ByMention(rx, f.expression, t)
    ensures ByMention(rx, e, t)
  {
    hide STRING_PRESERVING;
  }

  /** An expression derives from an error on a base fact, or because of one tainted name. */
  lemma {:induction false} DerivesByMention(rx: Patterns, e: Node, t: set<string>)
    ensures Derives(rx, e, t) <==> Derives(rx, e, {}) || Mentions(rx, e) * t != {}
    decreases e
  {
    hide Derives, Mentions, AllMentions, Unwrapped, STRING_PRESERVING, SEARCH;
    match Unwrapped(e)
    case PropertyAccess(obj, _) =>
      DerivesByMention(rx, obj, t);
      AccessByMention(rx, e, t);
    case ElementAccess(obj, _) =>
      DerivesByMention(rx, obj, t);
      AccessByMention(rx, e, t);
    case Template(spans) =>
      SpansDeriveByMention(rx, spans, t);
      TemplateByMention(rx, e, spans, t);
    case Binary(l, _, r) =>
      DerivesByMention(rx, l, t);
      DerivesByMention(rx, r, t);
      BinaryByMention(rx, e, l, r, t);
    case Call(f, _) =>
      if Unwrapped(f).PropertyAccess? { DerivesByMention(rx, Unwrapped(f).expression, t); }
      CallByMention(rx, e, Unwrapped(f), t);
    case _ => LeafByMention(rx, e, t);
  }

  lemma {:induction false} SpansDeriveByMention(rx: Patterns, es: seq<Node>, t: set<string>)
    ensures (exists i :: 0 <= i < |es| && Derives(rx, es[i], t))
        <==> (exists i :: 0 <= i < |es| && Derives(rx, es[i], {})) || AllMentions(rx, es) * t != {}
    decreases es
  {
    if es != [] {
      DerivesByMention(rx, es[0], t);
      SpansDeriveByMention(rx, es[1..], t);
      UnionMeets(Mentions(rx, es[0]), AllMentions(rx, es[1..]), t);
      AnySpan(rx, es, t);
      AnySpan(rx, es, {});
    }
  }

  lemma AnySpan(rx: Patterns, es: seq<Node>, t: set<string>)
    requires es != []
    ensures (exists i :: 0 <= i < |es| && Derives(rx, es[i], t))
        <==> Derives(rx, es[0], t) || exists i :: 0 <= i < |es[1..]| && Derives(rx, es[1..][i], t)
  {
    if i :| 0 <= i < |es| && Derives(rx, es[i], t) && i > 0 { assert es[1..][i - 1] == es[i]; }
    if i :| 0 <= i < |es[1..]| && Derives(rx, es[1..][i], t) { assert es[i + 1] == es[1..][i]; }
  }

  // ---- What one node adds to the tainted names -----------------------------------------------

  function SeedOf(n: Node): set<string> {
    if n.Catch? && n.variable.Some? then ToSet(BoundNames(n.variable.value, None)) else {}
  }

  function SeedsIn(ns: seq<Node>): set<string> {
    if ns == [] then {} else SeedOf(ns[0]) + SeedsIn(ns[1..])
  }

  const NO_RULE: Rule<string> := Rule({}, {}, false, {})

  /** A declaration as a rule. An object pattern takes its `message` member whatever the
      initializer is; everything else depends on the initializer. */
  function RuleOf(rx: Patterns, n: Node): Rule<string> {
    if n.VariableDeclaration? && n.initializer.Some? then
      var init := Unwrapped(n.initializer.value);
      Rule(if n.binding.ObjectPattern? then ToSet(BoundNames(n.binding, Some("message"))) else {},
           ToSet(BoundNames(n.binding, None)),
           Derives(rx, init, {}),
           Mentions(rx, init))
    else NO_RULE
  }

  function RulesOf(rx: Patterns, ns: seq<Node>): (rules: seq<Rule<string>>)
    ensures |rules| == |ns|
  {
    if ns == [] then [] else [RuleOf(rx, ns[0])] + RulesOf(rx, ns[1..])
  }

  lemma {:induction false} RulesConcat(rx: Patterns, ms: seq<Node>, ns: seq<Node>)
    ensures RulesOf(rx, ms + ns) == RulesOf(rx, ms) + RulesOf(rx, ns)
  {
    hide RuleOf;
    if ms == [] {
      assert ms + ns == ns;
    } else {
      RulesConcat(rx, ms[1..], ns);
      assert (ms + ns)[1..] == ms[1..] + ns;
    }
  }

  // ---- What the reporter looks for ------------------------------------------------------------

  datatype Method = Method(name: string, receiver: Node)

  function MethodOf(callee: Node): Option<Method> {
    match Unwrapped(callee)
    case PropertyAccess(e, name) => Some(Method(name, e))
    case ElementAccess(e, argument) =>
      (match LiteralText(argument)
       case Some(key) => Some(Method(key, e))
       case None => None)
    case _ => None
  }

  predicate Phrase(rx: Patterns, literal: Option<string>) {
    literal.Some? && |literal.value| >= MIN_PHRASE && (rx.sentence(literal.value) || rx.marker(literal.value))
  }

  predicate ClassifyingLiteral(n: Node) {
    LiteralText(n).Some? && LiteralText(n).value != "" && !Unwrapped(n).RegularExpression?
  }

  predicate IsEmpty(n: Node) {
    LiteralText(n) == Some("") && !Unwrapped(n).RegularExpression?
  }

  predicate RemovesFromText(rx: Patterns, n: Node, t: set<string>) {
    match Unwrapped(n)
    case Call(f, _) =>
      (match Unwrapped(f)
       case PropertyAccess(obj, name) => (name == "replace" || name == "replaceAll") && Derives(rx, obj, t)
       case _ => false)
    case _ => false
  }

  predicate EqualsLiteral(rx: Patterns, l: Node, r: Node, t: set<string>) {
    || (ClassifyingLiteral(r) && Derives(rx, l, t))
    || (ClassifyingLiteral(l) && Derives(rx, r, t))
    || (IsEmpty(r) && RemovesFromText(rx, l, t))
    || (IsEmpty(l) && RemovesFromText(rx, r, t))
  }

  function FirstArgument(arguments: seq<Node>): Option<Node> {
    if arguments == [] then None else Some(arguments[0])
  }

  predicate CallMatches(rx: Patterns, m: Method, argument: Option<Node>, t: set<string>) {
    var through := Unwrapped(m.receiver);
    // Without an argument and with a receiver that derives nothing, the scan throws: see `Throws`.
    || (m.name in SEARCH
        && (Derives(rx, m.receiver, t) || (argument.Some? && Phrase(rx, LiteralText(argument.value)))))
    || ((m.name == "test" || m.name == "exec") && argument.Some?
        && (Derives(rx, argument.value, t)
            || (through.RegularExpression? && Phrase(rx, LiteralText(m.receiver)))))
    || (m.name == "call" && through.PropertyAccess? && through.name in SEARCH
        && argument.Some? && Derives(rx, argument.value, t))
  }

  predicate Equality(op: Operator) {
    op.EqualsEqualsEquals? || op.ExclamationEqualsEquals? || op.EqualsEquals? || op.ExclamationEquals?
  }

  predicate ComparesText(cs: seq<Clause>) {
    exists i :: 0 <= i < |cs| && cs[i].CaseClause? && LiteralText(cs[i].test).Some?
  }

  /** Whether the reporter pushes this very node. */
  predicate Reported(rx: Patterns, n: Node, t: set<string>) {
    match n
    case Call(f, args) => MethodOf(f).Some? && CallMatches(rx, MethodOf(f).value, FirstArgument(args), t)
    case Binary(l, op, r) => Equality(op) && EqualsLiteral(rx, l, r, t)
    case Switch(s, cs) => Derives(rx, s, t) && ComparesText(cs)
    case _ => false
  }

  /** A search call without an argument whose receiver derives nothing: the reporter goes on to ask for
      the literal text of the missing argument, and there is no node to ask. */
  predicate Throws(rx: Patterns, n: Node, t: set<string>) {
    match n
    case Call(f, args) =>
      args == [] && MethodOf(f).Some? && MethodOf(f).value.name in SEARCH && !Derives(rx, MethodOf(f).value.receiver, t)
    case _ => false
  }

  predicate NoneThrows(rx: Patterns, ns: seq<Node>, t: set<string>) {
    ns == [] || (!Throws(rx, ns[0], t) && NoneThrows(rx, ns[1..], t))
  }

  function ReportedIn(rx: Patterns, ns: seq<Node>, t: set<string>): seq<Node> {
    if ns == [] then [] else (if Reported(rx, ns[0], t) then [ns[0]] else []) + ReportedIn(rx, ns[1..], t)
  }

  /** The tainted names after p passes over a whole file. */
  function TaintedAfter(rx: Patterns, root: Node, p: nat): set<string> {
    AfterPasses(RulesOf(rx, Preorder(root)), SeedsIn(Preorder(root)), p)
  }

  /** The tainted names the capped passes leave. */
  function Tainted(rx: Patterns, root: Node): set<string> {
    TaintedAfter(rx, root, MAX_PASSES)
  }

  /** Whether the scan of a file gets to its end. */
  predicate Finishes(rx: Patterns, root: Node) {
    NoneThrows(rx, Preorder(root), Tainted(rx, root))
  }

  /** What a scan that gets to its end reports for a whole file. */
  function Matches(rx: Patterns, root: Node): seq<Node> {
    ReportedIn(rx, Preorder(root), Tainted(rx, root))
  }

  /** The answer of a scan: nothing when it throws. */
  function Answer(rx: Patterns, root: Node): Option<seq<Node>> {
    if Finishes(rx, root) then Some(Matches(rx, root)) else None
  }

  // ---- Walks end to end ----------------------------------------------------------------------------

  lemma {:induction false} SeedsAppend(ms: seq<Node>, ns: seq<Node>)
    ensures SeedsIn(ms + ns) == SeedsIn(ms) + SeedsIn(ns)
  {
    hide SeedOf;
    if ms == [] {
      assert ms + ns == ns;
    } else {
      assert (ms + ns)[1..] == ms[1..] + ns;
      SeedsAppend(ms[1..], ns);
    }
  }

  lemma {:induction false} ReportsAppend(rx: Patterns, ms: seq<Node>, ns: seq<Node>, t: set<string>)
    ensures ReportedIn(rx, ms + ns, t) == ReportedIn(rx, ms, t) + ReportedIn(rx, ns, t)
  {
    hide Reported;
    if ms == [] {
      assert ms + ns == ns;
    } else {
      assert (ms + ns)[1..] == ms[1..] + ns;
      ReportsAppend(rx, ms[1..], ns, t);
    }
  }

  lemma {:induction false} NoneThrowsAnywhere(rx: Patterns, ns: seq<Node>, t: set<string>)
    ensures NoneThrows(rx, ns, t) <==> forall i :: 0 <= i < |ns| ==> !Throws(rx, ns[i], t)
  {
    hide Throws;
    if ns != [] {
      NoneThrowsAnywhere(rx, ns[1..], t);
      assert forall i :: 0 < i < |ns| ==> ns[i] == ns[1..][i - 1];
    }
  }

  /** The positions from i on that the reporter pushes. */
  function Qualifying(rx: Patterns, ns: seq<Node>, t: set<string>, i: nat): seq<nat>
    requires i <= |ns|
    decreases |ns| - i
  {
    if i == |ns| then [] else (if Reported(rx, ns[i], t) then [i] else []) + Qualifying(rx, ns, t, i + 1)
  }

  /** Each qualifying node is reported once, in the order of the walk. */
  lemma {:induction false} ReportsEachQualifyingNodeOnce(rx: Patterns, ns: seq<Node>, t: set<string>, i: nat)
    requires i <= |ns|
    ensures var at := Qualifying(rx, ns, t, i);
            && |at| == |ReportedIn(rx, ns[i..], t)|
            && (forall k :: 0 <= k < |at| ==> i <= at[k] < |ns| && ReportedIn(rx, ns[i..], t)[k] == ns[at[k]])
            && (forall j, k :: 0 <= j < k < |at| ==> at[j] < at[k])
            && (forall k: nat :: k in at <==> i <= k < |ns| && Reported(rx, ns[k], t))
    decreases |ns| - i
  {
    hide Reported;
    if i < |ns| {
      ReportsEachQualifyingNodeOnce(rx, ns, t, i + 1);
      assert ns[i..][1..] == ns[i + 1..];
    }
  }
}
