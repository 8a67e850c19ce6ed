/** The part of a TypeScript syntax tree the error-text scan looks at. One constructor per node
    kind the scan tests; every other kind is `Other`, which only carries its children. */
module Syntax {
  import opened Options

  datatype Operator =
    | QuestionQuestion
    | BarBar
    | Plus
    | EqualsEqualsEquals
    | ExclamationEqualsEquals
    | EqualsEquals
    | ExclamationEquals
    | OtherOperator

  datatype Node =
    | Identifier(text: string)
    | StringLiteral(text: string)
    | NoSubstitutionTemplate(text: string)
    | RegularExpression(text: string)
    | Parenthesized(expression: Node)
    | NonNull(expression: Node)
    | As(expression: Node, typeText: string)
    | PropertyAccess(expression: Node, name: string)
    | ElementAccess(expression: Node, argument: Node)
    | Template(spans: seq<Node>)
    | Binary(left: Node, operator: Operator, right: Node)
    | Call(callee: Node, arguments: seq<Node>)
    | Switch(subject: Node, clauses: seq<Clause>)
    /** `embedded` holds, in source order, the expressions a destructuring pattern contains
        (computed property names and defaults). */
    | VariableDeclaration(binding: Binding, embedded: seq<Node>, initializer: Option<Node>)
    | Catch(variable: Option<Binding>, embedded: seq<Node>, block: Node)
    | Other(children: seq<Node>)

  datatype Clause =
    | CaseClause(test: Node, body: seq<Node>)
    | DefaultClause(body: seq<Node>)

  /** What a declaration binds. A `None` slot of an array pattern is a hole. */
  datatype Binding =
    | Name(text: string)
    | ObjectPattern(elements: seq<Element>)
    | ArrayPattern(slots: seq<Option<Binding>>)

  /** `property` is the text of an identifier written before the colon, if there is one. */
  datatype Element = Element(property: Option<string>, target: Binding)

  predicate IsWrapper(n: Node) {
    n.Parenthesized? || n.NonNull? || n.As?
  }

  function ClauseNodes(cs: seq<Clause>): (ns: seq<Node>)
    ensures forall c <- ns :: exists i :: 0 <= i < |cs| && (c in cs[i].body || (cs[i].CaseClause? && c == cs[i].test))
  {
    if cs == [] then []
    else
      assert forall c <- ClauseNodes(cs[1..]) ::
          exists i :: 0 <= i < |cs| && (c in cs[i].body || (cs[i].CaseClause? && c == cs[i].test)) by {
        forall c <- ClauseNodes(cs[1..])
          ensures exists i :: 0 <= i < |cs| && (c in cs[i].body || (cs[i].CaseClause? && c == cs[i].test))
        {
          var j :| 0 <= j < |cs[1..]| && (c in cs[1..][j].body || (cs[1..][j].CaseClause? && c == cs[1..][j].test));
          assert cs[j + 1] == cs[1..][j];
        }
      }
      (match cs[0]
       case CaseClause(test, body) => [test] + body
       case DefaultClause(body) => body)
      + ClauseNodes(cs[1..])
  }

  /** The child nodes in the order `forEachChild` hands them out. */
  function Children(n: Node): (cs: seq<Node>)
    ensures forall c <- cs :: c < n
  {
    match n
    case Identifier(_) => []
    case StringLiteral(_) => []
    case NoSubstitutionTemplate(_) => []
    case RegularExpression(_) => []
    case Parenthesized(e) => [e]
    case NonNull(e) => [e]
    case As(e, _) => [e]
    case PropertyAccess(e, _) => [e]
    case ElementAccess(e, a) => [e, a]
    case Template(spans) => spans
    case Binary(l, _, r) => [l, r]
    case Call(f, args) => [f] + args
    case Switch(s, clauses) => [s] + ClauseNodes(clauses)
    case VariableDeclaration(_, es, init) => es + (if init.Some? then [init.value] else [])
    case Catch(_, es, block) => es + [block]
    case Other(cs) => cs
  }

  function Flatten(parts: seq<seq<Node>>): seq<Node> {
    if parts == [] then [] else parts[0] + Flatten(parts[1..])
  }

  /** Every node below and including `n`, parents first. */
  function Preorder(n: Node): (r: seq<Node>)
    ensures |r| > 0 && r[0] == n
  {
    var cs := Children(n);
    [n] + Flatten(seq(|cs|, i requires 0 <= i < |cs| => assert cs[i] in cs; Preorder(cs[i])))
  }

  function Forest(ns: seq<Node>): seq<Node> {
    if ns == [] then [] else Preorder(ns[0]) + Forest(ns[1..])
  }

  lemma {:induction false} FlattenIsForest(ns: seq<Node>, parts: seq<seq<Node>>)
    requires |parts| == |ns|
    requires forall i :: 0 <= i < |ns| ==> parts[i] == Preorder(ns[i])
    ensures Flatten(parts) == Forest(ns)
  {
    if ns != [] {
      FlattenIsForest(ns[1..], parts[1..]);
    }
  }

  lemma PreorderUnfolds(n: Node)
    ensures Preorder(n) == [n] + Forest(Children(n))
  {
    var cs := Children(n);
    FlattenIsForest(cs, seq(|cs|, i requires 0 <= i < |cs| => Preorder(cs[i])));
  }

  lemma {:induction false} ForestAppend(ms: seq<Node>, ns: seq<Node>)
    ensures Forest(ms + ns) == Forest(ms) + Forest(ns)
  {
    if ms == [] {
      assert ms + ns == ns;
    } else {
      assert (ms + ns)[0] == ms[0] && (ms + ns)[1..] == ms[1..] + ns;
      ForestAppend(ms[1..], ns);
    }
  }
}
