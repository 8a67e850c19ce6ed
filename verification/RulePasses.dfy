/** Repeated in-place passes over rules that each fire on a base fact or on one element already
    derived: which elements the passes reach, the least fixpoint, and what a cap on the passes
    can lose. */
module RulePasses {

  /** `always` is added unconditionally; `conditional` when the rule has a base fact or when one
      of its `sources` has been derived. */
  datatype Rule<T(==)> = Rule(always: set<T>, conditional: set<T>, base: bool, sources: set<T>)

  predicate Fires<T>(r: Rule<T>, t: set<T>) {
    r.base || r.sources * t != {}
  }

  function Effect<T>(r: Rule<T>, t: set<T>): set<T> {
    r.always + if Fires(r, t) then r.conditional else {}
  }

  /** One in-place pass: each rule sees what the rules before it have already derived. */
  function Pass<T>(rules: seq<Rule<T>>, t: set<T>): set<T> {
    if rules == [] then t
    else
      var u := Pass(rules[..|rules| - 1], t);
      u + Effect(rules[|rules| - 1], u)
  }

  function AfterPasses<T>(rules: seq<Rule<T>>, seeds: set<T>, p: nat): set<T> {
    if p == 0 then seeds else Pass(rules, AfterPasses(rules, seeds, p - 1))
  }

  lemma NextPass<T>(rules: seq<Rule<T>>, seeds: set<T>, p: nat)
    ensures AfterPasses(rules, seeds, 0) == seeds
    ensures AfterPasses(rules, seeds, p + 1) == Pass(rules, AfterPasses(rules, seeds, p))
  {
  }

  lemma EffectMonotone<T>(r: Rule<T>, t: set<T>, u: set<T>)
    requires t <= u
    ensures Effect(r, t) <= Effect(r, u)
  {}

  // ---- Passes -----------------------------------------------------------------------------------

  lemma {:induction false} PassGrows<T>(rules: seq<Rule<T>>, t: set<T>)
    ensures t <= Pass(rules, t)
  {
    if rules != [] { PassGrows(rules[..|rules| - 1], t); }
  }

  /** What was tainted after the first i nodes of a pass is still tainted at its end. */
  lemma {:induction false} PassPrefixGrows<T>(rules: seq<Rule<T>>, t: set<T>, i: nat)
    requires i <= |rules|
    ensures Pass(rules[..i], t) <= Pass(rules, t)
    decreases |rules| - i
  {
    if i < |rules| {
      assert rules[..i + 1][..i] == rules[..i];
      PassPrefixGrows(rules, t, i + 1);
    } else {
      assert rules[..i] == rules;
    }
  }

  lemma {:induction false} PassMonotone<T>(rules: seq<Rule<T>>, t: set<T>, u: set<T>)
    requires t <= u
    ensures Pass(rules, t) <= Pass(rules, u)
  {
    if rules != [] {
      PassMonotone(rules[..|rules| - 1], t, u);
      EffectMonotone(rules[|rules| - 1], Pass(rules[..|rules| - 1], t), Pass(rules[..|rules| - 1], u));
    }
  }

  lemma {:induction false} MorePassesGrow<T>(rules: seq<Rule<T>>, seeds: set<T>, p: nat, q: nat)
    requires p <= q
    ensures AfterPasses(rules, seeds, p) <= AfterPasses(rules, seeds, q)
  {
    if p < q {
      MorePassesGrow(rules, seeds, p, q - 1);
      PassGrows(rules, AfterPasses(rules, seeds, q - 1));
    }
  }

  // ---- Derivation chains --------------------------------------------------------------------------

  /** The positions of the rules an element is derived through. */
  datatype Chain = Start | Link(before: Chain, at: nat)

  /** The empty chain yields the seeds. A first link needs a seed, an unconditional element or a
      base fact; every later link needs an element the link before it yields. */
  ghost predicate Yields<T>(rules: seq<Rule<T>>, seeds: set<T>, chain: Chain, x: T) {
    match chain
    case Start => x in seeds
    case Link(before, at) =>
      && at < |rules|
      && (|| (before.Start? && (x in rules[at].always || (x in rules[at].conditional && rules[at].base)))
          || (x in rules[at].conditional && exists y :: Yields(rules, seeds, before, y) && y in rules[at].sources))
  }

  ghost predicate Reachable<T>(rules: seq<Rule<T>>, seeds: set<T>, x: T) {
    exists chain :: Yields(rules, seeds, chain, x)
  }

  /** How often a chain goes to a rule at or before the one it comes from. */
  function BackwardSteps(chain: Chain): nat {
    if chain.Start? || chain.before.Start? then 0
    else BackwardSteps(chain.before) + if chain.at <= chain.before.at then 1 else 0
  }

  /** The passes a chain needs. */
  function Rounds(chain: Chain): nat {
    if chain.Start? then 0 else 1 + BackwardSteps(chain)
  }

  ghost predicate ReachableWithin<T>(rules: seq<Rule<T>>, seeds: set<T>, p: nat, x: T) {
    exists chain :: Yields(rules, seeds, chain, x) && Rounds(chain) <= p
  }

  lemma RuleDerives<T>(rules: seq<Rule<T>>, t: set<T>, i: nat, v: set<T>, x: T)
    requires i < |rules| && v <= Pass(rules[..i], t)
    requires x in rules[i].always || (x in rules[i].conditional && Fires(rules[i], v))
    ensures x in Pass(rules[..i + 1], t)
  {
    assert rules[..i + 1][..i] == rules[..i];
    EffectMonotone(rules[i], v, Pass(rules[..i], t));
  }

  /** A chain is followed up to its last rule by the time that rule has been visited in the pass
      the chain needs. */
  lemma {:induction false} ChainIsFollowed<T>(rules: seq<Rule<T>>, seeds: set<T>, chain: Chain, x: T, p: nat)
    requires chain.Link? && Yields(rules, seeds, chain, x) && Rounds(chain) <= p + 1
    ensures chain.at < |rules|
    ensures x in Pass(rules[..chain.at + 1], AfterPasses(rules, seeds, p))
    decreases chain, 0
  {
    var Link(before, at) := chain;
    var t := AfterPasses(rules, seeds, p);
    if before.Start? && (x in rules[at].always || (x in rules[at].conditional && rules[at].base)) {
      RuleDerives(rules, t, at, {}, x);
    } else {
      var y :| Yields(rules, seeds, before, y) && y in rules[at].sources;
      LinkIsReady(rules, seeds, before, at, y, p);
      assert y in rules[at].sources * {y};
      RuleDerives(rules, t, at, {y}, x);
    }
  }

  /** The element a link needs is derived before that link is visited. */
  lemma {:induction false} LinkIsReady<T>(rules: seq<Rule<T>>, seeds: set<T>, before: Chain, at: nat, y: T, p: nat)
    requires at < |rules| && Rounds(Link(before, at)) <= p + 1
    requires Yields(rules, seeds, before, y)
    ensures y in Pass(rules[..at], AfterPasses(rules, seeds, p))
    decreases before, 1
  {
    var t := AfterPasses(rules, seeds, p);
    if before.Start? {
      MorePassesGrow(rules, seeds, 0, p);
      PassGrows(rules[..at], t);
    } else if before.at < at {
      ChainIsFollowed(rules, seeds, before, y, p);
      assert rules[..at][..before.at + 1] == rules[..before.at + 1];
      PassPrefixGrows(rules[..at], t, before.at + 1);
    } else {
      ChainIsFollowed(rules, seeds, before, y, p - 1);
      PassPrefixGrows(rules, AfterPasses(rules, seeds, p - 1), before.at + 1);
      PassGrows(rules[..at], t);
    }
  }

  ghost predicate Explains<T>(rules: seq<Rule<T>>, seeds: set<T>, chain: Chain, x: T, p: nat, i: nat) {
    && Yields(rules, seeds, chain, x)
    && (Rounds(chain) <= p || (chain.Link? && Rounds(chain) == p + 1 && chain.at < i))
  }

  /** Whatever is derived after p passes and i rules of the next is explained by a chain. */
  lemma {:induction false} DerivedIsExplained<T>(rules: seq<Rule<T>>, seeds: set<T>, p: nat, i: nat, x: T)
    returns (chain: Chain)
    requires i <= |rules| && x in Pass(rules[..i], AfterPasses(rules, seeds, p))
    ensures Explains(rules, seeds, chain, x, p, i)
    decreases p, i
  {
    if i == 0 {
      if p == 0 {
        chain := Start;
      } else {
        assert rules[..|rules|] == rules;
        chain := DerivedIsExplained(rules, seeds, p - 1, |rules|, x);
      }
    } else {
      var u := Pass(rules[..i - 1], AfterPasses(rules, seeds, p));
      assert rules[..i][..i - 1] == rules[..i - 1];
      if x in u {
        chain := DerivedIsExplained(rules, seeds, p, i - 1, x);
      } else if x in rules[i - 1].always || rules[i - 1].base {
        chain := Link(Start, i - 1);
      } else {
        var y :| y in rules[i - 1].sources * u;
        var before := DerivedIsExplained(rules, seeds, p, i - 1, y);
        chain := Link(before, i - 1);
      }
    }
  }

  lemma DerivedHaveChain<T>(rules: seq<Rule<T>>, seeds: set<T>, p: nat, x: T) returns (chain: Chain)
    requires x in AfterPasses(rules, seeds, p)
    ensures Yields(rules, seeds, chain, x) && Rounds(chain) <= p
  {
    assert Pass(rules[..0], AfterPasses(rules, seeds, p)) == AfterPasses(rules, seeds, p);
    chain := DerivedIsExplained(rules, seeds, p, 0, x);
  }

  lemma ChainedAreDerived<T>(rules: seq<Rule<T>>, seeds: set<T>, chain: Chain, x: T, p: nat)
    requires Yields(rules, seeds, chain, x) && Rounds(chain) <= p
    ensures x in AfterPasses(rules, seeds, p)
  {
    if chain.Start? {
      MorePassesGrow(rules, seeds, 0, p);
    } else {
      ChainIsFollowed(rules, seeds, chain, x, p - 1);
      PassPrefixGrows(rules, AfterPasses(rules, seeds, p - 1), chain.at + 1);
    }
  }

  /** Exactly the elements with a chain of fewer than p backward steps are derived after p passes. */
  lemma PassesFollowChains<T>(rules: seq<Rule<T>>, seeds: set<T>, p: nat)
    ensures forall x :: x in AfterPasses(rules, seeds, p) <==> ReachableWithin(rules, seeds, p, x)
  {
    forall x ensures x in AfterPasses(rules, seeds, p) <==> ReachableWithin(rules, seeds, p, x) {
      if x in AfterPasses(rules, seeds, p) {
        var chain := DerivedHaveChain(rules, seeds, p, x);
      } else if ReachableWithin(rules, seeds, p, x) {
        var chain :| Yields(rules, seeds, chain, x) && Rounds(chain) <= p;
        ChainedAreDerived(rules, seeds, chain, x, p);
      }
    }
  }

  // ---- The fixpoint --------------------------------------------------------------------------------

  /** A pass that changes nothing is followed by passes that change nothing. */
  lemma {:induction false} QuietPassIsFinal<T>(rules: seq<Rule<T>>, seeds: set<T>, p: nat, q: nat)
    requires AfterPasses(rules, seeds, p + 1) == AfterPasses(rules, seeds, p) && p <= q
    ensures AfterPasses(rules, seeds, q) == AfterPasses(rules, seeds, p)
  {
    if p < q { QuietPassIsFinal(rules, seeds, p, q - 1); }
  }

  ghost predicate Closed<T>(rules: seq<Rule<T>>, seeds: set<T>, t: set<T>) {
    seeds <= t && forall r <- rules :: Effect(r, t) <= t
  }

  lemma {:induction false} ClosedBoundsPass<T>(rules: seq<Rule<T>>, t: set<T>, u: set<T>)
    requires t <= u && forall r <- rules :: Effect(r, u) <= u
    ensures Pass(rules, t) <= u
  {
    if rules != [] {
      var r := rules[|rules| - 1];
      ClosedBoundsPass(rules[..|rules| - 1], t, u);
      EffectMonotone(r, Pass(rules[..|rules| - 1], t), u);
    }
  }

  lemma {:induction false} ClosedBoundsPasses<T>(rules: seq<Rule<T>>, seeds: set<T>, t: set<T>, p: nat)
    requires Closed(rules, seeds, t)
    ensures AfterPasses(rules, seeds, p) <= t
  {
    if p > 0 {
      ClosedBoundsPasses(rules, seeds, t, p - 1);
      ClosedBoundsPass(rules, AfterPasses(rules, seeds, p - 1), t);
    }
  }

  /** A quiet pass leaves every rule with nothing to add. */
  lemma {:induction false} QuietPassIsClosed<T>(rules: seq<Rule<T>>, t: set<T>)
    requires Pass(rules, t) == t
    ensures forall r <- rules :: Effect(r, t) <= t
  {
    if rules != [] {
      var u := Pass(rules[..|rules| - 1], t);
      PassGrows(rules[..|rules| - 1], t);
      assert u == t;
      QuietPassIsClosed(rules[..|rules| - 1], t);
      forall r <- rules ensures Effect(r, t) <= t {
        assert r in rules[..|rules| - 1] || r == rules[|rules| - 1];
      }
    }
  }

  /** When a pass changes nothing, the derived elements are exactly the reachable ones, and they
      are the least set closed under the rules. */
  lemma QuietPassIsLeastFixpoint<T>(rules: seq<Rule<T>>, seeds: set<T>, p: nat)
    requires AfterPasses(rules, seeds, p + 1) == AfterPasses(rules, seeds, p)
    ensures forall x :: x in AfterPasses(rules, seeds, p) <==> Reachable(rules, seeds, x)
    ensures Closed(rules, seeds, AfterPasses(rules, seeds, p))
    ensures forall t :: Closed(rules, seeds, t) ==> AfterPasses(rules, seeds, p) <= t
  {
    var t := AfterPasses(rules, seeds, p);
    forall x ensures x in t <==> Reachable(rules, seeds, x) {
      if x in t {
        var chain := DerivedHaveChain(rules, seeds, p, x);
      } else if chain :| Yields(rules, seeds, chain, x) {
        var q := if Rounds(chain) <= p then p else Rounds(chain);
        ChainedAreDerived(rules, seeds, chain, x, q);
        QuietPassIsFinal(rules, seeds, p, q);
      }
    }
    MorePassesGrow(rules, seeds, 0, p);
    QuietPassIsClosed(rules, t);
    forall u | Closed(rules, seeds, u) ensures t <= u {
      ClosedBoundsPasses(rules, seeds, u, p);
    }
  }

  /** Everything some rule can add. */
  function Bindable<T>(rules: seq<Rule<T>>): set<T> {
    if rules == [] then {}
    else Bindable(rules[..|rules| - 1]) + rules[|rules| - 1].always + rules[|rules| - 1].conditional
  }

  lemma {:induction false} PassAddsBindable<T>(rules: seq<Rule<T>>, t: set<T>)
    ensures Pass(rules, t) <= t + Bindable(rules)
  {
    if rules != [] { PassAddsBindable(rules[..|rules| - 1], t); }
  }

  lemma {:induction false} PassesAddBindable<T>(rules: seq<Rule<T>>, seeds: set<T>, p: nat)
    ensures AfterPasses(rules, seeds, p) <= seeds + Bindable(rules)
  {
    if p > 0 {
      PassesAddBindable(rules, seeds, p - 1);
      PassAddsBindable(rules, AfterPasses(rules, seeds, p - 1));
    }
  }

  lemma SubsetSize<T>(a: set<T>, b: set<T>)
    requires a <= b
    ensures |a| <= |b|
    ensures a != b ==> |a| < |b|
  {
    assert b == a + (b - a);
    assert a != b ==> |b - a| > 0 by { if a != b { assert exists x :: x in b - a; } }
  }

  /** Until a pass is quiet, each pass derives a new element. */
  lemma {:induction false} LoudPassesCount<T>(rules: seq<Rule<T>>, seeds: set<T>, p: nat)
    requires forall q: nat :: q < p ==> AfterPasses(rules, seeds, q + 1) != AfterPasses(rules, seeds, q)
    ensures |AfterPasses(rules, seeds, p) - seeds| >= p
  {
    if p > 0 {
      LoudPassesCount(rules, seeds, p - 1);
      var t, u := AfterPasses(rules, seeds, p - 1), AfterPasses(rules, seeds, p);
      MorePassesGrow(rules, seeds, 0, p - 1);
      MorePassesGrow(rules, seeds, p - 1, p);
      assert u != t by { assert AfterPasses(rules, seeds, (p - 1) + 1) != AfterPasses(rules, seeds, p - 1); }
      assert u - seeds != t - seeds by { assert u == (u - seeds) + seeds && t == (t - seeds) + seeds; }
      SubsetSize(t - seeds, u - seeds);
    }
  }

  /** Without a cap the loop stops: after as many passes as there are elements to add, the next
      pass changes nothing. */
  lemma UncappedLoopEnds<T>(rules: seq<Rule<T>>, seeds: set<T>, p: nat)
    requires p >= |Bindable(rules) - seeds|
    ensures AfterPasses(rules, seeds, p + 1) == AfterPasses(rules, seeds, p)
  {
    var b := |Bindable(rules) - seeds|;
    if forall q: nat :: q < b + 1 ==> AfterPasses(rules, seeds, q + 1) != AfterPasses(rules, seeds, q) {
      LoudPassesCount(rules, seeds, b + 1);
      PassesAddBindable(rules, seeds, b + 1);
      SubsetSize(AfterPasses(rules, seeds, b + 1) - seeds, Bindable(rules) - seeds);
      assert false;
    }
    var q: nat :| q < b + 1 && AfterPasses(rules, seeds, q + 1) == AfterPasses(rules, seeds, q);
    QuietPassIsFinal(rules, seeds, q, p);
    QuietPassIsFinal(rules, seeds, q, p + 1);
  }

  /** What an uncapped loop ends with. */
  function Saturated<T>(rules: seq<Rule<T>>, seeds: set<T>): set<T> {
    AfterPasses(rules, seeds, |Bindable(rules) - seeds|)
  }

  lemma SaturatedIsLeastFixpoint<T>(rules: seq<Rule<T>>, seeds: set<T>)
    ensures forall x :: x in Saturated(rules, seeds) <==> Reachable(rules, seeds, x)
    ensures Closed(rules, seeds, Saturated(rules, seeds))
    ensures forall t :: Closed(rules, seeds, t) ==> Saturated(rules, seeds) <= t
  {
    UncappedLoopEnds(rules, seeds, |Bindable(rules) - seeds|);
    QuietPassIsLeastFixpoint(rules, seeds, |Bindable(rules) - seeds|);
  }

  /** The fixpoint does not depend on the order or the repetition of the rules. */
  lemma FixpointIgnoresOrder<T>(rules: seq<Rule<T>>, others: seq<Rule<T>>, seeds: set<T>)
    requires forall r :: r in rules <==> r in others
    ensures Saturated(rules, seeds) == Saturated(others, seeds)
  {
    SaturatedIsLeastFixpoint(rules, seeds);
    SaturatedIsLeastFixpoint(others, seeds);
    assert Closed(others, seeds, Saturated(rules, seeds));
    assert Closed(rules, seeds, Saturated(others, seeds));
  }

  /** Every chain to `x` steps backward at least p times. */
  ghost predicate AlwaysBackward<T>(rules: seq<Rule<T>>, seeds: set<T>, p: nat, x: T) {
    forall chain :: Yields(rules, seeds, chain, x) ==> chain.Link? && BackwardSteps(chain) >= p
  }

  lemma MissedExactlyWhenBackward<T>(rules: seq<Rule<T>>, seeds: set<T>, p: nat, x: T)
    requires p > 0
    ensures x !in AfterPasses(rules, seeds, p) <==> AlwaysBackward(rules, seeds, p, x)
  {
    if x in AfterPasses(rules, seeds, p) {
      var chain := DerivedHaveChain(rules, seeds, p, x);
      assert Yields(rules, seeds, chain, x) && !(chain.Link? && BackwardSteps(chain) >= p);
    } else {
      forall chain | Yields(rules, seeds, chain, x)
        ensures chain.Link? && BackwardSteps(chain) >= p
      {
        if !(chain.Link? && BackwardSteps(chain) >= p) {
          ChainedAreDerived(rules, seeds, chain, x, p);
        }
      }
    }
  }

  /** What the cap loses: an element of the fixpoint is missed by p passes exactly when it is reachable
      and every one of its chains takes at least p backward steps. */
  lemma CapLosesExactly<T>(rules: seq<Rule<T>>, seeds: set<T>, p: nat)
    requires p > 0
    ensures forall x :: x in Saturated(rules, seeds) - AfterPasses(rules, seeds, p)
                   <==> Reachable(rules, seeds, x) && AlwaysBackward(rules, seeds, p, x)
  {
    SaturatedIsLeastFixpoint(rules, seeds);
    forall x
      ensures x !in AfterPasses(rules, seeds, p) <==> AlwaysBackward(rules, seeds, p, x)
    {
      MissedExactlyWhenBackward(rules, seeds, p, x);
    }
  }

  // ---- Comparing rule lists --------------------------------------------------------------------------

  lemma {:induction false} PassAppends<T>(first: seq<Rule<T>>, second: seq<Rule<T>>, t: set<T>)
    ensures Pass(first + second, t) == Pass(second, Pass(first, t))
  {
    if second == [] {
      assert first + second == first;
    } else {
      assert (first + second)[..|first + second| - 1] == first + second[..|second| - 1];
      PassAppends(first, second[..|second| - 1], t);
    }
  }

  lemma PassHead<T>(rules: seq<Rule<T>>, t: set<T>)
    requires rules != []
    ensures Pass(rules, t) == Pass(rules[1..], t + Effect(rules[0], t))
  {
    assert rules == rules[..1] + rules[1..] && rules[..1][..0] == [];
    PassAppends(rules[..1], rules[1..], t);
  }

  /** Whatever one rule adds, the other adds. */
  ghost predicate Weaker<T>(r: Rule<T>, s: Rule<T>) {
    && r.always <= s.always && r.conditional <= s.conditional
    && (r.base ==> s.base) && (s.base || r.sources <= s.sources)
  }

  /** Every rule of the first list has a stronger one in the second, in the same order. */
  ghost predicate WeakerList<T>(rules: seq<Rule<T>>, others: seq<Rule<T>>) {
    if rules == [] then true
    else if others == [] then false
    else (Weaker(rules[0], others[0]) && WeakerList(rules[1..], others[1..])) || WeakerList(rules, others[1..])
  }

  /** Adding or strengthening rules never loses an element of a pass. */
  lemma {:induction false} WeakerPass<T>(rules: seq<Rule<T>>, others: seq<Rule<T>>, t: set<T>, u: set<T>)
    requires WeakerList(rules, others) && t <= u
    ensures Pass(rules, t) <= Pass(others, u)
    decreases |others|
  {
    if rules == [] {
      PassGrows(others, u);
    } else {
      PassHead(others, u);
      if Weaker(rules[0], others[0]) && WeakerList(rules[1..], others[1..]) {
        PassHead(rules, t);
        assert Effect(rules[0], t) <= Effect(others[0], u);
        WeakerPass(rules[1..], others[1..], t + Effect(rules[0], t), u + Effect(others[0], u));
      } else {
        WeakerPass(rules, others[1..], t, u + Effect(others[0], u));
      }
    }
  }

  lemma {:induction false} WeakerPasses<T>(rules: seq<Rule<T>>, others: seq<Rule<T>>, seeds: set<T>, more: set<T>,
      p: nat)
    requires WeakerList(rules, others) && seeds <= more
    ensures AfterPasses(rules, seeds, p) <= AfterPasses(others, more, p)
  {
    if p > 0 {
      WeakerPasses(rules, others, seeds, more, p - 1);
      WeakerPass(rules, others, AfterPasses(rules, seeds, p - 1), AfterPasses(others, more, p - 1));
    }
  }

  /** The rules that can add something. */
  function Active<T>(rules: seq<Rule<T>>): seq<Rule<T>> {
    if rules == [] then []
    else (if rules[0].always + rules[0].conditional == {} then [] else [rules[0]]) + Active(rules[1..])
  }

  lemma {:induction false} ActiveAppends<T>(first: seq<Rule<T>>, second: seq<Rule<T>>)
    ensures Active(first + second) == Active(first) + Active(second)
  {
    if first == [] {
      assert first + second == second;
    } else {
      assert (first + second)[1..] == first[1..] + second;
      ActiveAppends(first[1..], second);
    }
  }

  lemma {:induction false} ActivePass<T>(rules: seq<Rule<T>>, t: set<T>)
    ensures Pass(Active(rules), t) == Pass(rules, t)
  {
    if rules != [] {
      var u := t + Effect(rules[0], t);
      PassHead(rules, t);
      ActivePass(rules[1..], u);
      if rules[0].always + rules[0].conditional == {} {
        assert Active(rules) == Active(rules[1..]) && u == t;
      } else {
        PassHead(Active(rules), t);
        assert Active(rules)[1..] == Active(rules[1..]);
      }
    }
  }

  lemma {:induction false} SameActivePasses<T>(rules: seq<Rule<T>>, others: seq<Rule<T>>, seeds: set<T>, p: nat)
    requires Active(rules) == Active(others)
    ensures AfterPasses(rules, seeds, p) == AfterPasses(others, seeds, p)
  {
    if p > 0 {
      SameActivePasses(rules, others, seeds, p - 1);
      ActivePass(rules, AfterPasses(rules, seeds, p - 1));
      ActivePass(others, AfterPasses(others, seeds, p - 1));
    }
  }
}
