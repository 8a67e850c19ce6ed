/** The random numbers of harness/glassGhost.ts: a 32-bit xorshift generator and the ranges drawn from it. */
module XorShift {

  function Xor(a: bv32, b: bv32): bv32 { a ^ b }
  function L5(x: bv32): bv32 { x << 5 }
  function L10(x: bv32): bv32 { x << 10 }
  function L13(x: bv32): bv32 { x << 13 }
  function L20(x: bv32): bv32 { x << 20 }
  function L26(x: bv32): bv32 { x << 26 }
  function R17(x: bv32): bv32 { x >> 17 }

  function Mix13(x: bv32): bv32 { Xor(x, L13(x)) }
  function Mix17(x: bv32): bv32 { Xor(x, R17(x)) }
  function Mix5(x: bv32): bv32 { Xor(x, L5(x)) }

  /** One step of the generator's state. */
  function Step(x: bv32): bv32 {
    Mix5(Mix17(Mix13(x)))
  }

  function Fold10(y: bv32): bv32 { Xor(y, L10(y)) }
  function Fold20(y: bv32): bv32 { Xor(y, L20(y)) }
  function Fold26(y: bv32): bv32 { Xor(y, L26(y)) }

  /** The step undone: each mixing is its own inverse up to further shifts, until those shift everything out. */
  function StepBack(y: bv32): bv32 {
    Fold26(Mix13(Mix17(Fold20(Fold10(Mix5(y))))))
  }

  lemma XorCancels(a: bv32, b: bv32, c: bv32)
    ensures Xor(Xor(a, b), Xor(b, c)) == Xor(a, c)
  {
  }

  lemma XorZero(a: bv32)
    ensures Xor(a, 0) == a
  {
  }

  lemma Shift5(a: bv32, b: bv32)
    ensures L5(Xor(a, b)) == Xor(L5(a), L5(b)) && L5(L5(a)) == L10(a)
  {
  }

  lemma Shift10(a: bv32, b: bv32)
    ensures L10(Xor(a, b)) == Xor(L10(a), L10(b)) && L10(L10(a)) == L20(a)
  {
  }

  lemma Shift13(a: bv32, b: bv32)
    ensures L13(Xor(a, b)) == Xor(L13(a), L13(b)) && L13(L13(a)) == L26(a)
  {
  }

  lemma Shift20(a: bv32, b: bv32)
    ensures L20(Xor(a, b)) == Xor(L20(a), L20(b)) && L20(L20(a)) == 0
  {
  }

  lemma Shift26(a: bv32, b: bv32)
    ensures L26(Xor(a, b)) == Xor(L26(a), L26(b)) && L26(L26(a)) == 0
  {
  }

  lemma Shift17(a: bv32, b: bv32)
    ensures R17(Xor(a, b)) == Xor(R17(a), R17(b)) && R17(R17(a)) == 0
  {
  }

  lemma Mix13Undone(x: bv32)
    ensures Fold26(Mix13(Mix13(x))) == x
  {
    hide L13, L26, Xor;
    Shift13(x, L13(x));
    XorCancels(x, L13(x), L26(x));
    Shift26(x, L26(x));
    XorCancels(x, L26(x), 0);
    XorZero(x);
    XorZero(L26(x));
  }

  lemma Mix17Undone(x: bv32)
    ensures Mix17(Mix17(x)) == x
  {
    hide R17, Xor;
    Shift17(x, R17(x));
    XorCancels(x, R17(x), 0);
    XorZero(x);
    XorZero(R17(x));
  }

  lemma Mix5Undone(x: bv32)
    ensures Fold20(Fold10(Mix5(Mix5(x)))) == x
  {
    hide L5, L10, L20, Xor;
    Shift5(x, L5(x));
    XorCancels(x, L5(x), L10(x));
    Shift10(x, L10(x));
    XorCancels(x, L10(x), L20(x));
    Shift20(x, L20(x));
    XorCancels(x, L20(x), 0);
    XorZero(x);
    XorZero(L20(x));
  }

  /** The step loses nothing: it permutes the states, and it never leaves the nonzero ones, so no seed
      ends in the state that would draw zero for ever. */
  lemma StepIsUndone(x: bv32)
    ensures StepBack(Step(x)) == x
    ensures x != 0 ==> Step(x) != 0
  {
    hide Mix13, Mix17, Mix5, Fold10, Fold20, Fold26;
    Mix13Undone(x);
    Mix17Undone(Mix13(x));
    Mix5Undone(Mix17(Mix13(x)));
    ZeroStays();
  }

  lemma ZeroStays()
    ensures StepBack(0) == 0
  {
  }

  // ---- Every state comes from one ------------------------------------------------------------------

  lemma ShiftsCommute(a: bv32)
    ensures L5(L10(a)) == L10(L5(a)) && L5(L20(a)) == L20(L5(a))
    ensures L13(L26(a)) == L26(L13(a))
  {
  }

  lemma XorSwaps(a: bv32, b: bv32, c: bv32, d: bv32)
    ensures Xor(Xor(a, b), Xor(c, d)) == Xor(Xor(a, c), Xor(b, d))
  {
    hide Xor;
    XorMoves(a, b, Xor(c, d));
    XorMoves(b, c, d);
    XorMoves(c, b, d);
    XorTurns(b, c);
    XorMoves(a, c, Xor(b, d));
  }

  lemma XorMoves(a: bv32, b: bv32, c: bv32)
    ensures Xor(Xor(a, b), c) == Xor(a, Xor(b, c))
  {
  }

  lemma XorTurns(a: bv32, b: bv32)
    ensures Xor(a, b) == Xor(b, a)
  {
  }

  lemma MixesCommute(u: bv32)
    ensures Mix13(Fold26(u)) == Fold26(Mix13(u))
    ensures Mix5(Fold10(u)) == Fold10(Mix5(u)) && Mix5(Fold20(u)) == Fold20(Mix5(u))
  {
    hide Xor, L5, L10, L13, L20, L26;
    ShiftsCommute(u);
    Shift13(u, L26(u));
    Shift26(u, L13(u));
    XorSwaps(u, L26(u), L13(u), L13(L26(u)));
    Shift5(u, L10(u));
    Shift10(u, L5(u));
    XorSwaps(u, L10(u), L5(u), L5(L10(u)));
    Shift5(u, L20(u));
    Shift20(u, L5(u));
    XorSwaps(u, L20(u), L5(u), L5(L20(u)));
  }

  /** Every state follows a state, and every nonzero one a nonzero one. */
  lemma StepReaches(y: bv32)
    ensures Step(StepBack(y)) == y
    ensures y != 0 ==> StepBack(y) != 0
  {
    var a := Mix5(y);
    var b := Fold20(Fold10(a));
    assert Step(0) == 0;
    hide Mix13, Mix17, Mix5, Fold10, Fold20, Fold26;
    MixesCommute(Mix13(Mix17(b)));
    Mix13Undone(Mix17(b));
    Mix17Undone(b);
    MixesCommute(Fold10(a));
    MixesCommute(a);
    Mix5Undone(y);
  }

  // ---- What is drawn -------------------------------------------------------------------------------

  const SPAN: int := 0x1_0000_0000

  function Start(seed: int): (x: bv32)
    ensures x != 0
  {
    var n := (seed * 2654435761) % SPAN;
    NonZero(n as bv32)
  }

  function NonZero(x: bv32): (y: bv32)
    ensures y != 0
  {
    if x == 0 then 1 else x
  }

  function Number(x: bv32): (n: nat)
    ensures n < SPAN
  {
    x as int
  }

  /** `lo` plus the share of the span the state has reached, rounded down. */
  function Scaled(n: nat, lo: int, hi: int): (r: int)
    requires n < SPAN
    ensures lo <= hi ==> lo <= r <= hi
  {
    if lo <= hi then ScaledStays(n, hi - lo + 1); lo + n * (hi - lo + 1) / SPAN
    else lo + n * (hi - lo + 1) / SPAN
  }

  lemma StartsOf()
    ensures Start(42) == 4112119562 && Start(0) == 1
  {
    assert (42 * 2654435761) % SPAN == 4112119562;
  }

  lemma FirstMixes()
    ensures Mix13(4112119562) == 3422074634 && Mix17(3422074634) == 3422081782 && Mix5(3422081782) == 3034745910
  {
  }

  lemma SecondMixes()
    ensures Mix13(3034745910) == 3848555574 && Mix17(3848555574) == 3848552068 && Mix5(3848552068) == 1239674372
  {
  }

  /** The first numbers of a seed: the product with the multiplier, kept to 32 bits, or 1 where that is zero;
      then the three shifts, over and over. */
  lemma FirstNumbers()
    ensures Start(0) == 1 && Start(42) == 4112119562 && Step(4112119562) == 3034745910 && Step(3034745910) == 1239674372
  {
    hide Mix13, Mix17, Mix5, Start;
    StartsOf();
    FirstMixes();
    SecondMixes();
  }

  lemma Times(a: int, b: int, d: int)
    requires d >= 0 && a <= b
    ensures a * d <= b * d
  {
    assert (b - a) * d >= 0;
  }

  lemma FactorsInOrder(q: int, w: int, d: int)
    requires d > 0 && q * d < w * d
    ensures q < w
  {
    if w <= q { Times(w, q, d); }
  }

  lemma QuotientIs(a: int, d: int, q: int)
    requires d > 0 && q * d <= a < q * d + d
    ensures a / d == q
  {
    var p := a / d;
    assert p * d + a % d == a;
    FactorsInOrder(p, q + 1, d);
    FactorsInOrder(q, p + 1, d);
  }

  lemma QuotientBelow(a: int, d: int, w: int)
    requires d > 0 && 0 <= a < w * d
    ensures 0 <= a / d < w
  {
    var p := a / d;
    assert p * d + a % d == a;
    FactorsInOrder(p, w, d);
  }

  lemma ScaledStays(n: nat, width: int)
    requires n < SPAN && width > 0
    ensures 0 <= n * width / SPAN < width
  {
    Times(n, SPAN - 1, width);
    QuotientBelow(n * width, SPAN, width);
  }

  /** The share is rounded down. */
  lemma ScaledIsFloor(n: nat, lo: int, hi: int)
    requires n < SPAN
    ensures 0x1_0000_0000 * (Scaled(n, lo, hi) - lo) <= n * (hi - lo + 1) < 0x1_0000_0000 * (Scaled(n, lo, hi) - lo + 1)
  {
  }

  /** Every value of a range narrower than the span is the share of a number that is not zero, so it is
      drawn in a state the generator can take. */
  lemma ScaledReaches(v: int, lo: int, hi: int) returns (n: nat)
    requires lo <= v <= hi && hi - lo + 1 < SPAN
    ensures 0 < n < SPAN && Scaled(n, lo, hi) == v
  {
    if v == lo {
      n := 1;
      QuotientIs(hi - lo + 1, SPAN, 0);
    } else {
      n := NumberFor(v - lo, hi - lo + 1);
    }
  }

  lemma NumberFor(k: int, width: int) returns (n: nat)
    requires 0 < k < width <= SPAN
    ensures 0 < n < SPAN && n * width / SPAN == k
  {
    n := (k * SPAN + width - 1) / width;
    CeilingFits(k, width);
  }

  /** Over the whole span the low end, and only that, would take the state zero. */
  lemma WholeSpanReaches(v: int, lo: int, n: nat)
    requires lo <= v < lo + SPAN && n < SPAN
    ensures Scaled(n, lo, lo + SPAN - 1) == v <==> n == v - lo
  {
    QuotientIs(n * SPAN, SPAN, n);
  }

  lemma CeilingFits(k: int, width: int)
    requires 0 <= k < width <= SPAN
    ensures var n := (k * SPAN + width - 1) / width; 0 <= n < SPAN && n * width / SPAN == k
  {
    var a := k * SPAN + width - 1;
    var n := a / width;
    assert n * width + a % width == a;
    Times(k, width - 1, SPAN);
    FactorsInOrder(n, SPAN, width);
    QuotientIs(n * width, SPAN, k);
  }

  /** The k-th of `distinct` values laid out over a range. */
  function Spread(k: int, distinct: int, lo: int, hi: int): int
    requires distinct > 0
  {
    lo + k * (hi - lo) / (if distinct == 1 then 1 else distinct - 1)
  }

  /** They stay in the range and, but for a single one, reach both its ends. */
  lemma SpreadStays(k: int, distinct: int, lo: int, hi: int)
    requires 0 <= k < distinct && lo <= hi
    ensures lo <= Spread(k, distinct, lo, hi) <= hi
    ensures k == 0 ==> Spread(k, distinct, lo, hi) == lo
    ensures distinct > 1 && k == distinct - 1 ==> Spread(k, distinct, lo, hi) == hi
  {
    if distinct > 1 {
      var steps, width := distinct - 1, hi - lo;
      Times(k, steps, width);
      if k == steps {
        QuotientIs(k * width, steps, width);
      } else {
        Times(k, steps - 1, width);
        BelowOrEqual(k * width, steps, width);
      }
    }
  }

  /** They are laid out evenly, rounded down. */
  lemma SpreadIsFloor(k: int, distinct: int, lo: int, hi: int)
    requires distinct > 1
    ensures var r := Spread(k, distinct, lo, hi) - lo;
            r * (distinct - 1) <= k * (hi - lo) < (r + 1) * (distinct - 1)
  {
    var steps, a := distinct - 1, k * (hi - lo);
    assert a / steps * steps + a % steps == a;
  }

  lemma BelowOrEqual(a: int, d: int, w: int)
    requires d > 0 && 0 <= a <= w * d
    ensures 0 <= a / d <= w
  {
    QuotientBelow(a, d, w + 1);
  }

  /** A value and the state after drawing it. */
  datatype Drawn<T> = Drawn(value: T, next: bv32)

  function IntFrom(x: bv32, lo: int, hi: int): (d: Drawn<int>)
    ensures d.next == Step(x) && (lo <= hi ==> lo <= d.value <= hi)
  {
    Drawn(Scaled(Number(Step(x)), lo, hi), Step(x))
  }

  function ColFrom(x: bv32, lo: int, hi: int, distinct: int): (d: Drawn<int>)
    ensures d.next == Step(x)
  {
    if distinct > 0 then Drawn(Spread(IntFrom(x, 0, distinct - 1).value, distinct, lo, hi), Step(x))
    else IntFrom(x, lo, hi)
  }

  function PickFrom<T>(x: bv32, items: seq<T>): (d: Drawn<T>)
    requires items != []
    ensures d.next == Step(x) && d.value in items
  {
    Drawn(items[IntFrom(x, 0, |items| - 1).value], Step(x))
  }

  /** The state after n steps. */
  function After(first: bv32, n: nat): bv32 {
    if n == 0 then first else Step(After(first, n - 1))
  }

  /** `count` is how many numbers have been drawn. */
  class Rng {
    var state: bv32
    ghost const first: bv32
    ghost var count: nat

    ghost predicate Valid()
      reads this
    {
      state != 0 && state == After(first, count)
    }

    constructor (seed: int)
      ensures Valid() && state == Start(seed) && first == Start(seed) && count == 0
    {
      state := Start(seed);
      first := Start(seed);
      count := 0;
    }

    method Advance()
      requires Valid()
      modifies this
      ensures Valid() && state == Step(old(state)) && count == old(count) + 1
    {
      StepIsUndone(state);
      state := Step(state);
      count := count + 1;
    }

    /** An integer from `lo` to `hi`. */
    method Int(lo: int, hi: int) returns (r: int)
      requires Valid()
      modifies this
      ensures Valid() && Drawn(r, state) == IntFrom(old(state), lo, hi) && count == old(count) + 1
      ensures lo <= hi ==> lo <= r <= hi
    {
      hide Step, Scaled, Number;
      Advance();
      r := Scaled(Number(state), lo, hi);
    }

    /** A colour from `lo` to `hi`; `distinct` values at most when that is positive. */
    method Col(lo: int, hi: int, distinct: int) returns (r: int)
      requires Valid() && lo <= hi
      modifies this
      ensures Valid() && lo <= r <= hi && count == old(count) + 1
      ensures Drawn(r, state) == ColFrom(old(state), lo, hi, distinct)
    {
      hide Step, Scaled, Number, Spread;
      if distinct > 0 {
        var k := Int(0, distinct - 1);
        SpreadStays(k, distinct, lo, hi);
        r := Spread(k, distinct, lo, hi);
      } else {
        r := Int(lo, hi);
      }
    }
  }
}
