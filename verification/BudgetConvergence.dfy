/** How fast the controller of backend/adaptive_budget.py reaches the ends of its envelope. */
module BudgetConvergence {
  import opened Wrappers
  import opened Arithmetic
  import opened AdaptiveBudget

  function Run(k: Knobs, s: Control, xs: seq<Sample>): Control
    decreases |xs|
  {
    if xs == [] then s else Run(k, Tick(k, s, xs[0]), xs[1..])
  }

  /** Ticks from time t on, each at most gap after the one before. */
  ghost predicate AtMostApart(t: real, gap: real, xs: seq<Sample>)
    decreases |xs|
  {
    xs != [] ==> t <= xs[0].t <= t + gap && AtMostApart(xs[0].t, gap, xs[1..])
  }

  ghost predicate AllHot(k: Knobs, xs: seq<Sample>) {
    forall x :: x in xs ==> Hot(k, x)
  }

  ghost predicate AllCool(k: Knobs, xs: seq<Sample>) {
    forall x :: x in xs ==> Cool(k, x) && !Hot(k, x) && x.deferred == 0
  }

  /** b halved n times. */
  function Halved(b: nat, n: nat): nat {
    if n == 0 then b else Halved(b / 2, n - 1)
  }

  lemma MulAtLeast(d: int, e: int)
    requires d > 0
    ensures e >= 1 ==> d * e >= d
    ensures e <= -1 ==> d * e <= -d
  {
  }

  lemma DivUnique(a: int, d: int, q: int, r: int)
    requires d > 0 && a == d * q + r && 0 <= r < d
    ensures a / d == q
  {
    var e := a / d - q;
    assert d * e == d * (a / d) - d * q;
    MulAtLeast(d, e);
  }

  lemma HalfThenQuotient(a: nat, c: nat)
    requires c > 0
    ensures a / 2 / c == a / (2 * c)
  {
    var half := a / 2;
    var p, t := half / c, half % c;
    assert half == c * p + t;
    assert 2 * (c * p) == (2 * c) * p;
    DivUnique(a, 2 * c, p, a - 2 * half + 2 * t);
  }

  lemma {:induction false} HalvedIsQuotient(b: nat, n: nat)
    ensures Halved(b, n) == b / Pow2(n)
  {
    if n > 0 {
      HalvedIsQuotient(b / 2, n - 1);
      HalfThenQuotient(b, Pow2(n - 1));
    }
  }

  lemma {:induction false} HalvedMonotone(a: nat, b: nat, n: nat)
    requires a <= b
    ensures Halved(a, n) <= Halved(b, n)
  {
    if n > 0 {
      HalvedMonotone(a / 2, b / 2, n - 1);
    }
  }

  lemma {:induction false} HalvedShrinks(a: nat, n: nat)
    ensures Halved(a, n) <= a
  {
    if n > 0 {
      HalvedShrinks(a / 2, n - 1);
    }
  }

  /** n halvings are enough from b to get to the floor. */
  predicate Enough(k: Knobs, b: nat, n: nat) {
    Halved(b, n) <= k.floor
  }

  lemma EnoughAfterHalving(k: Knobs, b: nat, n: nat)
    requires ValidKnobs(k) && n > 0 && Enough(k, b, n)
    ensures Max(k.floor, b / 2) >= 0 && Enough(k, Max(k.floor, b / 2), n - 1)
  {
    if Max(k.floor, b / 2) == k.floor {
      HalvedShrinks(k.floor, n - 1);
    }
  }

  /** A clock bound: start + n * each. */
  function Bound(start: real, n: nat, each: real): real {
    start + n as real * each
  }

  lemma BoundStep(start: real, n: nat, each: real, next: real)
    requires n > 0 && next <= start + each
    ensures Bound(next, n - 1, each) <= Bound(start, n, each)
  {
    assert n as real * each == (n - 1) as real * each + each;
  }

  lemma BoundAtLeast(start: real, n: nat, each: real)
    requires each >= 0.0 && n > 0
    ensures Bound(start, n, each) >= start + each
  {
    assert n as real * each == (n - 1) as real * each + each;
    assert (n - 1) as real * each >= 0.0;
  }

  lemma BoundMonotone(start: real, m: nat, n: nat, each: real)
    requires m <= n && each >= 0.0
    ensures Bound(start, m, each) <= Bound(start, n, each)
  {
    assert n as real * each == m as real * each + (n - m) as real * each;
    assert (n - m) as real * each >= 0.0;
  }

  /** Last tick of a run that started at time t. */
  function EndTime(t: real, xs: seq<Sample>): real {
    if xs == [] then t else xs[|xs| - 1].t
  }

  lemma HotTick(k: Knobs, s: Control, x: Sample)
    requires ValidKnobs(k) && k.floor <= s.budget && Hot(k, x)
    ensures var s' := Tick(k, s, x);
            && s'.budget >= k.floor
            && match s.pressureFirstSeen
               case None => s'.pressureFirstSeen == Some(x.t) && s'.budget == s.budget
               case Some(p) =>
                 if x.t - p >= k.mdPersistence
                 then s'.pressureFirstSeen == Some(x.t) && s'.budget == Max(k.floor, s.budget / 2)
                 else s'.pressureFirstSeen == Some(p) && s'.budget == s.budget
  {
  }

  /** Under pressure since p, with n halvings to go. */
  lemma {:induction false} PressedToFloor(k: Knobs, s: Control, p: real, t: real, gap: real, xs: seq<Sample>, n: nat)
    requires ValidKnobs(k) && 0 <= k.floor <= s.budget && gap >= 0.0
    requires s.pressureFirstSeen == Some(p) && (t == p || t < p + k.mdPersistence)
    requires AllHot(k, xs) && AtMostApart(t, gap, xs)
    requires Enough(k, s.budget, n)
    requires EndTime(t, xs) >= Bound(p, n, k.mdPersistence + gap)
    ensures Run(k, s, xs).budget == k.floor
    decreases |xs|
  {
    var each := k.mdPersistence + gap;
    if n > 0 {
      BoundAtLeast(p, n, each);
    }
    if xs != [] {
      var x, s' := xs[0], Tick(k, s, xs[0]);
      HotTick(k, s, x);
      assert AllHot(k, xs[1..]);
      if x.t - p < k.mdPersistence {
        PressedToFloor(k, s', p, x.t, gap, xs[1..], n);
      } else if n > 0 {
        EnoughAfterHalving(k, s.budget, n);
        BoundStep(p, n, each, x.t);
        PressedToFloor(k, s', x.t, x.t, gap, xs[1..], n - 1);
      } else {
        EndAfter(x.t, gap, xs[1..]);
        PressedToFloor(k, s', x.t, x.t, gap, xs[1..], 0);
      }
    }
  }

  lemma {:induction false} EndAfter(t: real, gap: real, xs: seq<Sample>)
    requires AtMostApart(t, gap, xs)
    ensures EndTime(t, xs) >= t
    decreases |xs|
  {
    if xs != [] {
      EndAfter(xs[0].t, gap, xs[1..]);
    }
  }

  /**
   Ticks at most gap apart, all of them hot from time t0 on: once the run is
   gap + n * (persistence + gap) old, the budget is at the floor, for the n halvings that take
   the capacity there.
   */
  lemma HotReachesFloor(k: Knobs, s: Control, t0: real, gap: real, xs: seq<Sample>, n: nat)
    requires ValidKnobs(k) && k.floor <= s.budget <= k.capacityMax && gap >= 0.0
    requires s.pressureFirstSeen.Some? ==> s.pressureFirstSeen.value <= t0
    requires AllHot(k, xs) && AtMostApart(t0, gap, xs) && xs != []
    requires k.capacityMax / Pow2(n) <= k.floor
    requires EndTime(t0, xs) >= Bound(t0 + gap, n, k.mdPersistence + gap)
    ensures Run(k, s, xs).budget == k.floor
  {
    HalvedIsQuotient(k.capacityMax, n);
    HalvedMonotone(s.budget, k.capacityMax, n);
    var x, s' := xs[0], Tick(k, s, xs[0]);
    var each := k.mdPersistence + gap;
    HotTick(k, s, x);
    EndAfter(x.t, gap, xs[1..]);
    assert AllHot(k, xs[1..]);
    if s.pressureFirstSeen.Some? && x.t - s.pressureFirstSeen.value >= k.mdPersistence && n > 0 {
      EnoughAfterHalving(k, s.budget, n);
      BoundStep(t0 + gap, n, each, x.t);
      PressedToFloor(k, s', x.t, x.t, gap, xs[1..], n - 1);
    } else {
      var p := s'.pressureFirstSeen.value;
      assert p <= t0 + gap;
      PressedToFloor(k, s', p, x.t, gap, xs[1..], n);
    }
  }

  lemma {:induction false} GrowsToCapacity(k: Knobs, s: Control, t: real, gap: real, xs: seq<Sample>)
    requires ValidKnobs(k) && s.budget <= k.capacityMax && gap >= 0.0
    requires t == s.lastAiAt || t < s.lastAiAt + k.aiInterval
    requires AllCool(k, xs) && AtMostApart(t, gap, xs)
    requires s.budget < k.capacityMax ==>
               EndTime(t, xs) >= Bound(s.lastAiAt, k.capacityMax - s.budget, k.aiInterval + gap)
    ensures Run(k, s, xs).budget == k.capacityMax
    decreases |xs|
  {
    var each, n := k.aiInterval + gap, k.capacityMax - s.budget;
    if n > 0 {
      BoundAtLeast(s.lastAiAt, n, each);
    }
    if xs != [] {
      var x, s' := xs[0], Tick(k, s, xs[0]);
      assert AllCool(k, [x]) && AllCool(k, xs[1..]);
      EndAfter(x.t, gap, xs[1..]);
      if x.t - s.lastAiAt >= k.aiInterval && n > 0 {
        BoundStep(s.lastAiAt, n, each, x.t);
      }
      GrowsToCapacity(k, s', x.t, gap, xs[1..]);
    }
  }

  /**
   Ticks at most gap apart, all of them cool and without deferrals from time t0 on: once the
   run is (capacity - floor) * (interval + gap) old, the budget is at capacity.
   */
  lemma CoolReachesCapacity(k: Knobs, s: Control, t0: real, gap: real, xs: seq<Sample>)
    requires ValidKnobs(k) && k.floor <= s.budget <= k.capacityMax && gap >= 0.0 && s.lastAiAt <= t0
    requires AllCool(k, xs) && AtMostApart(t0, gap, xs) && xs != []
    requires EndTime(t0, xs) >= Bound(t0, k.capacityMax - k.floor, k.aiInterval + gap)
    ensures Run(k, s, xs).budget == k.capacityMax
  {
    var x := xs[0];
    assert AllCool(k, [x]) && AllCool(k, xs[1..]);
    EndAfter(x.t, gap, xs[1..]);
    CoolDeadline(k, s, t0, gap, x);
    GrowsToCapacity(k, Tick(k, s, x), x.t, gap, xs[1..]);
  }

  /** After the first tick the remaining bound still fits, unless the budget is already at capacity. */
  lemma CoolDeadline(k: Knobs, s: Control, t0: real, gap: real, x: Sample)
    requires ValidKnobs(k) && k.floor <= s.budget <= k.capacityMax && gap >= 0.0 && s.lastAiAt <= t0
    requires AllCool(k, [x]) && x.t <= t0 + gap
    ensures var s' := Tick(k, s, x);
            && s'.budget <= k.capacityMax
            && (s.budget < k.capacityMax ==>
                  Bound(s'.lastAiAt, k.capacityMax - s'.budget, k.aiInterval + gap)
                  <= Bound(t0, k.capacityMax - k.floor, k.aiInterval + gap))
  {
    var each, n := k.aiInterval + gap, k.capacityMax - s.budget;
    BoundMonotone(t0, n, k.capacityMax - k.floor, each);
    if x.t - s.lastAiAt < k.aiInterval {
    } else if n > 0 {
      BoundStep(t0, n, each, x.t);
    }
  }
}
