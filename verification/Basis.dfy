/** The stateful basis estimator: a gated, capped moving average. */
module Basis {
  import opened Wrappers
  import opened Readings
  import opened Products

  const MAX_JUMP_WIDENING: real := 10.0

  datatype Fold = Folded(value: real) | Rejected(estimate: Num, observation: Num)

  datatype Params = Params(halfLife: nat, maxWeight: real, maxJumpFrac: real) {
    predicate Valid() {
      halfLife > 0 && 0.0 < maxWeight < 1.0 && 0.0 < maxJumpFrac <= 1.0
    }
  }

  function Abs(x: real): (a: real)
    ensures a >= 0.0 && (a == x || a == -x)
  {
    if x >= 0.0 then x else -x
  }

  /** Half-lives elapsed. */
  function Ratio(dt: nat, halfLife: nat): real
    requires halfLife > 0
  {
    dt as real / halfLife as real
  }

  /** `decay` stands for `1 - 2^(-dt / halfLife)`: any value in `[0, 1]`. */
  function DecayWeight(dt: nat, halfLife: nat, decay: real): real {
    if halfLife == 0 || dt == 0 then 1.0
    else if decay < 0.0 then 0.0 else if decay > 1.0 then 1.0 else decay
  }

  /** Widens in half-lives elapsed, from the base to ten times it. */
  function JumpAllowance(p: Params, dt: nat): real {
    if p.halfLife == 0 || dt == 0 then p.maxJumpFrac
    else
      Allowance(p.maxJumpFrac, Widening(Ratio(dt, p.halfLife)))
  }

  function Allowance(base: real, widening: real): real {
    base * widening
  }

  function Widening(r: real): (w: real)
    ensures 1.0 <= w <= MAX_JUMP_WIDENING
  {
    if r < 1.0 then 1.0 else if r > MAX_JUMP_WIDENING then MAX_JUMP_WIDENING else r
  }

  predicate IsAJump(p: Params, prev: real, observation: real, dt: nat) {
    prev > 0.0 && Abs((observation - prev) / prev) > JumpAllowance(p, dt)
  }

  function Weight(p: Params, dt: nat, decay: real): real {
    var raw := DecayWeight(dt, p.halfLife, decay);
    if raw < p.maxWeight then raw else p.maxWeight
  }

  function Blend(prev: real, alpha: real, observation: real): real {
    prev + alpha * (observation - prev)
  }

  /** Offer one observation: the estimate after it, and what became of it. */
  function Offered(p: Params, value: Option<real>, observation: Num, dt: nat, decay: real): (Option<real>, Fold) {
    match value
    case None =>
      if observation.NonFinite? then (None, Rejected(NonFinite, observation))
      else (Some(observation.r), Folded(observation.r))
    case Some(prev) =>
      if observation.NonFinite? || IsAJump(p, prev, observation.r, dt) then (value, Rejected(Finite(prev), observation))
      else
        var next := Blend(prev, Weight(p, dt, decay), observation.r);
        (Some(next), Folded(next))
  }

  class BasisEma {
    var value: Option<real>
    const p: Params

    constructor (p: Params)
      ensures value == None && this.p == p
    {
      value := None;
      this.p := p;
    }

    method Update(observation: Num, dt: nat, decay: real) returns (fold: Fold)
      modifies this`value
      ensures (value, fold) == Offered(p, old(value), observation, dt, decay)
    {
      if value.None? {
        if observation.NonFinite? {
          return Rejected(NonFinite, observation);
        }
        value := Some(observation.r);
        return Folded(observation.r);
      }
      var prev := value.value;
      if observation.NonFinite? || IsAJump(p, prev, observation.r, dt) {
        return Rejected(Finite(prev), observation);
      }
      var alpha := Weight(p, dt, decay);
      var next := Blend(prev, alpha, observation.r);
      value := Some(next);
      fold := Folded(next);
    }
  }

  // ------------------------------------------------------------- one fold

  lemma WeightInRange(p: Params, dt: nat, decay: real)
    requires p.Valid()
    ensures 0.0 <= Weight(p, dt, decay) <= p.maxWeight
  {
  }

  lemma BlendIs(prev: real, a: real, o: real, d: real)
    requires d == o - prev
    ensures Blend(prev, a, o) == prev + Times(a, d)
  {
  }

  /** A blend lies between its ends. */
  lemma BlendWithin(prev: real, o: real, a: real, lo: real, hi: real)
    requires 0.0 <= a <= 1.0 && lo <= prev <= hi && lo <= o <= hi
    ensures lo <= Blend(prev, a, o) <= hi
  {
    hide Blend, Times;
    var d := o - prev;
    BlendIs(prev, a, o, d);
    if d >= 0.0 {
      PartOf(a, d);
    } else {
      PartOf(a, -d);
      Opposite(a, d);
    }
  }

  /** Each fold moves the estimate by at most the capped weight of the largest
      allowed jump, and never the whole way: no single print replaces it. */
  lemma FoldIsBounded(p: Params, prev: real, o: real, dt: nat, decay: real)
    requires p.Valid() && prev > 0.0
    requires Offered(p, Some(prev), Finite(o), dt, decay).1.Folded?
    ensures var next := Offered(p, Some(prev), Finite(o), dt, decay).1.value;
      && Abs(next - prev) <= p.maxWeight * (JumpAllowance(p, dt) * prev)
      && Abs(next - o) >= (1.0 - p.maxWeight) * Abs(o - prev)
      && (o != prev ==> next != o)
  {
    hide JumpAllowance, Weight, Blend, Abs, Times;
    WeightInRange(p, dt, decay);
    var d, allowed := o - prev, JumpAllowance(p, dt);
    GapFits(d, prev, allowed);
    MovesPartWay(prev, o, d, Weight(p, dt, decay), p.maxWeight, Times(prev, allowed));
    assert Times(prev, allowed) == allowed * prev by { Spelled(allowed, prev); Swap(allowed, prev); }
    Spelled(p.maxWeight, allowed * prev);
    Spelled(1.0 - p.maxWeight, Abs(d));
  }

  lemma MovesPartWay(prev: real, o: real, d: real, a: real, m: real, allowed: real)
    requires 0.0 <= a <= m < 1.0 && d == o - prev && Abs(d) <= allowed
    ensures Abs(Blend(prev, a, o) - prev) <= Times(m, allowed)
    ensures Abs(Blend(prev, a, o) - o) >= Times(1.0 - m, Abs(d))
    ensures o != prev ==> Blend(prev, a, o) != o
  {
    hide Blend, Abs, Times;
    var gap, rest := Abs(d), 1.0 - a;
    BlendIs(prev, a, o, d);
    AbsTimes(a, d);
    Larger(a, m, gap);
    Rises(m, gap, allowed);
    Rest(a, d);
    assert Blend(prev, a, o) - o == -Times(rest, d);
    AbsSign(Times(rest, d));
    AbsTimes(rest, d);
    Larger(1.0 - m, rest, gap);
    ZeroOnly(rest, d);
  }

  lemma AbsSign(x: real)
    ensures Abs(-x) == Abs(x) && (Abs(x) == 0.0 <==> x == 0.0)
  {
  }

  lemma AbsTimes(a: real, d: real)
    requires a >= 0.0
    ensures Abs(Times(a, d)) == Times(a, Abs(d))
  {
    hide Times;
    if d >= 0.0 {
      NotNegative(a, d);
    } else {
      NotNegative(a, -d);
      Opposite(a, d);
    }
  }

  /** A move relative to the estimate, and absolute. */
  lemma GapFits(d: real, prev: real, frac: real)
    requires prev > 0.0
    ensures Abs(d / prev) <= frac <==> Abs(d) <= Times(prev, frac)
  {
    hide Times, Abs;
    assert Over(d, prev) == d / prev;
    hide Over;
    Whole(d, prev);
    var q := Over(d, prev);
    AbsTimes(prev, q);
    if Abs(q) <= frac {
      Rises(prev, Abs(q), frac);
    } else {
      RisesStrictly(prev, frac, Abs(q));
    }
  }

  /** Two folds of one observation keep the product of what each keeps. */
  lemma TwoBlends(prev: real, o: real, keepA: real, keepB: real)
    ensures Blend(Blend(prev, 1.0 - keepA, o), 1.0 - keepB, o) == Blend(prev, 1.0 - Times(keepB, keepA), o)
  {
    hide Blend, Times;
    var d, mid := o - prev, Blend(prev, 1.0 - keepA, o);
    BlendIs(prev, 1.0 - keepA, o, d);
    Rest(keepA, d);
    BlendIs(mid, 1.0 - keepB, o, o - mid);
    Rest(keepB, o - mid);
    Nested(keepB, keepA, d);
    BlendIs(prev, 1.0 - Times(keepB, keepA), o, d);
    Rest(Times(keepB, keepA), d);
  }

  lemma BlendsDiffer(prev: real, x: real, y: real, o: real)
    ensures Blend(prev, x, o) == Blend(prev, y, o) <==> x == y || o == prev
  {
    hide Blend, Times;
    var d := o - prev;
    BlendIs(prev, x, o, d);
    BlendIs(prev, y, o, d);
    Swap(x, d);
    Swap(y, d);
    Sum(d, y, x - y);
    ZeroOnly(d, x - y);
  }

  lemma Remaining(prev: real, d: real, a: real, frac: real)
    requires prev > 0.0 && 0.0 <= a < 1.0 && 0.0 < frac <= 1.0 && Abs(d) <= Times(frac, prev)
    ensures var mid := prev + Times(a, d); mid > 0.0 && Abs(d - Times(a, d)) <= Times(frac, mid)
  {
    hide Times;
    var step := Times(a, d);
    Sum(frac, prev, step);
    if d >= 0.0 {
      PartOf(a, d);
      NotNegative(frac, step);
    } else {
      PartOf(a, -d);
      Opposite(a, d);
      PartOf(frac, prev);
      PartOf(frac, -step);
      Opposite(frac, step);
    }
  }

  /** An observation within an allowance is still within it once part of the move
      has been made. */
  lemma StillAllowed(prev: real, o: real, a: real, frac: real)
    requires prev > 0.0 && 0.0 <= a < 1.0 && 0.0 < frac <= 1.0
    requires Abs((o - prev) / prev) <= frac
    ensures var mid := Blend(prev, a, o); mid > 0.0 && Abs((o - mid) / mid) <= frac
  {
    hide Blend, Abs, Times;
    var d, mid := o - prev, Blend(prev, a, o);
    GapFits(d, prev, frac);
    Swap(prev, frac);
    BlendIs(prev, a, o, d);
    Remaining(prev, d, a, frac);
    GapFits(o - mid, mid, frac);
    Swap(mid, frac);
  }

  /** What two capped weights keep between them is what one capped weight over
      both keeps, exactly when that one is not capped. */
  lemma CappedTwice(a: real, b: real, joined: real, m: real)
    requires 0.0 < a <= 1.0 && 0.0 < b <= 1.0 && 0.0 < m < 1.0
    requires 1.0 - joined == Times(1.0 - b, 1.0 - a)
    ensures 0.0 < joined <= 1.0
    ensures var keepA, keepB := if a < m then 1.0 - a else 1.0 - m, if b < m then 1.0 - b else 1.0 - m;
            1.0 - Times(keepB, keepA) == (if joined < m then joined else m) <==> joined <= m
  {
    hide Times;
    var ra, rb, rm := 1.0 - a, 1.0 - b, 1.0 - m;
    PartOf(rb, ra);
    PartOf(ra, rb);
    Swap(ra, rb);
    PartOf(rb, rm);
    PartOf(ra, rm);
    Swap(ra, rm);
    PartOf(rm, rm);
  }

  lemma WeightIs(p: Params, dt: nat, decay: real)
    requires p.Valid() && dt > 0 && 0.0 <= decay <= 1.0
    ensures Weight(p, dt, decay) == if decay < p.maxWeight then decay else p.maxWeight
  {
  }

  lemma AllowedFolds(p: Params, prev: real, o: real, dt: nat, decay: real)
    requires p.Valid() && prev > 0.0 && Abs((o - prev) / prev) <= p.maxJumpFrac
    ensures Offered(p, Some(prev), Finite(o), dt, decay) ==
            var next := Blend(prev, Weight(p, dt, decay), o); (Some(next), Folded(next))
  {
    hide JumpAllowance, Blend, Abs, Weight;
    GateWidens(p, 0, dt);
  }

  /** A half-life means the same under any cadence: for an observation within the
      base allowance, which the gate lets through after any gap, two offers land
      where one over the joined gap does exactly when the cap does not bind over
      that gap, or there is no move to make. A decay over a joined gap keeps the
      product of what the two keep. */
  lemma CadenceIsIrrelevant(p: Params, prev: real, o: real, dtA: nat, a: real, dtB: nat, b: real, joined: real)
    requires p.Valid() && prev > 0.0 && Abs((o - prev) / prev) <= p.maxJumpFrac
    requires dtA > 0 && dtB > 0 && 0.0 < a <= 1.0 && 0.0 < b <= 1.0
    requires 1.0 - joined == (1.0 - b) * (1.0 - a)
    ensures var once := Offered(p, Some(prev), Finite(o), dtA + dtB, joined);
            var first := Offered(p, Some(prev), Finite(o), dtA, a);
            var second := Offered(p, first.0, Finite(o), dtB, b);
            && once.1.Folded? && first.1.Folded? && second.1.Folded?
            && (second.0 == once.0 <==> joined <= p.maxWeight || o == prev)
  {
    hide Offered, Blend, Abs, Weight, Times;
    Spelled(1.0 - b, 1.0 - a);
    CappedTwice(a, b, joined, p.maxWeight);
    WeightIs(p, dtA, a);
    WeightIs(p, dtB, b);
    WeightIs(p, dtA + dtB, joined);
    var wA, wB, w := Weight(p, dtA, a), Weight(p, dtB, b), Weight(p, dtA + dtB, joined);
    var mid := Blend(prev, wA, o);
    StillAllowed(prev, o, wA, p.maxJumpFrac);
    AllowedFolds(p, prev, o, dtA, a);
    AllowedFolds(p, mid, o, dtB, b);
    AllowedFolds(p, prev, o, dtA + dtB, joined);
    TwoBlends(prev, o, 1.0 - wA, 1.0 - wB);
    BlendsDiffer(prev, 1.0 - Times(1.0 - wB, 1.0 - wA), w, o);
  }

  // ------------------------------------------------------------------- runs

  /** One offer: what was observed, after how long, and the decay of that gap. */
  datatype Offer = Offer(observation: Num, dt: nat, decay: real)

  function EmaAfter(p: Params, offers: seq<Offer>): Option<real> {
    if offers == [] then None
    else
      var o := offers[|offers| - 1];
      Offered(p, EmaAfter(p, offers[..|offers| - 1]), o.observation, o.dt, o.decay).0
  }

  /** Every observation that folded, the seed included, lies in the interval. */
  predicate FoldedWithin(p: Params, offers: seq<Offer>, lo: real, hi: real) {
    offers == [] ||
    (var before, o := offers[..|offers| - 1], offers[|offers| - 1];
     && FoldedWithin(p, before, lo, hi)
     && (Offered(p, EmaAfter(p, before), o.observation, o.dt, o.decay).1.Folded? ==>
           o.observation.Finite? && lo <= o.observation.r <= hi))
  }

  /** The estimate never leaves the hull of the seed and what was folded. */
  lemma {:induction false} StaysInTheHull(p: Params, offers: seq<Offer>, lo: real, hi: real)
    requires p.Valid() && FoldedWithin(p, offers, lo, hi)
    ensures EmaAfter(p, offers).Some? ==> lo <= EmaAfter(p, offers).value <= hi
  {
    hide IsAJump, Blend, Weight;
    if offers != [] {
      var before, o := offers[..|offers| - 1], offers[|offers| - 1];
      StaysInTheHull(p, before, lo, hi);
      OfferStays(p, EmaAfter(p, before), o, lo, hi);
    }
  }

  lemma OfferStays(p: Params, prev: Option<real>, o: Offer, lo: real, hi: real)
    requires p.Valid() && (prev.Some? ==> lo <= prev.value <= hi)
    requires Offered(p, prev, o.observation, o.dt, o.decay).1.Folded? ==> lo <= o.observation.r <= hi
    ensures var next := Offered(p, prev, o.observation, o.dt, o.decay).0; next.Some? ==> lo <= next.value <= hi
  {
    hide IsAJump, Blend, Weight;
    WeightInRange(p, o.dt, o.decay);
    if prev.Some? && o.observation.Finite? && lo <= o.observation.r <= hi {
      BlendWithin(prev.value, o.observation.r, Weight(p, o.dt, o.decay), lo, hi);
    }
  }

  /** Ten half-lives after the last fold the gate is at its widest. */
  lemma WidestGate(p: Params, dt: nat)
    requires p.Valid() && dt >= 10 * p.halfLife
    ensures JumpAllowance(p, dt) == MAX_JUMP_WIDENING * p.maxJumpFrac
  {
    hide Times;
    var h := p.halfLife as real;
    RatioIs(dt, p.halfLife);
    OverCompares(dt as real, h, 10.0);
    assert Times(h, 10.0) == 10.0 * h by { Spelled(10.0, h); Swap(10.0, h); }
    hide Over;
    Widest(p.maxJumpFrac);
  }

  lemma RatioIs(dt: nat, halfLife: nat)
    requires halfLife > 0
    ensures Ratio(dt, halfLife) == Over(dt as real, halfLife as real)
  {
  }

  lemma Widest(base: real)
    ensures Allowance(base, MAX_JUMP_WIDENING) == MAX_JUMP_WIDENING * base
  {
  }

  /** A constant observation offered tick after tick. */
  datatype Carried = Carried(value: Option<real>, since: nat, folded: bool)

  /** The caller's clock: elapsed time accumulates until an observation folds. */
  function OfferConstant(p: Params, s: Carried, o: real, dt: nat, decay: real): Carried {
    var (value, fold) := Offered(p, s.value, Finite(o), s.since + dt, decay);
    Carried(value, if fold.Folded? then 0 else s.since + dt, s.folded || fold.Folded?)
  }

  function OfferAll(p: Params, s: Carried, o: real, gaps: seq<(nat, real)>): Carried {
    if gaps == [] then s
    else OfferConstant(p, OfferAll(p, s, o, gaps[..|gaps| - 1]), o, gaps[|gaps| - 1].0, gaps[|gaps| - 1].1)
  }

  function Total(gaps: seq<(nat, real)>): nat {
    if gaps == [] then 0 else Total(gaps[..|gaps| - 1]) + gaps[|gaps| - 1].0
  }

  lemma {:induction false} UnfoldedStands(p: Params, s: Carried, o: real, gaps: seq<(nat, real)>)
    requires !OfferAll(p, s, o, gaps).folded
    ensures OfferAll(p, s, o, gaps) == Carried(s.value, s.since + Total(gaps), false)
  {
    hide IsAJump;
    if gaps != [] {
      UnfoldedStands(p, s, o, gaps[..|gaps| - 1]);
    }
  }

  /** The gate at its widest lets through an observation within ten base
      allowances. */
  lemma WidestAllows(p: Params, prev: real, o: real, dt: nat, decay: real)
    requires p.Valid() && prev > 0.0 && dt >= 10 * p.halfLife
    requires Abs(o - prev) <= MAX_JUMP_WIDENING * p.maxJumpFrac * prev
    ensures Offered(p, Some(prev), Finite(o), dt, decay).1.Folded?
  {
    hide JumpAllowance, Abs, Blend, Weight;
    WidestGate(p, dt);
    WithinWidest(o - prev, prev, p.maxJumpFrac);
  }

  /** A refusal ends: an observation within ten base allowances has
      been folded by the first tick ten half-lives after the last fold. */
  lemma RefusalEnds(p: Params, prev: real, since: nat, o: real, gaps: seq<(nat, real)>)
    requires p.Valid() && prev > 0.0
    requires Abs(o - prev) <= MAX_JUMP_WIDENING * p.maxJumpFrac * prev
    requires gaps != [] && since + Total(gaps) >= 10 * p.halfLife
    ensures OfferAll(p, Carried(Some(prev), since, false), o, gaps).folded
  {
    hide Total, Abs;
    var s := Carried(Some(prev), since, false);
    if !OfferAll(p, s, o, gaps).folded {
      var before, g := gaps[..|gaps| - 1], gaps[|gaps| - 1];
      UnfoldedStands(p, s, o, before);
      TotalNext(gaps);
      WidestAllows(p, prev, o, since + Total(gaps), g.1);
    }
  }

  lemma WithinWidest(d: real, prev: real, frac: real)
    requires prev > 0.0 && Abs(d) <= MAX_JUMP_WIDENING * frac * prev
    ensures Abs(d / prev) <= MAX_JUMP_WIDENING * frac
  {
    var widest := MAX_JUMP_WIDENING * frac;
    Spelled(widest, prev);
    hide Times, Abs;
    Swap(widest, prev);
    GapFits(d, prev, widest);
  }

  lemma TotalNext(gaps: seq<(nat, real)>)
    requires gaps != []
    ensures Total(gaps) == Total(gaps[..|gaps| - 1]) + gaps[|gaps| - 1].0
  {
  }

  // ------------------------------------------------------------- in the open

  /** How far an observation may be from the estimate `dt` after the last fold: the
      base fraction of it up to one half-life, ten times that from ten on, and in
      between in proportion to the half-lives elapsed. */
  ghost predicate Allowed(p: Params, prev: real, o: real, dt: nat) {
    var gap := if o >= prev then o - prev else prev - o;
    if dt <= p.halfLife then gap <= p.maxJumpFrac * prev
    else if dt >= 10 * p.halfLife then gap <= 10.0 * p.maxJumpFrac * prev
    else gap * (p.halfLife as real) <= p.maxJumpFrac * (dt as real) * prev
  }

  /** How far of the way a fold goes: the decay of the gap, capped. */
  function Share(p: Params, dt: nat, decay: real): real {
    if dt == 0 || decay >= p.maxWeight then p.maxWeight else if decay <= 0.0 then 0.0 else decay
  }

  /** Between one half-life and ten the allowance is in proportion to the time. */
  lemma AllowanceIsLinear(p: Params, dt: nat)
    requires p.Valid()
    ensures dt <= p.halfLife ==> JumpAllowance(p, dt) == p.maxJumpFrac
    ensures p.halfLife <= dt <= 10 * p.halfLife ==> JumpAllowance(p, dt) * (p.halfLife as real) == p.maxJumpFrac * (dt as real)
    ensures 10 * p.halfLife <= dt ==> JumpAllowance(p, dt) == 10.0 * p.maxJumpFrac
  {
    hide Allowance, Widening, Ratio, Times, Over;
    var h, t, f := p.halfLife as real, dt as real, p.maxJumpFrac;
    var r := Ratio(dt, p.halfLife);
    RatioIs(dt, p.halfLife);
    Whole(t, h);
    if dt <= p.halfLife {
      GateWidens(p, dt, dt);
    } else if 10 * p.halfLife <= dt {
      WidestGate(p, dt);
    } else {
      assert 1.0 <= r <= 10.0 by {
        One(h);
        Swap(1.0, h);
        Spelled(10.0, h);
        Swap(10.0, h);
        OverCompares(t, h, 1.0);
        OverCompares(t, h, 10.0);
      }
      WideningIs(r);
      AllowanceIs(f, r);
      assert JumpAllowance(p, dt) == Times(f, r);
      Swap(f, Times(r, h));
      Swap(r, h);
      Nested(f, r, h);
      Spelled(Times(f, r), h);
      Spelled(f, t);
    }
    if dt == 10 * p.halfLife {
      TenTimes(f, h, t);
    }
  }

  lemma TenTimes(f: real, h: real, t: real)
    requires t == 10.0 * h
    ensures 10.0 * f * h == f * t
  {
  }

  lemma WideningIs(r: real)
    requires 1.0 <= r <= 10.0
    ensures Widening(r) == r
  {
  }

  lemma JumpIs(p: Params, prev: real, o: real, dt: nat)
    requires p.Valid() && prev > 0.0
    ensures IsAJump(p, prev, o, dt) <==> !Allowed(p, prev, o, dt)
  {
    hide JumpAllowance, Times, Abs, Allowed;
    var a, gap := JumpAllowance(p, dt), Abs(o - prev);
    AbsIs(o - prev);
    GapFits(o - prev, prev, a);
    Swap(prev, a);
    AllowedIs(p, prev, o, dt, gap);
  }

  lemma AllowedIs(p: Params, prev: real, o: real, dt: nat, gap: real)
    requires p.Valid() && gap == if o >= prev then o - prev else prev - o
    ensures Allowed(p, prev, o, dt) <==> gap <= Times(JumpAllowance(p, dt), prev)
  {
    hide JumpAllowance, Times, Allowed;
    AllowanceIsLinear(p, dt);
    AllowedMeans(p, prev, o, dt, gap);
    if dt <= p.halfLife {
      Spelled(p.maxJumpFrac, prev);
    } else if dt >= 10 * p.halfLife {
      Spelled(10.0 * p.maxJumpFrac, prev);
    } else {
      var a, h, t := JumpAllowance(p, dt), p.halfLife as real, dt as real;
      Compared(gap, Times(a, prev), h);
      Spelled(gap, h);
      Rescaled(a, prev, h, p.maxJumpFrac, t);
    }
  }

  lemma AllowedMeans(p: Params, prev: real, o: real, dt: nat, gap: real)
    requires gap == if o >= prev then o - prev else prev - o
    ensures dt <= p.halfLife ==> (Allowed(p, prev, o, dt) <==> gap <= p.maxJumpFrac * prev)
    ensures dt > p.halfLife && dt >= 10 * p.halfLife ==> (Allowed(p, prev, o, dt) <==> gap <= 10.0 * p.maxJumpFrac * prev)
    ensures p.halfLife < dt < 10 * p.halfLife ==>
      (Allowed(p, prev, o, dt) <==> gap * (p.halfLife as real) <= p.maxJumpFrac * (dt as real) * prev)
  {
  }

  lemma Rescaled(a: real, prev: real, h: real, f: real, t: real)
    requires a * h == f * t
    ensures Times(Times(a, prev), h) == f * t * prev
  {
    Spelled(a, prev);
    Spelled(Times(a, prev), h);
    hide Times;
    Reordered(a, prev, h, f, t);
  }

  lemma AbsIs(x: real)
    ensures Abs(x) == if x >= 0.0 then x else -x
  {
  }

  lemma Reordered(a: real, prev: real, h: real, f: real, t: real)
    requires a * h == f * t
    ensures a * prev * h == f * t * prev
  {
    assert a * prev * h == (a * h) * prev;
  }

  /** What an offer does, in full: the first finite observation is the estimate;
      after it one past the allowance, or not finite, is refused and changes
      nothing, and any other moves the estimate its share of the way. */
  lemma OfferIs(p: Params, value: Option<real>, observation: Num, dt: nat, decay: real)
    requires p.Valid() && (value.Some? ==> value.value > 0.0)
    ensures var (after, fold) := Offered(p, value, observation, dt, decay);
            if observation.NonFinite? || (value.Some? && !Allowed(p, value.value, observation.r, dt)) then
              after == value && fold.Rejected?
            else if value.None? then
              after == Some(observation.r) && fold == Folded(observation.r)
            else
              && after.Some? && fold == Folded(after.value)
              && after.value == value.value + Share(p, dt, decay) * (observation.r - value.value)
  {
    hide IsAJump, Allowed, JumpAllowance, Blend, Weight, Share;
    if value.Some? && observation.Finite? {
      JumpIs(p, value.value, observation.r, dt);
      ShareIsWeight(p, dt, decay);
      var prev, o, a := value.value, observation.r, Share(p, dt, decay);
      var next := prev + a * (o - prev);
      assert Blend(prev, a, o) == next by { BlendSpelled(prev, a, o); }
    }
  }

  lemma ShareIsWeight(p: Params, dt: nat, decay: real)
    requires p.Valid()
    ensures Weight(p, dt, decay) == Share(p, dt, decay)
  {
  }

  lemma BlendSpelled(prev: real, a: real, o: real)
    ensures Blend(prev, a, o) == prev + a * (o - prev)
  {
  }

  /** The gate only ever widens with age, from the base allowance up to its cap. */
  lemma GateWidens(p: Params, a: nat, b: nat)
    requires p.Valid() && a <= b
    ensures p.maxJumpFrac <= JumpAllowance(p, a) <= JumpAllowance(p, b) <= MAX_JUMP_WIDENING * p.maxJumpFrac
    ensures a <= p.halfLife ==> JumpAllowance(p, a) == p.maxJumpFrac
  {
    hide Allowance, Widening, Ratio;
    RatioRises(a, b, p.halfLife);
    var q, r := Ratio(a, p.halfLife), Ratio(b, p.halfLife);
    WideningRises(q, r);
    AllowanceRises(p.maxJumpFrac, Widening(q), Widening(r));
  }

  lemma WideningRises(q: real, r: real)
    requires 0.0 <= q <= r
    ensures 1.0 <= Widening(q) <= Widening(r) <= MAX_JUMP_WIDENING && (q <= 1.0 ==> Widening(q) == 1.0)
  {
  }

  lemma RatioRises(a: nat, b: nat, halfLife: nat)
    requires halfLife > 0 && a <= b
    ensures 0.0 <= Ratio(a, halfLife) <= Ratio(b, halfLife)
    ensures a <= halfLife ==> Ratio(a, halfLife) <= 1.0
    ensures a == 0 ==> Ratio(a, halfLife) == 0.0
  {
    hide Ratio, Over, Times;
    var h, x, y := halfLife as real, a as real, b as real;
    RatioIs(a, halfLife);
    RatioIs(b, halfLife);
    Zero(h);
    OverCompares(x, h, 0.0);
    Whole(y, h);
    OverCompares(x, h, Over(y, h));
    One(h);
    Swap(1.0, h);
    OverCompares(x, h, 1.0);
  }

  lemma AllowanceIs(f: real, w: real)
    ensures Allowance(f, w) == Times(f, w)
  {
  }

  lemma AllowanceRises(f: real, u: real, w: real)
    requires f > 0.0 && 1.0 <= u <= w <= MAX_JUMP_WIDENING
    ensures f == Allowance(f, 1.0) <= Allowance(f, u) <= Allowance(f, w) <= MAX_JUMP_WIDENING * f
  {
    hide Allowance, Times;
    AllowanceIs(f, 1.0);
    AllowanceIs(f, u);
    AllowanceIs(f, w);
    AllowanceIs(f, MAX_JUMP_WIDENING);
    Widest(f);
    One(f);
    Swap(1.0, f);
    Rises(f, 1.0, u);
    Rises(f, u, w);
    Rises(f, w, MAX_JUMP_WIDENING);
  }
}
