/** Bounds on tension and on boosting, for one paradox and one step. */
module ParadoxBounds {
  import opened Wrappers
  import opened Reals
  import opened Registry
  import opened ParadoxModel

  // ---- tension ----

  /** A declared contradiction is felt at least half as strongly as its two motifs together. */
  lemma TensionBounds(cfg: Config, a: Motif, b: Motif, duration: nat)
    requires Contradicts(cfg, a.id, b.id)
    requires a.InRange() && b.InRange()
    ensures 0.0 <= Tension(cfg, a, b, duration) <= 1.0
    ensures Tension(cfg, a, b, duration) >= 0.5 * (a.intensity * b.intensity)
  {
    hide Strength, Contradicts, DurationFactor, Felt;
    StrengthBound(cfg, a, b);
    FactorBounds(cfg, duration);
    UnitProduct(a.intensity, b.intensity);
    FeltBounds(Strength(cfg, a, b), Joint(a, b), DurationFactor(cfg, duration));
  }

  lemma StrengthBound(cfg: Config, a: Motif, b: Motif)
    requires Contradicts(cfg, a.id, b.id)
    ensures Strength(cfg, a, b) >= 1.0
  {}

  lemma FactorBounds(cfg: Config, duration: nat)
    ensures 0.5 <= DurationFactor(cfg, duration) <= 1.0
  {
    QuotientBounds(duration as real, cfg.maturation as real, 0.0);
  }

  lemma FeltBounds(strength: real, product: real, factor: real)
    requires strength >= 1.0 && 0.0 <= product <= 1.0 && 0.5 <= factor <= 1.0
    ensures 0.5 * product <= Felt(strength, product, factor) <= 1.0
  {
    hide RealMin;
    AtLeastOne(product, strength);
    ScaledAtLeast(strength * product, product, factor);
    CapKeeps(strength * product * factor, 0.5 * product);
  }

  lemma ScaledAtLeast(scaled: real, product: real, factor: real)
    requires 0.0 <= product <= scaled && factor >= 0.5
    ensures scaled * factor >= 0.5 * product
  {
    MulMonotone(scaled, 0.5, factor);
  }

  lemma CapKeeps(v: real, low: real)
    requires low <= v && low <= 1.0
    ensures low <= RealMin(1.0, v) <= 1.0
  {}

  // ---- boosting ----

  lemma BoostBounds(weak: Motif, strong: real, dominance: real)
    requires weak.InRange() && weak.Alive() && dominance > 0.0 && dominance * weak.intensity <= strong
    ensures var raised := weak.Boosted(BoostFactor(dominance)).intensity;
            0.0 < raised <= 1.0 && raised <= 1.5 * weak.intensity && raised <= 0.6 * strong
  {
    CappedProduct(weak.intensity, BoostFactor(dominance), dominance, strong);
  }

  /** Dominance times the weak intensity: what BoostBounds needs, on either side. */
  lemma DominanceBounds(a: Motif, b: Motif)
    requires a.Alive() && b.Alive()
    ensures 0.0 < Ratio(a, b) * b.intensity < a.intensity
    ensures 1.0 / Ratio(a, b) > 0.0
    ensures (1.0 / Ratio(a, b)) * a.intensity == b.intensity + EPSILON
  {
    var ratio := Ratio(a, b);
    QuotientInverse(a.intensity, b.intensity + EPSILON);
    MulStrict(ratio, 0.0, b.intensity);
    MulStrict(ratio, b.intensity, b.intensity + EPSILON);
  }

  /**
   What enforcing persistence may do to a paradox: at most one copy is raised, to at most half as
   much again; a raised copy stays below 0.6 of its partner (plus epsilon when it is A that is
   raised), so the strongest copy never rises above the epsilon floor; life and death stay.
   */
  ghost predicate Persisted(p: Paradox, q: Paradox) {
    && q == p.(a := q.a, b := q.b, resolutionBlocked := q.resolutionBlocked)
    && q.a == p.a.(intensity := q.a.intensity) && q.b == p.b.(intensity := q.b.intensity)
    && (q.a == p.a || q.b == p.b)
    && q.a.InRange() && q.b.InRange()
    && (q.a.Alive() <==> p.a.Alive()) && (q.b.Alive() <==> p.b.Alive())
    && q.a.intensity <= 1.5 * p.a.intensity && q.b.intensity <= 1.5 * p.b.intensity
    && (q.b != p.b ==> q.b.intensity <= 0.6 * p.a.intensity)
    && (q.a != p.a ==> q.a.intensity <= 0.6 * (p.b.intensity + EPSILON))
  }

  /** Whatever the block ratio, Enforce stays within those limits. */
  lemma EnforceBounds(cfg: Config, p: Paradox)
    requires p.a.InRange() && p.b.InRange()
    ensures Persisted(p, Enforce(cfg, p))
  {
    if p.Alive() {
      DominanceBounds(p.a, p.b);
      var ratio := Ratio(p.a, p.b);
      BoostBounds(p.b, p.a.intensity, ratio);
      BoostBounds(p.a, p.b.intensity + EPSILON, 1.0 / ratio);
    }
  }

  /** The engine's division tests, cross-multiplied. */
  lemma DominanceTests(cfg: Config, a: Motif, b: Motif)
    requires a.Alive() && b.Alive()
    ensures Ratio(a, b) > cfg.blockRatio <==> a.intensity > cfg.blockRatio * (b.intensity + EPSILON)
    ensures 1.0 / Ratio(a, b) > cfg.blockRatio <==> b.intensity + EPSILON > cfg.blockRatio * a.intensity
  {
    QuotientBounds(a.intensity, b.intensity + EPSILON, cfg.blockRatio);
    QuotientInverse(a.intensity, b.intensity + EPSILON);
    QuotientBounds(b.intensity + EPSILON, a.intensity, cfg.blockRatio);
  }

  lemma Doubles(r: real, x: real)
    requires r >= 2.0 && x >= 0.0
    ensures r * x >= 2.0 * x
  {
    MulMonotone(x, 2.0, r);
  }

  lemma BoostRaises(m: Motif, factor: real)
    requires 0.0 < m.intensity < 1.0 && factor > 1.0
    ensures m.Boosted(factor).intensity > m.intensity
  {
    MulStrict(m.intensity, 1.0, factor);
  }

  /**
   With a block ratio of at least 2 (the default), a boost multiplies the dominated copy by a
   factor between 1.2 and 1.5, capped at 1, and leaves it strictly below the dominant copy.
   */
  lemma BoostOfBKeepsOrder(cfg: Config, p: Paradox)
    requires p.a.InRange() && p.b.InRange() && p.Alive() && cfg.blockRatio >= 2.0
    requires p.a.intensity > cfg.blockRatio * (p.b.intensity + EPSILON)
    ensures var q := Enforce(cfg, p);
            && q.resolutionBlocked && q.a == p.a && p.b.intensity < q.b.intensity < q.a.intensity
            && exists factor {:trigger p.b.Boosted(factor)} ::
                 1.2 <= factor <= 1.5 && q.b == p.b.Boosted(factor)
  {
    DominanceTests(cfg, p.a, p.b);
    DominanceBounds(p.a, p.b);
    var factor := BoostFactor(Ratio(p.a, p.b));
    BoostBounds(p.b, p.a.intensity, Ratio(p.a, p.b));
    assert 1.2 <= factor <= 1.5;
    assert Enforce(cfg, p).b == p.b.Boosted(factor);
    Doubles(cfg.blockRatio, p.b.intensity + EPSILON);
    BoostRaises(p.b, factor);
  }

  /**
   The same for A, but epsilon counts against B there: the raised copy is left strictly below B exactly
   when B is above one and a half epsilon or more than half as much again as A was.
   */
  lemma BoostOfAKeepsOrder(cfg: Config, p: Paradox)
    requires p.a.InRange() && p.b.InRange() && p.Alive() && cfg.blockRatio >= 2.0
    requires p.b.intensity + EPSILON > cfg.blockRatio * p.a.intensity
    ensures var q := Enforce(cfg, p);
            && q.resolutionBlocked && q.b == p.b && (p.a.intensity < 1.0 ==> p.a.intensity < q.a.intensity)
            && (q.a.intensity < q.b.intensity
                <==> p.b.intensity > 1.5 * EPSILON || 1.5 * p.a.intensity < p.b.intensity)
            && exists factor {:trigger p.a.Boosted(factor)} ::
                 1.2 <= factor <= 1.5 && q.a == p.a.Boosted(factor)
  {
    hide Motif.Boosted, BoostFactor, Ratio, Enforce;
    var dominance := 1.0 / Ratio(p.a, p.b);
    var factor := BoostFactor(dominance);
    var strong := p.b.intensity + EPSILON;
    DominanceTests(cfg, p.a, p.b);
    DominanceBounds(p.a, p.b);
    Doubles(cfg.blockRatio, p.a.intensity);
    Doubles(cfg.blockRatio, strong);
    EnforceBoostsA(cfg, p);
    RaisedExactly(p.a.intensity, dominance, strong);
    FactorRange(dominance);
    BoostedTo(p.a, factor, RealMin(1.5 * p.a.intensity, 0.6 * strong));
  }

  lemma EnforceBoostsA(cfg: Config, p: Paradox)
    requires p.Alive() && !(Ratio(p.a, p.b) > cfg.blockRatio) && 1.0 / Ratio(p.a, p.b) > cfg.blockRatio
    ensures Enforce(cfg, p) == p.(a := p.a.Boosted(BoostFactor(1.0 / Ratio(p.a, p.b))), resolutionBlocked := true)
  {}

  lemma FactorRange(dominance: real)
    requires dominance > 2.0
    ensures 1.2 <= BoostFactor(dominance) <= 1.5
  {}

  lemma BoostedTo(m: Motif, factor: real, raised: real)
    requires m.intensity * factor == raised
    ensures m.Boosted(factor) == m.(intensity := RealMin(1.0, raised))
  {}

  /** The boosted intensity without the cap: the smaller of its two bounds. */
  lemma RaisedExactly(weak: real, dominance: real, strong: real)
    requires weak > 0.0 && dominance * weak == strong
    ensures weak * BoostFactor(dominance) == RealMin(1.5 * weak, 0.6 * strong)
  {
    assert weak * (dominance * 0.6) == 0.6 * strong;
    if dominance * 0.6 < 1.5 {
      MulStrict(weak, dominance * 0.6, 1.5);
    } else {
      MulMonotone(weak, 1.5, dominance * 0.6);
    }
  }

  /** Order can be lost below that floor: here a copy already above its partner is still raised. */
  lemma BoostBelowFloorLosesOrder(cfg: Config, p: Paradox)
    requires cfg.blockRatio == 2.0
    requires p.a.intensity == 0.000000005 && p.b.intensity == 0.000000001
    ensures p.a.intensity > p.b.intensity
    ensures Enforce(cfg, p).a.intensity > p.a.intensity && Enforce(cfg, p).b == p.b
  {
    DominanceTests(cfg, p.a, p.b);
    var factor := BoostFactor(1.0 / Ratio(p.a, p.b));
    BoostRaises(p.a, factor);
  }
}
