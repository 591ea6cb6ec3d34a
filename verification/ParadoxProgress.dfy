/**
 What a tick does to each paradox, in numbers, and what follows for whole runs: a held paradox grows
 older by one each tick and emerges at maturity.
 */
module ParadoxProgress {
  import opened Wrappers
  import opened Reals
  import opened Registry
  import opened ParadoxModel
  import opened ParadoxBounds
  import opened ParadoxRuns
  import opened ParadoxLives

  // ---- copies ----

  predicate LastOf(live: seq<Motif>, id: string, k: int) {
    0 <= k < |live| && live[k].id == id && forall l :: k < l < |live| ==> live[l].id != id
  }

  /** The last listed motif of the id or, when there is none, the old copy less its decay rate. */
  ghost predicate CopyAfter(m: Motif, live: seq<Motif>, x: Motif) {
    || (exists k :: LastOf(live, m.id, k) && x == live[k])
    || ((forall l <- live :: l.id != m.id)
        && x == m.(intensity := if m.intensity > m.decayRate then m.intensity - m.decayRate else 0.0))
  }

  lemma {:induction false} LookupIsLast(live: seq<Motif>, id: string)
    ensures Lookup(live, id).Some? ==> exists k :: LastOf(live, id, k) && live[k] == Lookup(live, id).value
  {
    if live != [] {
      var n := |live| - 1;
      if live[n].id == id {
        LastIsLast(live, id);
      } else {
        LookupIsLast(live[..n], id);
        if Lookup(live[..n], id).Some? {
          var k :| LastOf(live[..n], id, k) && live[..n][k] == Lookup(live[..n], id).value;
          LastOfFront(live, id, k);
        }
      }
    }
  }

  lemma LastIsLast(live: seq<Motif>, id: string)
    requires live != [] && live[|live| - 1].id == id
    ensures LastOf(live, id, |live| - 1)
  {}

  lemma LastOfFront(live: seq<Motif>, id: string, k: int)
    requires live != [] && live[|live| - 1].id != id && LastOf(live[..|live| - 1], id, k)
    ensures LastOf(live, id, k) && live[k] == live[..|live| - 1][k]
  {
    var front := live[..|live| - 1];
    assert forall l :: 0 <= l < |front| ==> front[l] == live[l];
  }

  lemma RefreshedExactly(m: Motif, live: seq<Motif>)
    ensures CopyAfter(m, live, Refreshed(m, live))
  {
    LookupIsLast(live, m.id);
  }

  // ---- persistence in numbers ----

  /** 0.6 of what A's intensity x gives B when spread over B's intensity y and epsilon. */
  predicate IsShare(share: real, x: real, y: real) {
    share * (y + EPSILON) == 0.6 * (x * y)
  }

  /**
   What persistence makes of two copies of intensities x and y: nothing if one is dead; if A dominates, B
   is raised by half or, if that is less, to 0.6 of its share of A; if B does, A likewise, to 0.6 of B plus
   epsilon; never above 1. The paradox is blocked exactly when one of them dominated.
   */
  ghost predicate Balances(cfg: Config, x: real, y: real, p: Paradox, q: Paradox) {
    && q.a == p.a.(intensity := q.a.intensity) && q.b == p.b.(intensity := q.b.intensity)
    && if x <= 0.0 || y <= 0.0 then
         q.a.intensity == x && q.b.intensity == y && q.resolutionBlocked == p.resolutionBlocked
       else if x > cfg.blockRatio * (y + EPSILON) then
         && q.a.intensity == x && q.resolutionBlocked
         && exists share :: IsShare(share, x, y) && q.b.intensity == RealMin(1.0, RealMin(1.5 * y, share))
       else if y + EPSILON > cfg.blockRatio * x then
         && q.b.intensity == y && q.resolutionBlocked
         && q.a.intensity == RealMin(1.0, RealMin(1.5 * x, 0.6 * (y + EPSILON)))
       else
         q.a.intensity == x && q.b.intensity == y && !q.resolutionBlocked
  }

  ghost predicate OnlyBalanced(p: Paradox, q: Paradox) {
    q == p.(a := q.a, b := q.b, resolutionBlocked := q.resolutionBlocked)
  }

  lemma EnforceExactly(cfg: Config, p: Paradox)
    requires p.a.InRange() && p.b.InRange()
    ensures Balances(cfg, p.a.intensity, p.b.intensity, p, Enforce(cfg, p)) && OnlyBalanced(p, Enforce(cfg, p))
  {
    if !p.Alive() {
    } else if p.a.intensity > cfg.blockRatio * (p.b.intensity + EPSILON) {
      BoostsB(cfg, p);
    } else if p.b.intensity + EPSILON > cfg.blockRatio * p.a.intensity {
      BoostsA(cfg, p);
    } else {
      DominanceTests(cfg, p.a, p.b);
      hide Ratio;
    }
  }

  lemma BoostsB(cfg: Config, p: Paradox)
    requires p.a.InRange() && p.b.InRange() && p.Alive()
    requires p.a.intensity > cfg.blockRatio * (p.b.intensity + EPSILON)
    ensures Balances(cfg, p.a.intensity, p.b.intensity, p, Enforce(cfg, p)) && OnlyBalanced(p, Enforce(cfg, p))
  {
    hide Motif.Boosted, BoostFactor, Ratio, RealMin, IsShare, Enforce;
    DominanceTests(cfg, p.a, p.b);
    RatioTimes(p.a, p.b);
    EnforceBoostsB(cfg, p);
    var share := BoostedShare(p.b, Ratio(p.a, p.b), p.a.intensity);
  }

  lemma EnforceBoostsB(cfg: Config, p: Paradox)
    requires p.Alive() && Ratio(p.a, p.b) > cfg.blockRatio
    ensures Enforce(cfg, p) == p.(b := p.b.Boosted(BoostFactor(Ratio(p.a, p.b))), resolutionBlocked := true)
  {}

  lemma BoostedShare(weak: Motif, ratio: real, strong: real) returns (share: real)
    requires weak.Alive() && ratio * (weak.intensity + EPSILON) == strong
    ensures IsShare(share, strong, weak.intensity)
    ensures weak.Boosted(BoostFactor(ratio))
         == weak.(intensity := RealMin(1.0, RealMin(1.5 * weak.intensity, share)))
  {
    hide Motif.Boosted, BoostFactor, IsShare;
    var y := weak.intensity;
    share := 0.6 * (ratio * y);
    ShareOf(ratio, y, strong);
    RaisedExactly(y, ratio, ratio * y);
    BoostedTo(weak, BoostFactor(ratio), RealMin(1.5 * y, share));
  }

  lemma BoostsA(cfg: Config, p: Paradox)
    requires p.a.InRange() && p.b.InRange() && p.Alive()
    requires !(p.a.intensity > cfg.blockRatio * (p.b.intensity + EPSILON))
    requires p.b.intensity + EPSILON > cfg.blockRatio * p.a.intensity
    ensures Balances(cfg, p.a.intensity, p.b.intensity, p, Enforce(cfg, p)) && OnlyBalanced(p, Enforce(cfg, p))
  {
    hide Motif.Boosted, BoostFactor, Ratio, RealMin, Enforce, IsShare;
    DominanceTests(cfg, p.a, p.b);
    EnforceBoostsA(cfg, p);
    BoostedToStrong(p.a, p.b);
  }

  lemma BoostedToStrong(a: Motif, b: Motif)
    requires a.Alive() && b.Alive()
    ensures a.Boosted(BoostFactor(1.0 / Ratio(a, b)))
         == a.(intensity := RealMin(1.0, RealMin(1.5 * a.intensity, 0.6 * (b.intensity + EPSILON))))
  {
    hide Motif.Boosted, BoostFactor, Ratio, RealMin;
    var dominance, strong := 1.0 / Ratio(a, b), b.intensity + EPSILON;
    DominanceBounds(a, b);
    RaisedExactly(a.intensity, dominance, strong);
    BoostedTo(a, BoostFactor(dominance), RealMin(1.5 * a.intensity, 0.6 * strong));
  }

  lemma RatioTimes(a: Motif, b: Motif)
    requires a.Alive() && b.Alive()
    ensures Ratio(a, b) * (b.intensity + EPSILON) == a.intensity
  {
    QuotientTimes(a.intensity, b.intensity + EPSILON);
  }

  lemma ShareOf(ratio: real, y: real, x: real)
    requires ratio * (y + EPSILON) == x
    ensures IsShare(0.6 * (ratio * y), x, y)
  {
    var z := y + EPSILON;
    assert (ratio * y) * z == (ratio * z) * y;
    assert (0.6 * (ratio * y)) * z == 0.6 * ((ratio * y) * z);
  }

  // ---- tension in numbers ----

  /**
   Tension is strength times both intensities, half of it at once and the rest in proportion to the
   duration up to maturity, capped at 1; a declared contradiction has a strength of at least 1.
   */
  lemma TensionExactly(cfg: Config, a: Motif, b: Motif, duration: nat) returns (strength: real, felt: real)
    ensures strength == RealMax(if Contradicts(cfg, a.id, b.id) then 1.0 else 0.0,
                                1.0 - Cosine(cfg.registry.norm, a.vector, b.vector))
    ensures var mature := cfg.maturation as real;
            felt * (2.0 * mature) == strength * (a.intensity * b.intensity)
              * (mature + if duration < cfg.maturation then duration as real else mature)
    ensures Tension(cfg, a, b, duration) == RealMin(1.0, felt)
  {
    hide Cosine, Contradicts;
    var factor := DurationFactor(cfg, duration);
    strength := Strength(cfg, a, b);
    felt := strength * Joint(a, b) * factor;
    FactorExactly(cfg, duration);
    Scales(strength * Joint(a, b), factor, 2.0 * cfg.maturation as real,
           cfg.maturation as real + if duration < cfg.maturation then duration as real else cfg.maturation as real);
  }

  lemma FactorExactly(cfg: Config, duration: nat)
    ensures var mature := cfg.maturation as real;
            DurationFactor(cfg, duration) * (2.0 * mature)
            == mature + if duration < cfg.maturation then duration as real else mature
  {
    var mature, d := cfg.maturation as real, duration as real;
    QuotientTimes(d, mature);
    QuotientBounds(d, mature, 1.0);
    if duration < cfg.maturation {
      assert RealMin(1.0, d / mature) == d / mature;
      HalfAndHalf(d / mature, mature, d);
    } else {
      assert RealMin(1.0, d / mature) == 1.0;
    }
  }

  lemma HalfAndHalf(q: real, mature: real, d: real)
    requires q * mature == d
    ensures (0.5 + 0.5 * q) * (2.0 * mature) == mature + d
  {
    assert (0.5 + 0.5 * q) * (2.0 * mature) == mature + q * mature;
  }

  lemma Scales(product: real, factor: real, scale: real, scaled: real)
    requires factor * scale == scaled
    ensures (product * factor) * scale == product * scaled
  {
    assert (product * factor) * scale == product * (factor * scale);
  }

  // ---- one paradox, one tick ----

  /**
   One tick of a tracked paradox: copies x and y are taken, and if both are alive the tension is theirs at
   the old duration, the duration is one more, the peak and the candidacy follow, and at maturity with a
   tension above 0.2 it has emerged; otherwise all of these stay. Then persistence acts on the copies.
   */
  ghost predicate Lives(cfg: Config, p: Paradox, x: Motif, y: Motif, q: Paradox) {
    && q.id == p.id && q.birthTick == p.birthTick
    && (exists r: Paradox :: r.a == x && r.b == y && r.resolutionBlocked == p.resolutionBlocked
          && Balances(cfg, x.intensity, y.intensity, r, q))
    && (q.Alive() <==> x.intensity > 0.0 && y.intensity > 0.0)
    && q.duration == p.duration + (if q.Alive() then 1 else 0)
    && q.tension == (if q.Alive() then Tension(cfg, x, y, p.duration) else p.tension)
    && q.peakTension == (if q.Alive() then RealMax(p.peakTension, q.tension) else p.peakTension)
    && (q.maturationCandidate
        <==> p.maturationCandidate || (q.Alive() && q.duration >= cfg.maturation && q.tension > 0.2))
    && (q.emerged <==> p.emerged || (q.Alive() && q.duration >= cfg.maturation && q.tension > 0.2))
  }

  lemma AdvanceExactly(cfg: Config, p: Paradox, live: seq<Motif>) returns (x: Motif, y: Motif)
    requires p.a.InRange() && p.b.InRange() && forall m <- live :: m.InRange()
    ensures CopyAfter(p.a, live, x) && CopyAfter(p.b, live, y) && x.InRange() && y.InRange()
    ensures Lives(cfg, p, x, y, Advance(cfg, p, live))
  {
    hide Tension, Balances, Enforce, Refreshed, CopyAfter;
    x, y := Refreshed(p.a, live), Refreshed(p.b, live);
    RefreshedExactly(p.a, live);
    RefreshedExactly(p.b, live);
    RefreshedInRange(p.a, live);
    RefreshedInRange(p.b, live);
    var updated := Update(cfg, p, live);
    var enforced := Enforce(cfg, updated);
    EnforceExactly(cfg, updated);
    EnforceBounds(cfg, updated);
    assert updated.a == x && updated.b == y && updated.resolutionBlocked == p.resolutionBlocked;
    BalancesSame(cfg, x.intensity, y.intensity, updated, enforced, Advance(cfg, p, live));
  }

  lemma BalancesSame(cfg: Config, x: real, y: real, p: Paradox, q: Paradox, q': Paradox)
    requires Balances(cfg, x, y, p, q)
    requires q'.a == q.a && q'.b == q.b && q'.resolutionBlocked == q.resolutionBlocked
    ensures Balances(cfg, x, y, p, q')
  {}

  // ---- one tick of the engine ----

  /** The place of a paradox that detection found tracked already. */
  lemma SameParadox(cfg: Config, e: Engine, live: seq<Motif>, p: Paradox, k: nat)
    requires Inv(cfg, e) && (forall m <- live :: m.InRange()) && p in e.paradoxes
    requires var ps := Detect(cfg, e.paradoxes, live, e.tickCount + 1); k < |ps| && ps[k].id == p.id
    ensures Detect(cfg, e.paradoxes, live, e.tickCount + 1)[k] == p
  {
    hide Detect, Inv, Tracks, Chronicle;
    var ps := Detect(cfg, e.paradoxes, live, e.tickCount + 1);
    DetectReady(cfg, e, live);
    DetectKeeps(cfg, e.paradoxes, live, e.tickCount + 1);
    var i :| 0 <= i < |e.paradoxes| && e.paradoxes[i] == p;
    assert ps[i] == p;
  }

  lemma DetectKeeps(cfg: Config, ps: seq<Paradox>, live: seq<Motif>, tick: nat)
    ensures ps <= Detect(cfg, ps, live, tick)
    ensures Extends(cfg, live, ps, Detect(cfg, ps, live, tick), tick)
  {
    RowsExtend(cfg, ps, live, |live|, tick);
  }

  /** A tracked paradox is still tracked after a tick exactly when one of its new copies is alive. */
  lemma TickAdvances(cfg: Config, e: Engine, active: seq<Motif>, p: Paradox) returns (x: Motif, y: Motif, q: Paradox)
    requires Inv(cfg, e) && Known(cfg, active) && p in e.paradoxes
    ensures CopyAfter(p.a, Survivors(active), x) && CopyAfter(p.b, Survivors(active), y)
    ensures Lives(cfg, p, x, y, q)
    ensures q in Tick(cfg, e, active).paradoxes <==> x.intensity > 0.0 || y.intensity > 0.0
    ensures forall q' <- Tick(cfg, e, active).paradoxes :: q'.id == p.id ==> q' == q
  {
    hide Detect, Survivors, Tick, Lives, Tension, CopyAfter, Update, Enforce;
    var live := Survivors(active);
    SurvivorsInRange(active);
    InRangeTracked(cfg, e, p);
    x, y := AdvanceExactly(cfg, p, live);
    q := Advance(cfg, p, live);
    forall q' | q' in Tick(cfg, e, active).paradoxes && q'.id == p.id ensures q' == q && !q'.Dead() {
      OnlySuccessor(cfg, e, active, p, q');
    }
    SuccessorKept(cfg, e, active, p);
    LivesDead(cfg, p, x, y, q);
  }

  lemma InRangeTracked(cfg: Config, e: Engine, p: Paradox)
    requires Inv(cfg, e) && p in e.paradoxes
    ensures Tracks(cfg, p, e.tickCount) && p.a.InRange() && p.b.InRange()
  {}

  lemma LivesDead(cfg: Config, p: Paradox, x: Motif, y: Motif, q: Paradox)
    requires Lives(cfg, p, x, y, q) && x.InRange() && y.InRange()
    ensures !q.Dead() <==> x.intensity > 0.0 || y.intensity > 0.0
    ensures q.id == p.id
  {}

  lemma OnlySuccessor(cfg: Config, e: Engine, active: seq<Motif>, p: Paradox, q: Paradox)
    requires Inv(cfg, e) && Known(cfg, active) && p in e.paradoxes
    requires q in Tick(cfg, e, active).paradoxes && q.id == p.id
    ensures q == Advance(cfg, p, Survivors(active)) && !q.Dead()
  {
    hide Detect, Survivors, Update, Enforce, Tick, Inv, Tension;
    var live := Survivors(active);
    var k := KeptIndex(cfg, e, active, q);
    SurvivorsInRange(active);
    var ps := Detect(cfg, e.paradoxes, live, e.tickCount + 1);
    DetectReady(cfg, e, live);
    EnforcedAdvanced(cfg, ps, live, e.emergenceLog, e.tickCount + 1);
    SameLife(cfg, ps[k], Enforced(cfg, ps, live)[k], e.tickCount + 1);
    SameParadox(cfg, e, live, p, k);
    TickKeeps(cfg, e, active);
    NotDead(cfg, Tick(cfg, e, active), q);
  }

  lemma NotDead(cfg: Config, e: Engine, p: Paradox)
    requires Inv(cfg, e) && p in e.paradoxes
    ensures !p.Dead()
  {}

  lemma SuccessorKept(cfg: Config, e: Engine, active: seq<Motif>, p: Paradox)
    requires p in e.paradoxes
    ensures var q := Advance(cfg, p, Survivors(active)); !q.Dead() ==> q in Tick(cfg, e, active).paradoxes
  {
    hide Detect, Survivors, Advance, Tick;
    var live := Survivors(active);
    DetectKeeps(cfg, e.paradoxes, live, e.tickCount + 1);
    var k :| 0 <= k < |e.paradoxes| && e.paradoxes[k] == p;
    assert Detect(cfg, e.paradoxes, live, e.tickCount + 1)[k] == p;
    UndeadIsKept(cfg, e, active, k);
  }

  /**
   A paradox tracked before and after a tick is the same one, one tick older exactly if both its copies
   come out alive.
   */
  lemma LifeAdvances(cfg: Config, e: Engine, active: seq<Motif>, p: Paradox, q: Paradox)
    requires Inv(cfg, e) && Known(cfg, active)
    requires p in e.paradoxes && q in Tick(cfg, e, active).paradoxes && q.id == p.id
    ensures q.birthTick == p.birthTick
    ensures q.duration == p.duration + (if q.a.intensity > 0.0 && q.b.intensity > 0.0 then 1 else 0)
    ensures q.peakTension >= q.tension
    ensures q.peakTension > p.peakTension ==> q.peakTension == q.tension
  {
    hide Tick, Inv, CopyAfter, Balances, Tension;
    var x, y, successor := TickAdvances(cfg, e, active, p);
    TickKeeps(cfg, e, active);
    InRangeTracked(cfg, Tick(cfg, e, active), q);
  }

  // ---- births ----

  ghost predicate UniqueIds(live: seq<Motif>) {
    forall i, j :: 0 <= i < j < |live| ==> live[i].id != live[j].id
  }

  /** A paradox new after a tick is of two survivors that contradict each other, both above 0.1. */
  lemma BirthExactly(cfg: Config, e: Engine, active: seq<Motif>, q: Paradox) returns (a: Motif, b: Motif)
    requires Inv(cfg, e) && Known(cfg, active)
    requires q in Tick(cfg, e, active).paradoxes && !Tracked(e.paradoxes, q.id)
    ensures a in Survivors(active) && b in Survivors(active) && q.id == PairId(a.id, b.id)
    ensures Contradicts(cfg, a.id, b.id) && a.intensity > 0.1 && b.intensity > 0.1
    ensures q.a.id == a.id && q.b.id == b.id && q.birthTick == e.tickCount + 1
    ensures UniqueIds(Survivors(active)) ==>
              && q.duration == 1 && q.tension == q.peakTension == Tension(cfg, a, b, 0)
              && (q.emerged <==> cfg.maturation == 1 && q.tension > 0.2)
  {
    hide Detect, Survivors, Tick, Inv, Tension, Update, Enforce, Balances;
    var live, tick := Survivors(active), e.tickCount + 1;
    var ps := Detect(cfg, e.paradoxes, live, tick);
    SurvivorsInRange(active);
    var k := KeptIndex(cfg, e, active, q);
    DetectReady(cfg, e, live);
    DetectKeeps(cfg, e.paradoxes, live, tick);
    EnforcedAdvanced(cfg, ps, live, e.emergenceLog, tick);
    SameLife(cfg, ps[k], Enforced(cfg, ps, live)[k], tick);
    NotTrackedIsNew(e.paradoxes, ps, k);
    assert BornNow(cfg, live, ps[k], tick);
    a, b := ps[k].a, ps[k].b;
    var x, y := AdvanceExactly(cfg, ps[k], live);
    SurvivorsAlive(active, x, y);
    BirthIds(cfg, ps[k], x, y, q, live);
    if UniqueIds(live) {
      CopyOfLive(a, live, x);
      CopyOfLive(b, live, y);
    }
  }

  lemma NotTrackedIsNew(before: seq<Paradox>, ps: seq<Paradox>, k: nat)
    requires before <= ps && k < |ps| && !Tracked(before, ps[k].id)
    ensures k >= |before|
  {
    assert forall i :: 0 <= i < |before| ==> before[i].id == ps[i].id;
  }

  lemma SurvivorsAlive(active: seq<Motif>, x: Motif, y: Motif)
    requires forall m <- active :: m.InRange()
    ensures x in Survivors(active) ==> x.Alive()
    ensures y in Survivors(active) ==> y.Alive()
  {
    SurvivorsInRange(active);
  }

  lemma BirthIds(cfg: Config, p: Paradox, x: Motif, y: Motif, q: Paradox, live: seq<Motif>)
    requires Lives(cfg, p, x, y, q) && CopyAfter(p.a, live, x) && CopyAfter(p.b, live, y)
    ensures q.a.id == p.a.id && q.b.id == p.b.id
    ensures p.a in live ==> x in live
    ensures p.b in live ==> y in live
  {}

  lemma CopyOfLive(m: Motif, live: seq<Motif>, x: Motif)
    requires UniqueIds(live) && m in live && CopyAfter(m, live, x)
    ensures x == m
  {}

  /**
   With one motif per id, a pair not tracked before a tick is tracked after it exactly when the two
   survivors contradict each other and both are above 0.1.
   */
  lemma TrackedExactly(cfg: Config, e: Engine, active: seq<Motif>, i: nat, j: nat)
    requires Inv(cfg, e) && Known(cfg, active) && PlainNames(cfg.registry) && UniqueIds(Survivors(active))
    requires i < j < |Survivors(active)|
    requires !Tracked(e.paradoxes, PairId(Survivors(active)[i].id, Survivors(active)[j].id))
    ensures var x, y := Survivors(active)[i], Survivors(active)[j];
            Tracked(Tick(cfg, e, active).paradoxes, PairId(x.id, y.id))
            <==> Contradicts(cfg, x.id, y.id) && x.intensity > 0.1 && y.intensity > 0.1
  {
    hide Detect, Survivors, Tick, Inv, Tension, Contradicts;
    var live := Survivors(active);
    var x, y, id := live[i], live[j], PairId(live[i].id, live[j].id);
    var after := Tick(cfg, e, active).paradoxes;
    SurvivorsInRange(active);
    SurvivorsKnown(cfg, active);
    if Contradicts(cfg, x.id, y.id) && x.intensity > 0.1 && y.intensity > 0.1 {
      ContradictionsTracked(cfg, e, active, i, j);
      var p :| p in after && p.id == id;
      var k :| 0 <= k < |after| && after[k] == p;
      assert after[k].id == id;
    } else if Tracked(after, id) {
      var k :| 0 <= k < |after| && after[k].id == id;
      var a, b := BirthExactly(cfg, e, active, after[k]);
      PairIdInjective(a.id, b.id, x.id, y.id);
      SameMotif(live, a, x, y);
      SameMotif(live, b, x, y);
      ContradictsSymmetric(cfg, a.id, b.id);
    }
  }

  lemma SurvivorsKnown(cfg: Config, active: seq<Motif>)
    requires Known(cfg, active)
    ensures forall m <- Survivors(active) :: m.id in cfg.registry.taxonomy
  {
    forall m | m in Survivors(active) ensures m.id in cfg.registry.taxonomy {
      var decayed := seq(|active|, i requires 0 <= i < |active| => active[i].Decayed());
      var k :| 0 <= k < |decayed| && decayed[k] == m;
      assert active[k] in active;
    }
  }

  lemma SameMotif(live: seq<Motif>, m: Motif, x: Motif, y: Motif)
    requires UniqueIds(live) && m in live && x in live && y in live
    ensures m.id == x.id ==> m == x
    ensures m.id == y.id ==> m == y
  {}

  lemma ContradictsSymmetric(cfg: Config, a: string, b: string)
    ensures Contradicts(cfg, a, b) == Contradicts(cfg, b, a)
  {
    if a in cfg.registry.taxonomy && b in cfg.registry.taxonomy {
      RelationSymmetric(cfg.registry, a, b);
    }
  }

  // ---- events ----

  /**
   The events a tick logs are exactly those of the paradoxes that have emerged after it and had not
   before, each with the tick, the tension, the duration and the motifs of its paradox.
   */
  lemma NewEventsExactly(cfg: Config, e: Engine, active: seq<Motif>, ev: Event)
    requires Inv(cfg, e) && Known(cfg, active)
    ensures e.emergenceLog <= Tick(cfg, e, active).emergenceLog
    ensures ev in Tick(cfg, e, active).emergenceLog[|e.emergenceLog|..] <==>
              exists q :: q in Tick(cfg, e, active).paradoxes && NewlyEmerged(e, q) && Records(ev, q, e.tickCount + 1)
  {
    hide Detect, Survivors, Inv, Update, Enforce, Tension, Events, Score, Cleaned, Emerges;
    var live, tick := Survivors(active), e.tickCount + 1;
    var ps := Detect(cfg, e.paradoxes, live, tick);
    var enforced, after := Enforced(cfg, ps, live), Tick(cfg, e, active);
    SurvivorsInRange(active);
    DetectReady(cfg, e, live);
    EnforcedAdvanced(cfg, ps, live, e.emergenceLog, tick);
    DistinctEnforced(cfg, ps, enforced, tick);
    EventsSpec(cfg, enforced, tick);
    assert after.emergenceLog[|e.emergenceLog|..] == Events(cfg, enforced, tick);
    hide Tick, Enforced;
    if k :| 0 <= k < |enforced| && Emerges(cfg, enforced[k]) && ev == EventOf(enforced[k], tick) {
      var q := AfterEmergence(cfg, enforced[k]);
      EmergingKept(cfg, e, active, k);
      EmergenceNew(cfg, e, live, k);
      assert NewlyEmerged(e, q) && Records(ev, q, tick);
    }
    if q :| q in after.paradoxes && NewlyEmerged(e, q) && Records(ev, q, tick) {
      var k := KeptIndex(cfg, e, active, q);
      SameLife(cfg, ps[k], enforced[k], tick);
      UnemergedBefore(cfg, e, live, k, q);
      EmergedNow(cfg, enforced[k], ev, tick);
    }
  }

  ghost predicate NewlyEmerged(e: Engine, q: Paradox) {
    q.emerged && forall p <- e.paradoxes :: p.id == q.id ==> !p.emerged
  }

  predicate Records(ev: Event, q: Paradox, tick: nat) {
    ev == Event(q.id, tick, q.tension, q.duration, q.a.id, q.b.id)
  }

  lemma EmergedNow(cfg: Config, p: Paradox, ev: Event, tick: nat)
    requires !p.emerged && AfterEmergence(cfg, p).emerged && Records(ev, AfterEmergence(cfg, p), tick)
    ensures Emerges(cfg, p) && ev == EventOf(p, tick)
  {}

  lemma EmergingKept(cfg: Config, e: Engine, active: seq<Motif>, k: nat)
    requires var ps := Detect(cfg, e.paradoxes, Survivors(active), e.tickCount + 1);
             k < |ps| && Emerges(cfg, Enforced(cfg, ps, Survivors(active))[k])
    ensures var ps := Detect(cfg, e.paradoxes, Survivors(active), e.tickCount + 1);
            var q := AfterEmergence(cfg, Enforced(cfg, ps, Survivors(active))[k]);
            q in Tick(cfg, e, active).paradoxes && q.emerged
  {
    hide Detect, Survivors, Update, Enforce, Tick;
    UndeadIsKept(cfg, e, active, k);
  }

  /** A paradox about to emerge was not recorded as emerged by the engine before the tick. */
  lemma EmergenceNew(cfg: Config, e: Engine, live: seq<Motif>, k: nat)
    requires Inv(cfg, e) && forall m <- live :: m.InRange()
    requires var ps := Detect(cfg, e.paradoxes, live, e.tickCount + 1);
             k < |ps| && Emerges(cfg, Enforced(cfg, ps, live)[k])
    ensures var enforced := Enforced(cfg, Detect(cfg, e.paradoxes, live, e.tickCount + 1), live)[k];
            NewlyEmerged(e, AfterEmergence(cfg, enforced))
  {
    hide Detect, Inv, Tension, Update, Enforce;
    var ps := Detect(cfg, e.paradoxes, live, e.tickCount + 1);
    DetectReady(cfg, e, live);
    EnforcedAdvanced(cfg, ps, live, e.emergenceLog, e.tickCount + 1);
    var q := Enforced(cfg, ps, live)[k];
    SameLife(cfg, ps[k], q, e.tickCount + 1);
    assert Advanced(cfg, ps[k], q, e.tickCount + 1);
    forall p | p in e.paradoxes && p.id == q.id ensures !p.emerged {
      SameParadox(cfg, e, live, p, k);
    }
  }

  lemma UnemergedBefore(cfg: Config, e: Engine, live: seq<Motif>, k: nat, q: Paradox)
    requires Inv(cfg, e) && (forall m <- live :: m.InRange()) && NewlyEmerged(e, q)
    requires var ps := Detect(cfg, e.paradoxes, live, e.tickCount + 1);
             k < |ps| && ps[k].id == q.id
    ensures var ps := Detect(cfg, e.paradoxes, live, e.tickCount + 1);
            !ps[k].emerged && !Enforced(cfg, ps, live)[k].emerged
  {
    hide Detect, Inv, Tension, Update, Enforce;
    var ps := Detect(cfg, e.paradoxes, live, e.tickCount + 1);
    DetectReady(cfg, e, live);
    DetectKeeps(cfg, e.paradoxes, live, e.tickCount + 1);
    EnforcedAdvanced(cfg, ps, live, e.emergenceLog, e.tickCount + 1);
    assert Advanced(cfg, ps[k], Enforced(cfg, ps, live)[k], e.tickCount + 1);
    if k < |e.paradoxes| {
      assert ps[k] == e.paradoxes[k];
    } else {
      assert BornNow(cfg, live, ps[k], e.tickCount + 1);
    }
  }

  // ---- a held contradiction emerges ----

  /** Two contradictory motifs are among the survivors, with a product of intensities above 0.4. */
  ghost predicate HoldsPair(cfg: Config, live: seq<Motif>, x: string, y: string) {
    && Contradicts(cfg, x, y)
    && (exists i, j :: 0 <= i < |live| && 0 <= j < |live| && i != j && live[i].id == x && live[j].id == y)
    && (forall a <- live, b <- live :: a.id == x && b.id == y ==> Strong(a, b))
  }

  predicate Strong(a: Motif, b: Motif) {
    a.intensity * b.intensity > 0.4
  }

  predicate OfPair(p: Paradox, x: string, y: string) {
    p.id == PairId(x, y) && ((p.a.id == x && p.b.id == y) || (p.a.id == y && p.b.id == x))
  }

  ghost predicate HeldAt(cfg: Config, q: Paradox, x: string, y: string, age: nat) {
    OfPair(q, x, y) && q.Alive() && q.duration == age && q.tension > 0.2 && (q.emerged <==> age >= cfg.maturation)
  }

  lemma HeldAdvances(cfg: Config, p: Paradox, live: seq<Motif>, x: string, y: string)
    requires (forall m <- live :: m.InRange() && m.Alive()) && HoldsPair(cfg, live, x, y)
    requires OfPair(p, x, y) && p.a.InRange() && p.b.InRange() && (p.emerged <==> p.duration >= cfg.maturation)
    ensures HeldAt(cfg, Advance(cfg, p, live), x, y, p.duration + 1)
  {
    hide Tension, Balances, Advance, CopyAfter, Strong, Contradicts, PairId;
    var a, b := AdvanceExactly(cfg, p, live);
    var i, j :| 0 <= i < |live| && 0 <= j < |live| && i != j && live[i].id == x && live[j].id == y;
    assert live[i] in live && live[j] in live;
    CopyIsLive(p.a, live, a);
    CopyIsLive(p.b, live, b);
    ContradictsSymmetric(cfg, x, y);
    BirthIds(cfg, p, a, b, Advance(cfg, p, live), live);
    PairFelt(cfg, a, b, p.duration);
  }

  lemma CopyIsLive(m: Motif, live: seq<Motif>, x: Motif)
    requires CopyAfter(m, live, x) && exists l :: l in live && l.id == m.id
    ensures x in live && x.id == m.id
  {}

  lemma PairFelt(cfg: Config, a: Motif, b: Motif, duration: nat)
    requires Contradicts(cfg, a.id, b.id) && a.InRange() && b.InRange()
    requires Strong(a, b) || Strong(b, a)
    ensures Tension(cfg, a, b, duration) > 0.2
  {
    TensionBounds(cfg, a, b, duration);
    hide Tension;
  }

  lemma EachAboveTenth(a: Motif, b: Motif)
    requires a.InRange() && b.InRange() && Strong(a, b)
    ensures a.intensity > 0.1 && b.intensity > 0.1
  {
    var x, y := a.intensity, b.intensity;
    if x <= 0.1 {
      MulMonotone(y, x, 0.1);
    }
    if y <= 0.1 {
      MulMonotone(x, y, 0.1);
    }
  }

  /** The tick that first sees the pair gives it a paradox of age one. */
  lemma FirstHeld(cfg: Config, e: Engine, active: seq<Motif>, x: string, y: string) returns (q: Paradox)
    requires Inv(cfg, e) && Known(cfg, active) && PlainNames(cfg.registry)
    requires HoldsPair(cfg, Survivors(active), x, y) && !Tracked(e.paradoxes, PairId(x, y))
    ensures q in Tick(cfg, e, active).paradoxes && HeldAt(cfg, q, x, y, 1)
  {
    hide Detect, Survivors, Tick, Inv, Tension, Advance, PairId, Newborn;
    var live, tick := Survivors(active), e.tickCount + 1;
    var ps := Detect(cfg, e.paradoxes, live, tick);
    SurvivorsInRange(active);
    DetectReady(cfg, e, live);
    DetectKeeps(cfg, e.paradoxes, live, tick);
    PairDetected(cfg, e.paradoxes, live, x, y, tick);
    var k :| 0 <= k < |ps| && ps[k].id == PairId(x, y);
    NotTrackedIsNew(e.paradoxes, ps, k);
    NewbornIs(cfg, live, ps[k], tick);
    PairIdInjective(ps[k].a.id, ps[k].b.id, x, y);
    HeldAdvances(cfg, ps[k], live, x, y);
    UndeadIsKept(cfg, e, active, k);
    q := Advance(cfg, ps[k], live);
  }

  lemma NewbornIs(cfg: Config, live: seq<Motif>, p: Paradox, tick: nat)
    requires BornNow(cfg, live, p, tick)
    ensures p.duration == 0 && !p.emerged && p.a in live && p.b in live && p.id == PairId(p.a.id, p.b.id)
  {}

  lemma PairDetected(cfg: Config, ps: seq<Paradox>, live: seq<Motif>, x: string, y: string, tick: nat)
    requires (forall m <- live :: m.InRange()) && HoldsPair(cfg, live, x, y)
    ensures Tracked(Detect(cfg, ps, live, tick), PairId(x, y))
  {
    hide Detect;
    var i, j :| 0 <= i < |live| && 0 <= j < |live| && i != j && live[i].id == x && live[j].id == y;
    assert live[i] in live && live[j] in live;
    EachAboveTenth(live[i], live[j]);
    ContradictsSymmetric(cfg, x, y);
    PairIdSymmetric(x, y);
    if i < j {
      DetectsPair(cfg, ps, live, i, j, tick);
    } else {
      DetectsPair(cfg, ps, live, j, i, tick);
    }
  }

  /** Every further tick makes it one older. */
  lemma StillHeld(cfg: Config, e: Engine, active: seq<Motif>, p: Paradox, x: string, y: string) returns (q: Paradox)
    requires Inv(cfg, e) && Known(cfg, active) && HoldsPair(cfg, Survivors(active), x, y)
    requires p in e.paradoxes && HeldAt(cfg, p, x, y, p.duration)
    ensures q in Tick(cfg, e, active).paradoxes && HeldAt(cfg, q, x, y, p.duration + 1)
  {
    hide Survivors, Tick, Inv, Advance;
    SurvivorsInRange(active);
    InRangeTracked(cfg, e, p);
    HeldAdvances(cfg, p, Survivors(active), x, y);
    SuccessorKept(cfg, e, active, p);
    q := Advance(cfg, p, Survivors(active));
  }

  lemma {:induction false} HeldFor(cfg: Config, e: Engine, inputs: seq<seq<Motif>>, x: string, y: string)
      returns (q: Paradox)
    requires Inv(cfg, e) && PlainNames(cfg.registry) && !Tracked(e.paradoxes, PairId(x, y)) && inputs != []
    requires forall active <- inputs :: Known(cfg, active)
    requires forall t :: 0 <= t < |inputs| ==> HoldsPair(cfg, Survivors(inputs[t]), x, y)
    ensures q in Run(cfg, e, inputs).paradoxes && HeldAt(cfg, q, x, y, |inputs|)
  {
    hide Tick, Inv, HoldsPair, Survivors, PairId;
    var before, last := inputs[..|inputs| - 1], inputs[|inputs| - 1];
    assert last in inputs;
    RunKeeps(cfg, e, before);
    if before == [] {
      q := FirstHeld(cfg, e, last, x, y);
    } else {
      var p := HeldFor(cfg, e, before, x, y);
      q := StillHeld(cfg, Run(cfg, e, before), last, p, x, y);
    }
  }

  /** Nothing of the pair has emerged before the last of its first maturation ticks. */
  lemma {:induction false} UnemergedUntil(cfg: Config, e: Engine, inputs: seq<seq<Motif>>, x: string, y: string,
                                          p: Paradox)
    requires Inv(cfg, e) && PlainNames(cfg.registry) && !Tracked(e.paradoxes, PairId(x, y))
    requires forall active <- inputs :: Known(cfg, active)
    requires forall t :: 0 <= t < |inputs| ==> HoldsPair(cfg, Survivors(inputs[t]), x, y)
    requires |inputs| < cfg.maturation && p in Run(cfg, e, inputs).paradoxes && p.id == PairId(x, y)
    ensures !p.emerged
  {
    hide HoldsPair, Survivors, PairId, Tick;
    if inputs == [] {
      NoneTracked(e.paradoxes, PairId(x, y));
    } else {
      var q := HeldFor(cfg, e, inputs, x, y);
      RunKeeps(cfg, e, inputs);
      OnePerId(cfg, Run(cfg, e, inputs), p, q);
    }
  }

  lemma NoneTracked(ps: seq<Paradox>, id: string)
    requires !Tracked(ps, id)
    ensures forall p <- ps :: p.id != id
  {}

  lemma OnePerId(cfg: Config, e: Engine, p: Paradox, q: Paradox)
    requires Inv(cfg, e) && p in e.paradoxes && q in e.paradoxes && p.id == q.id
    ensures p == q
  {}

  predicate EventOfPair(cfg: Config, ev: Event, x: string, y: string, tick: nat) {
    ev.paradoxId == PairId(x, y) && ev.tick == tick && ev.duration == cfg.maturation && ev.tension > 0.2
    && ((ev.motifA == x && ev.motifB == y) || (ev.motifA == y && ev.motifB == x))
  }

  /**
   Emergence fires: whatever else happens, when two contradictory motifs of a pair not tracked so far
   survive the first maturation ticks with a product of intensities above 0.4, the last of those ticks
   logs an event of their pair, and the log keeps it.
   */
  lemma {:induction false} EmergenceFires(cfg: Config, e: Engine, inputs: seq<seq<Motif>>, x: string, y: string)
    requires Inv(cfg, e) && PlainNames(cfg.registry) && !Tracked(e.paradoxes, PairId(x, y))
    requires (forall active <- inputs :: Known(cfg, active)) && |inputs| >= cfg.maturation
    requires forall t :: 0 <= t < cfg.maturation ==> HoldsPair(cfg, Survivors(inputs[t]), x, y)
    ensures exists ev :: ev in Run(cfg, e, inputs).emergenceLog
                    && EventOfPair(cfg, ev, x, y, e.tickCount + cfg.maturation)
  {
    hide Tick, Inv, HoldsPair, Survivors, PairId, EventOfPair;
    var before, last := inputs[..|inputs| - 1], inputs[|inputs| - 1];
    if |inputs| > cfg.maturation {
      EmergenceFires(cfg, e, before, x, y);
      LogGrows(cfg, Run(cfg, e, before), last);
      var ev :| ev in Run(cfg, e, before).emergenceLog && EventOfPair(cfg, ev, x, y, e.tickCount + cfg.maturation);
      assert ev in Run(cfg, e, inputs).emergenceLog;
    } else {
      assert last in inputs;
      RunKeeps(cfg, e, before);
      var q := HeldFor(cfg, e, inputs, x, y);
      var earlier := Run(cfg, e, before);
      forall p | p in earlier.paradoxes && p.id == q.id ensures !p.emerged {
        UnemergedUntil(cfg, e, before, x, y, p);
      }
      var ev := Event(q.id, earlier.tickCount + 1, q.tension, q.duration, q.a.id, q.b.id);
      NewEventsExactly(cfg, earlier, last, ev);
      assert q in Tick(cfg, earlier, last).paradoxes && NewlyEmerged(earlier, q);
      assert Records(ev, q, earlier.tickCount + 1);
      var log := Run(cfg, e, inputs).emergenceLog;
      assert ev in log[|earlier.emergenceLog|..] && ev in log;
      EventIs(cfg, ev, q, x, y, e.tickCount + cfg.maturation);
    }
  }

  lemma EventIs(cfg: Config, ev: Event, q: Paradox, x: string, y: string, tick: nat)
    requires HeldAt(cfg, q, x, y, cfg.maturation) && Records(ev, q, tick)
    ensures EventOfPair(cfg, ev, x, y, tick)
  {}

  // ---- the score ----

  /** The sum over living paradoxes of tension times duration up to maturity. */
  function Weighed(cfg: Config, ps: seq<Paradox>): real {
    if ps == [] then 0.0
    else
      var p := ps[|ps| - 1];
      Weighed(cfg, ps[..|ps| - 1])
      + if p.a.intensity > 0.0 && p.b.intensity > 0.0
        then p.tension * (if p.duration < cfg.maturation then p.duration else cfg.maturation) as real
        else 0.0
  }

  function Living(ps: seq<Paradox>): nat {
    |Filter(ps, (p: Paradox) => p.a.intensity > 0.0 && p.b.intensity > 0.0)|
  }

  lemma {:induction false} ScoresCount(cfg: Config, ps: seq<Paradox>)
    ensures |Scores(cfg, ps)| == Living(ps) && Sum(Scores(cfg, ps)) == Weighed(cfg, ps)
  {
    if ps != [] {
      var n := |ps| - 1;
      ScoresCount(cfg, ps[..n]);
      assert ps == ps[..n] + [ps[n]];
      FilterAppend(ps[..n], ps[n], (p: Paradox) => p.a.intensity > 0.0 && p.b.intensity > 0.0);
      if ps[n].Alive() {
        var scores := Scores(cfg, ps[..n]);
        assert (scores + [Held(cfg, ps[n])])[..|scores|] == scores;
      } else {
        assert Scores(cfg, ps) == Scores(cfg, ps[..n]);
      }
    }
  }

  /** The score is the mean over the living paradoxes, 0 if there are none, and each tick records it. */
  lemma ScoreIsMean(cfg: Config, e: Engine, active: seq<Motif>)
    ensures var after := Tick(cfg, e, active);
            && |after.tensionHistory| == |e.tensionHistory| + 1 && e.tensionHistory <= after.tensionHistory
            && var score := after.tensionHistory[|e.tensionHistory|];
            && (Living(after.paradoxes) == 0 ==> score == 0.0)
            && score * Living(after.paradoxes) as real == Weighed(cfg, after.paradoxes)
    ensures Tick(cfg, e, active).tickCount == e.tickCount + 1
  {
    hide Enforced, Detect, Survivors, Events, Living, Weighed, Sum, Cleaned, Scores;
    var kept := Tick(cfg, e, active).paradoxes;
    ScoresCount(cfg, kept);
    EmptySums(cfg, kept);
    if Scores(cfg, kept) != [] {
      QuotientTimes(Sum(Scores(cfg, kept)), |Scores(cfg, kept)| as real);
    }
  }

  lemma EmptySums(cfg: Config, ps: seq<Paradox>)
    ensures Scores(cfg, ps) == [] ==> Sum(Scores(cfg, ps)) == 0.0
  {}

  // ---- order ----

  /** Survivors keep their order, each less its decay rate; whoever has no more than that is gone. */
  lemma SurvivorsInOrder(active: seq<Motif>, m: Motif)
    ensures Survivors([]) == []
    ensures Survivors(active + [m]) == Survivors(active)
              + if m.intensity > m.decayRate then [m.(intensity := m.intensity - m.decayRate)] else []
  {
    var more := active + [m];
    var decayed := seq(|active|, i requires 0 <= i < |active| => active[i].Decayed());
    var all := seq(|more|, i requires 0 <= i < |more| => more[i].Decayed());
    assert all == decayed + [m.Decayed()];
    FilterAppend(decayed, m.Decayed(), MotifAlive);
  }

  /** Cleaning keeps the order of the paradoxes that have a living copy. */
  lemma CleanedInOrder(ps: seq<Paradox>, p: Paradox)
    ensures Cleaned(ps + [p])
         == Cleaned(ps) + if p.a.intensity > 0.0 || p.b.intensity > 0.0 then [p] else []
  {
    FilterAppend(ps, p, Remembered);
  }

  /** Where a newborn comes from: the motifs at two places of the list, the earlier one as A. */
  ghost predicate FromPlaces(live: seq<Motif>, p: Paradox, i: nat, j: nat) {
    i < j < |live| && p.a == live[i] && p.b == live[j]
  }

  ghost predicate BornInRow(live: seq<Motif>, i: nat, end: nat, before: seq<Paradox>, after: seq<Paradox>) {
    && before <= after
    && (forall k :: |before| <= k < |after| ==> InRow(live, i, end, after[k]))
    && (forall k, l :: |before| <= k < l < |after| ==> EarlierInRow(live, i, after[k], after[l]))
  }

  ghost predicate InRow(live: seq<Motif>, i: nat, end: nat, p: Paradox) {
    exists j: nat :: j < end && FromPlaces(live, p, i, j)
  }

  ghost predicate EarlierInRow(live: seq<Motif>, i: nat, p: Paradox, q: Paradox) {
    exists j: nat, j': nat :: j < j' && FromPlaces(live, p, i, j) && FromPlaces(live, q, i, j')
  }

  lemma {:induction false} RowInOrder(cfg: Config, ps: seq<Paradox>, live: seq<Motif>, i: nat, end: nat, tick: nat)
    requires i < |live| && end <= |live|
    ensures BornInRow(live, i, end, ps, DetectRow(cfg, ps, live, i, end, tick))
  {
    hide Detectable, Tension, InRow, EarlierInRow;
    if end > i + 1 {
      RowInOrder(cfg, ps, live, i, end - 1, tick);
      var row := DetectRow(cfg, ps, live, i, end - 1, tick);
      var after := DetectRow(cfg, ps, live, i, end, tick);
      assert ps <= row <= after;
      forall k | |ps| <= k < |after| ensures InRow(live, i, end, after[k]) {
        if k < |row| {
          assert after[k] == row[k];
          InLongerRow(live, i, end - 1, row[k]);
        } else {
          LastOfRow(live, i, end - 1, after[k]);
        }
      }
      forall k, l | |ps| <= k < l < |after| ensures EarlierInRow(live, i, after[k], after[l]) {
        assert after[k] == row[k];
        if l < |row| {
          assert after[l] == row[l];
        } else {
          EarlierThanLast(live, i, end - 1, after[k], after[l]);
        }
      }
    }
  }

  lemma InLongerRow(live: seq<Motif>, i: nat, end: nat, p: Paradox)
    requires InRow(live, i, end, p)
    ensures InRow(live, i, end + 1, p)
  {}

  lemma LastOfRow(live: seq<Motif>, i: nat, j: nat, p: Paradox)
    requires i < j < |live| && p.a == live[i] && p.b == live[j]
    ensures InRow(live, i, j + 1, p)
  {
    assert FromPlaces(live, p, i, j);
  }

  lemma EarlierThanLast(live: seq<Motif>, i: nat, end: nat, p: Paradox, q: Paradox)
    requires InRow(live, i, end, p) && i < end < |live| && q.a == live[i] && q.b == live[end]
    ensures EarlierInRow(live, i, p, q)
  {
    var j: nat :| j < end && FromPlaces(live, p, i, j);
    assert FromPlaces(live, q, i, end);
  }

  ghost predicate Earlier(live: seq<Motif>, p: Paradox, q: Paradox) {
    exists i: nat, j: nat, i': nat, j': nat ::
      FromPlaces(live, p, i, j) && FromPlaces(live, q, i', j') && (i < i' || (i == i' && j < j'))
  }

  ghost predicate BornBelow(live: seq<Motif>, n: nat, p: Paradox) {
    exists i: nat, j: nat :: i < n && FromPlaces(live, p, i, j)
  }

  /** Newborns are tracked in the order of the pairs (0,1), (0,2), ..., (1,2), ... of the list. */
  lemma {:induction false} RowsInOrder(cfg: Config, ps: seq<Paradox>, live: seq<Motif>, n: nat, tick: nat)
    requires n <= |live|
    ensures var after := DetectRows(cfg, ps, live, n, tick);
            && ps <= after
            && (forall k :: |ps| <= k < |after| ==> BornBelow(live, n, after[k]))
            && (forall k, l :: |ps| <= k < l < |after| ==> Earlier(live, after[k], after[l]))
  {
    hide DetectRow;
    if n > 0 {
      var rows := DetectRows(cfg, ps, live, n - 1, tick);
      var after := DetectRows(cfg, ps, live, n, tick);
      RowsInOrder(cfg, ps, live, n - 1, tick);
      RowInOrder(cfg, rows, live, n - 1, |live|, tick);
      forall k | |ps| <= k < |after| ensures BornBelow(live, n, after[k]) {
        BornSomewhere(live, ps, rows, after, n, k);
      }
      forall k, l | |ps| <= k < l < |after| ensures Earlier(live, after[k], after[l]) {
        if l < |rows| {
          assert after[k] == rows[k] && after[l] == rows[l];
        } else if k < |rows| {
          assert after[k] == rows[k];
          var i: nat, j: nat :| i < n - 1 && FromPlaces(live, rows[k], i, j);
          assert InRow(live, n - 1, |live|, after[l]);
          var j': nat :| j' < |live| && FromPlaces(live, after[l], n - 1, j');
          assert FromPlaces(live, after[k], i, j);
        } else {
          assert EarlierInRow(live, n - 1, after[k], after[l]);
        }
      }
    }
  }

  lemma BornSomewhere(live: seq<Motif>, ps: seq<Paradox>, rows: seq<Paradox>, after: seq<Paradox>, n: nat, k: nat)
    requires 0 < n <= |live| && |ps| <= k < |after|
    requires BornInRow(live, n - 1, |live|, rows, after)
    requires forall l :: |ps| <= l < |rows| ==> BornBelow(live, n - 1, rows[l])
    ensures BornBelow(live, n, after[k])
  {
    if k < |rows| {
      assert after[k] == rows[k];
      var i: nat, j: nat :| i < n - 1 && FromPlaces(live, rows[k], i, j);
      assert FromPlaces(live, after[k], i, j);
    } else {
      assert InRow(live, n - 1, |live|, after[k]);
    }
  }
}
