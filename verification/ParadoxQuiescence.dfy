/**
 Runs in which nothing is activated: the live motifs only decay, and the engine forgets every
 paradox after a bounded number of ticks, although it keeps boosting the copies it holds.
 */
module ParadoxQuiescence {
  import opened Wrappers
  import opened Reals
  import opened Registry
  import opened ParadoxModel
  import opened ParadoxBounds
  import opened ParadoxRuns

  /** Boosting cannot hold a copy above this level once its partner is below it. */
  const FLOOR: real := 1.5 * EPSILON

  function Drift(live: seq<Motif>, n: nat): seq<Motif> {
    if n == 0 then live else Survivors(Drift(live, n - 1))
  }

  function QuietRun(cfg: Config, e: Engine, live: seq<Motif>, n: nat): Engine {
    if n == 0 then e else Tick(cfg, QuietRun(cfg, e, live, n - 1), Drift(live, n - 1))
  }

  // ---- live motifs only decay ----

  function Lost(m: Motif, n: nat): Motif {
    m.(intensity := m.intensity - n as real * m.decayRate)
  }

  /** After n ticks an untouched motif has lost exactly n times its decay rate: the engine never raises it. */
  lemma {:induction false} DriftExact(live: seq<Motif>, n: nat, m: Motif)
    requires forall l <- live :: l.InRange()
    requires n > 0
    ensures m in Drift(live, n) <==> m.Alive() && exists l :: l in live && m == Lost(l, n)
  {
    hide Lost, Survivors;
    if n == 1 {
      SurvivorsExact(live, m);
    } else {
      var before := Drift(live, n - 1);
      SurvivorsExact(before, m);
      if l :| l in before && m == Lost(l, 1) && m.Alive() {
        DriftExact(live, n - 1, l);
        var first :| first in live && l == Lost(first, n - 1);
        LostStep(first, n);
      }
      if first :| first in live && m == Lost(first, n) && m.Alive() {
        LostStep(first, n);
        LostAlive(first, n);
        DriftExact(live, n - 1, Lost(first, n - 1));
      }
    }
  }

  lemma LostStep(m: Motif, n: nat)
    requires n > 0
    ensures Lost(m, n) == Lost(Lost(m, n - 1), 1)
  {
    OneMore(n, m.decayRate);
  }

  lemma LostAlive(m: Motif, n: nat)
    requires n > 0 && m.InRange() && Lost(m, n).Alive()
    ensures Lost(m, n - 1).Alive()
  {
    LostStep(m, n);
  }

  lemma SurvivorsExact(live: seq<Motif>, m: Motif)
    ensures m in Survivors(live) <==> m.Alive() && exists l :: l in live && m == Lost(l, 1)
    ensures m in Survivors(live) ==> exists l :: l in live && m == l.Decayed()
  {
    var decayed := seq(|live|, i requires 0 <= i < |live| => live[i].Decayed());
    if m in Survivors(live) {
      var i :| 0 <= i < |decayed| && decayed[i] == m;
      assert live[i] in live && m == Lost(live[i], 1);
    }
    if l :| l in live && m == Lost(l, 1) && m.Alive() {
      var i :| 0 <= i < |live| && live[i] == l;
      assert decayed[i] == m;
    }
  }

  lemma {:induction false} DriftInRange(live: seq<Motif>, n: nat)
    requires forall l <- live :: l.InRange()
    ensures forall l <- Drift(live, n) :: l.InRange()
  {
    if n > 0 {
      DriftInRange(live, n - 1);
      SurvivorsInRange(Drift(live, n - 1));
    }
  }

  lemma {:induction false} QuietRunKeeps(cfg: Config, e: Engine, live: seq<Motif>, n: nat)
    requires Inv(cfg, e) && Known(cfg, live)
    ensures Inv(cfg, QuietRun(cfg, e, live, n)) && Known(cfg, Drift(live, n))
  {
    hide Inv, Tick;
    if n > 0 {
      QuietRunKeeps(cfg, e, live, n - 1);
      TickKeeps(cfg, QuietRun(cfg, e, live, n - 1), Drift(live, n - 1));
      DriftKnown(cfg, Drift(live, n - 1));
    }
  }

  lemma DriftKnown(cfg: Config, live: seq<Motif>)
    requires Known(cfg, live)
    ensures Known(cfg, Survivors(live))
  {
    SurvivorsInRange(live);
    forall m <- Survivors(live) ensures m.id in cfg.registry.taxonomy {
      SurvivorsExact(live, m);
    }
  }

  // ---- what a tick does to each paradox it keeps ----

  /** Everything a tick keeps comes from an old paradox or a pair of live motifs, advanced. */
  ghost predicate From(cfg: Config, e: Engine, live: seq<Motif>, p: Paradox, q: Paradox) {
    && q == Advance(cfg, p, live) && !q.Dead()
    && (p in e.paradoxes || (p.a in live && p.b in live))
  }

  lemma TickOrigin(cfg: Config, e: Engine, active: seq<Motif>, q: Paradox) returns (p: Paradox)
    requires q in Tick(cfg, e, active).paradoxes
    ensures From(cfg, e, Survivors(active), p, q)
  {
    hide Advance, Survivors, Events, Score, Newborn, Contradicts, Update, Enforce, AfterEmergence;
    var live, tick := Survivors(active), e.tickCount + 1;
    var ps := Detect(cfg, e.paradoxes, live, tick);
    var settled := Settled(cfg, Enforced(cfg, ps, live));
    var k :| 0 <= k < |settled| && settled[k] == q;
    p := ps[k];
    RowsExtend(cfg, e.paradoxes, live, |live|, tick);
    AdvanceIs(cfg, ps, live, k);
    if k < |e.paradoxes| {
      assert p == e.paradoxes[k];
    }
  }

  lemma AdvanceIs(cfg: Config, ps: seq<Paradox>, live: seq<Motif>, k: nat)
    requires k < |ps|
    ensures Settled(cfg, Enforced(cfg, ps, live))[k] == Advance(cfg, ps[k], live)
  {
    hide Update, Enforce, AfterEmergence;
  }

  // ---- fading ----

  /** A motif that loses at least d each tick while it is alive. */
  ghost predicate Fades(m: Motif, d: real) {
    m.InRange() && (m.Alive() ==> m.decayRate >= d)
  }

  /** Live motifs are at most level, copies at most the larger of level and the floor. */
  ghost predicate Fading(e: Engine, live: seq<Motif>, d: real, level: real) {
    && (forall m <- live :: Fades(m, d) && m.intensity <= level)
    && (forall p <- e.paradoxes ::
          Fades(p.a, d) && Fades(p.b, d) && p.Strongest() <= RealMax(level, FLOOR))
  }

  /** One level down. */
  function Lower(level: real, d: real): real {
    RealMax(0.0, level - d)
  }

  lemma SurvivorsFade(live: seq<Motif>, d: real, level: real)
    requires d > 0.0 && forall m <- live :: Fades(m, d) && m.intensity <= level
    ensures forall m <- Survivors(live) :: Fades(m, d) && m.intensity <= Lower(level, d)
  {
    forall m <- Survivors(live) ensures Fades(m, d) && m.intensity <= Lower(level, d) {
      SurvivorsExact(live, m);
    }
  }

  lemma RefreshedFades(m: Motif, live: seq<Motif>, d: real, level: real)
    requires d > 0.0 && level >= 0.0
    requires Fades(m, d) && m.intensity <= RealMax(level, FLOOR)
    requires forall l <- live :: Fades(l, d) && l.intensity <= Lower(level, d)
    ensures Fades(Refreshed(m, live), d)
    ensures Refreshed(m, live).intensity <= RealMax(Lower(level, d), FLOOR)
  {}

  /** Persistence does not lift the strongest copy above the floor, nor B when A is below it. */
  lemma PersistenceHolds(p: Paradox, q: Paradox, d: real, level: real)
    requires Persisted(p, q) && Fades(p.a, d) && Fades(p.b, d) && level >= FLOOR
    requires p.Strongest() <= level
    ensures Fades(q.a, d) && Fades(q.b, d) && q.Strongest() <= level
  {}

  lemma AdvanceFades(cfg: Config, p: Paradox, live: seq<Motif>, d: real, level: real)
    requires d > 0.0 && level >= 0.0
    requires Fades(p.a, d) && Fades(p.b, d) && p.Strongest() <= RealMax(level, FLOOR)
    requires forall l <- live :: Fades(l, d) && l.intensity <= Lower(level, d)
    ensures var q := Advance(cfg, p, live);
            Fades(q.a, d) && Fades(q.b, d) && q.Strongest() <= RealMax(Lower(level, d), FLOOR)
  {
    hide Enforce, Tension, Refreshed;
    RefreshedFades(p.a, live, d, level);
    RefreshedFades(p.b, live, d, level);
    var updated := Update(cfg, p, live);
    EnforceBounds(cfg, updated);
    PersistenceHolds(updated, Enforce(cfg, updated), d, RealMax(Lower(level, d), FLOOR));
  }

  /** Each tick lowers the level by d, down to the floor for the copies. */
  lemma TickFades(cfg: Config, e: Engine, live: seq<Motif>, d: real, level: real)
    requires d > 0.0 && level >= 0.0 && Fading(e, live, d, level)
    ensures Fading(Tick(cfg, e, live), Survivors(live), d, Lower(level, d))
  {
    hide Tick, Survivors, Advance;
    SurvivorsFade(live, d, level);
    forall q <- Tick(cfg, e, live).paradoxes
      ensures Fades(q.a, d) && Fades(q.b, d) && q.Strongest() <= RealMax(Lower(level, d), FLOOR)
    {
      var p := TickOrigin(cfg, e, live, q);
      AdvanceFades(cfg, p, Survivors(live), d, level);
    }
  }

  /** The level after k ticks. */
  function Level(start: real, d: real, k: nat): (r: real)
    requires start >= 0.0
    ensures r >= 0.0
  {
    if k == 0 then start else Lower(Level(start, d, k - 1), d)
  }

  lemma {:induction false} LevelExact(start: real, d: real, k: nat)
    requires start >= 0.0 && d > 0.0
    ensures Level(start, d, k) == RealMax(0.0, start - k as real * d)
  {
    hide Lower;
    if k > 0 {
      LevelExact(start, d, k - 1);
      OneMore(k, d);
      LowerOnce(start, (k - 1) as real * d, d, Level(start, d, k - 1));
    }
  }

  lemma LowerOnce(start: real, lost: real, d: real, level: real)
    requires d > 0.0 && (level == 0.0 >= start - lost || level == start - lost >= 0.0)
    ensures var lower := Lower(level, d);
            lower == 0.0 >= start - lost - d || lower == start - lost - d >= 0.0
  {}

  lemma LevelReachesZero(start: real, d: real, k: nat)
    requires start >= 0.0 && d > 0.0 && Covers(k, d, start)
    ensures Level(start, d, k) == 0.0
    ensures start > 0.0 ==> k > 0
  {
    LevelExact(start, d, k);
  }

  lemma {:induction false} QuietFades(cfg: Config, e: Engine, live: seq<Motif>, d: real, k: nat)
    requires d > 0.0 && Fading(e, live, d, 1.0)
    ensures Fading(QuietRun(cfg, e, live, k), Drift(live, k), d, Level(1.0, d, k))
  {
    hide Tick, Survivors, Fading, Lower;
    if k > 0 {
      QuietFades(cfg, e, live, d, k - 1);
      TickFades(cfg, QuietRun(cfg, e, live, k - 1), Drift(live, k - 1), d, Level(1.0, d, k - 1));
    }
  }

  lemma {:induction false} RunSplits(cfg: Config, e: Engine, live: seq<Motif>, n: nat, k: nat)
    ensures QuietRun(cfg, e, live, n + k) == QuietRun(cfg, QuietRun(cfg, e, live, n), Drift(live, n), k)
    ensures Drift(live, n + k) == Drift(Drift(live, n), k)
  {
    hide Tick, Survivors;
    if k > 0 {
      RunSplits(cfg, e, live, n, k - 1);
    }
  }

  // ---- below the floor ----

  /** With A below the floor, persistence never raises B. */
  lemma WeakNotRaised(cfg: Config, p: Paradox)
    requires p.a.InRange() && p.b.InRange() && p.a.intensity <= FLOOR
    ensures Enforce(cfg, p).b.intensity <= p.b.intensity
  {
    if p.Alive() {
      hide Ratio, BoostFactor, Motif.Boosted;
      RatioBelowFloor(p.a, p.b);
      BoostShrinks(p.b, Ratio(p.a, p.b));
      if Enforce(cfg, p).b != p.b {
        assert Enforce(cfg, p).b == p.b.Boosted(BoostFactor(Ratio(p.a, p.b)));
      }
    }
  }

  lemma RatioBelowFloor(a: Motif, b: Motif)
    requires a.Alive() && b.Alive() && a.intensity <= FLOOR
    ensures Ratio(a, b) <= 1.5
  {
    QuotientBounds(a.intensity, b.intensity + EPSILON, 1.5);
  }

  lemma BoostShrinks(m: Motif, dominance: real)
    requires m.intensity >= 0.0 && dominance <= 1.5
    ensures m.Boosted(BoostFactor(dominance)).intensity <= m.intensity
  {
    CappedShrinks(m.intensity, BoostFactor(dominance));
  }

  /** Every copy is below the floor; the A copies are at most limitA, the B copies at most limitB. */
  ghost predicate Sinking(e: Engine, d: real, limitA: real, limitB: real) {
    forall p <- e.paradoxes ::
      Fades(p.a, d) && Fades(p.b, d) && p.Strongest() <= FLOOR
      && p.a.intensity <= limitA && p.b.intensity <= limitB
  }

  lemma NoLiveUpdate(cfg: Config, p: Paradox)
    ensures var q := Update(cfg, p, []);
            q.a == p.a.Decayed() && q.b == p.b.Decayed()
  {
    hide Tension;
  }

  /** B sinks at every tick; A sinks once every B is dead. */
  lemma AdvanceSinks(cfg: Config, p: Paradox, d: real, limitA: real, limitB: real)
    requires d > 0.0 && limitA >= 0.0 && limitB >= 0.0
    requires Fades(p.a, d) && Fades(p.b, d) && p.Strongest() <= FLOOR
    requires p.a.intensity <= limitA && p.b.intensity <= limitB
    ensures var q := Advance(cfg, p, []);
            && Fades(q.a, d) && Fades(q.b, d) && q.Strongest() <= FLOOR
            && q.b.intensity <= Lower(limitB, d)
            && (limitB == 0.0 ==> q.a.intensity <= Lower(limitA, d))
  {
    hide Update, Tension, Ratio, BoostFactor;
    var updated := Update(cfg, p, []);
    NoLiveUpdate(cfg, p);
    EnforceBounds(cfg, updated);
    PersistenceHolds(updated, Enforce(cfg, updated), d, FLOOR);
    WeakNotRaised(cfg, updated);
  }

  lemma TickSinks(cfg: Config, e: Engine, d: real, limitA: real, limitB: real)
    requires d > 0.0 && limitA >= 0.0 && limitB >= 0.0 && Sinking(e, d, limitA, limitB)
    ensures Sinking(Tick(cfg, e, []), d, if limitB == 0.0 then Lower(limitA, d) else FLOOR, Lower(limitB, d))
  {
    hide Tick, Advance;
    assert Survivors([]) == [];
    forall q <- Tick(cfg, e, []).paradoxes
      ensures Fades(q.a, d) && Fades(q.b, d) && q.Strongest() <= FLOOR
      ensures q.b.intensity <= Lower(limitB, d)
      ensures limitB == 0.0 ==> q.a.intensity <= Lower(limitA, d)
    {
      var p := TickOrigin(cfg, e, [], q);
      AdvanceSinks(cfg, p, d, limitA, limitB);
    }
  }

  lemma {:induction false} DriftNothing(n: nat)
    ensures Drift([], n) == []
  {
    if n > 0 {
      DriftNothing(n - 1);
      assert Survivors([]) == [];
    }
  }

  lemma {:induction false} BSinks(cfg: Config, e: Engine, d: real, k: nat)
    requires d > 0.0 && Sinking(e, d, FLOOR, FLOOR)
    ensures Sinking(QuietRun(cfg, e, [], k), d, FLOOR, Level(FLOOR, d, k))
  {
    hide Tick;
    if k > 0 {
      BSinks(cfg, e, d, k - 1);
      DriftNothing(k - 1);
      TickSinks(cfg, QuietRun(cfg, e, [], k - 1), d, FLOOR, Level(FLOOR, d, k - 1));
    }
  }

  lemma {:induction false} ASinks(cfg: Config, e: Engine, d: real, k: nat)
    requires d > 0.0 && Sinking(e, d, FLOOR, 0.0)
    ensures Sinking(QuietRun(cfg, e, [], k), d, Level(FLOOR, d, k), 0.0)
  {
    hide Tick;
    if k > 0 {
      ASinks(cfg, e, d, k - 1);
      DriftNothing(k - 1);
      TickSinks(cfg, QuietRun(cfg, e, [], k - 1), d, Level(FLOOR, d, k - 1), 0.0);
    }
  }

  // ---- quiescence ----

  ghost predicate Quiet(cfg: Config, e: Engine) {
    e.paradoxes == [] && Score(cfg, e.paradoxes) == 0.0
  }

  lemma QuietTick(cfg: Config, e: Engine)
    requires e.paradoxes == []
    ensures Quiet(cfg, Tick(cfg, e, []))
    ensures var history := Tick(cfg, e, []).tensionHistory;
            |history| > 0 && history[|history| - 1] == 0.0
  {
    hide Update, Enforce, Emerges, Newborn;
    assert Survivors([]) == [];
    assert Enforced(cfg, [], []) == [];
    assert Settled(cfg, []) == [];
  }

  lemma {:induction false} QuietStays(cfg: Config, e: Engine, n: nat)
    requires e.paradoxes == []
    ensures Quiet(cfg, QuietRun(cfg, e, [], n))
    ensures n > 0 ==> var history := QuietRun(cfg, e, [], n).tensionHistory;
                      |history| > 0 && history[|history| - 1] == 0.0
  {
    hide Tick;
    if n > 0 {
      QuietStays(cfg, e, n - 1);
      DriftNothing(n - 1);
      QuietTick(cfg, QuietRun(cfg, e, [], n - 1));
    }
  }

  /** When the level is zero no motif is live any more and every copy is at most the floor. */
  lemma AfterFirstPhase(cfg: Config, e: Engine, live: seq<Motif>, d: real, n: nat)
    requires d > 0.0 && Fading(e, live, d, 1.0)
    requires Covers(n, d, 1.0)
    ensures Drift(live, n) == []
    ensures Sinking(QuietRun(cfg, e, live, n), d, FLOOR, FLOOR)
  {
    hide Tick, QuietRun, Covers;
    QuietFades(cfg, e, live, d, n);
    LevelReachesZero(1.0, d, n);
    DriftInRange(live, n - 1);
    SurvivorsInRange(Drift(live, n - 1));
    assert forall m <- Drift(live, n) :: m.Alive();
    HeadIn(Drift(live, n));
  }

  /** How long the engine can remember: the motifs fade, then each side of what is left. */
  function Memory(d: real): nat
    requires d > 0.0
  {
    Steps(1.0, d) + 2 * Steps(FLOOR, d)
  }

  lemma StartsFading(cfg: Config, e: Engine, live: seq<Motif>, d: real)
    requires Inv(cfg, e) && Known(cfg, live)
    requires forall m <- live :: Fades(m, d)
    requires forall p <- e.paradoxes :: Fades(p.a, d) && Fades(p.b, d)
    ensures Fading(e, live, d, 1.0)
  {}

  /**
   Boosting cannot keep a paradox alive. If every motif that is still alive, live or copied, loses
   at least d > 0 per tick, then without new activations the engine is empty, with score zero,
   after Memory(d) ticks, whatever the block ratio, and stays so.
   */
  lemma Quiescence(cfg: Config, e: Engine, live: seq<Motif>, d: real, n: nat)
    requires Inv(cfg, e) && Known(cfg, live) && d > 0.0
    requires forall m <- live :: Fades(m, d)
    requires forall p <- e.paradoxes :: Fades(p.a, d) && Fades(p.b, d)
    requires n >= Memory(d)
    ensures Drift(live, n) == [] && Quiet(cfg, QuietRun(cfg, e, live, n))
  {
    hide Tick, Inv, Sinking, Quiet, Fading, Fades, Steps, Covers, QuietRun, Drift;
    var first, second := Steps(1.0, d), Steps(FLOOR, d);
    StartsFading(cfg, e, live, d);
    AfterFirstPhase(cfg, e, live, d, first);
    RunSplits(cfg, e, live, first, n - first);
    QuietRunKeeps(cfg, e, live, first);
    EmptyAfterSinking(cfg, QuietRun(cfg, e, live, first), d, second, n - first);
    DriftNothing(n - first);
  }

  lemma EmptyAfterSinking(cfg: Config, e: Engine, d: real, k: nat, n: nat)
    requires Inv(cfg, e) && d > 0.0 && Sinking(e, d, FLOOR, FLOOR)
    requires Covers(k, d, FLOOR) && n >= 2 * k
    ensures Quiet(cfg, QuietRun(cfg, e, [], n))
  {
    hide Tick, Inv, Sinking, Quiet, Drift, Covers;
    BSinks(cfg, e, d, k);
    LevelReachesZero(FLOOR, d, k);
    var e1 := QuietRun(cfg, e, [], k);
    ASinks(cfg, e1, d, k);
    var e2 := QuietRun(cfg, e1, [], k);
    DriftNothing(k);
    RunSplits(cfg, e, [], k, k);
    QuietRunKeeps(cfg, e, [], 2 * k);
    SunkIsEmpty(cfg, e2, d);
    DriftNothing(2 * k);
    RunSplits(cfg, e, [], 2 * k, n - 2 * k);
    QuietStays(cfg, e2, n - 2 * k);
  }

  lemma SunkIsEmpty(cfg: Config, e: Engine, d: real)
    requires Inv(cfg, e) && Sinking(e, d, 0.0, 0.0)
    ensures e.paradoxes == []
  {
    HeadIn(e.paradoxes);
  }

  /** With decay of at least the floor per tick, one tick after the motifs have faded is enough. */
  lemma FastQuiescence(cfg: Config, e: Engine, live: seq<Motif>, d: real, n: nat)
    requires Inv(cfg, e) && Known(cfg, live) && d >= FLOOR
    requires forall m <- live :: Fades(m, d)
    requires forall p <- e.paradoxes :: Fades(p.a, d) && Fades(p.b, d)
    requires n > Steps(1.0, d)
    ensures Drift(live, n) == [] && Quiet(cfg, QuietRun(cfg, e, live, n))
  {
    hide Tick, Inv, Sinking, Quiet, Fading, Fades, Steps, Covers, Survivors;
    var first := Steps(1.0, d);
    StartsFading(cfg, e, live, d);
    AfterFirstPhase(cfg, e, live, d, first);
    DriftNothing(1);
    RunSplits(cfg, e, live, first, n - first);
    DriftNothing(n - first);
    var faded := QuietRun(cfg, e, live, first);
    FloorDies(cfg, faded, d);
    RunSplits(cfg, faded, [], 1, n - first - 1);
    QuietStays(cfg, Tick(cfg, faded, []), n - first - 1);
  }

  lemma FloorDies(cfg: Config, e: Engine, d: real)
    requires d >= FLOOR && Sinking(e, d, FLOOR, FLOOR)
    ensures Tick(cfg, e, []).paradoxes == []
  {
    hide Tick, Update, Enforce, AfterEmergence;
    assert Survivors([]) == [];
    forall q | q in Tick(cfg, e, []).paradoxes ensures false {
      var p := TickOrigin(cfg, e, [], q);
      NoLiveUpdate(cfg, p);
      DeadStaysDead(cfg, Update(cfg, p, []));
    }
    HeadIn(Tick(cfg, e, []).paradoxes);
  }

  lemma DeadStaysDead(cfg: Config, p: Paradox)
    ensures p.Dead() ==> AfterEmergence(cfg, Enforce(cfg, p)).Dead()
  {}
}
