/** Exactly when a run without activations ends in an empty engine. */
module ParadoxForgetting {
  import opened Reals
  import opened Registry
  import opened ParadoxModel
  import opened ParadoxBounds
  import opened ParadoxRuns
  import opened ParadoxLives
  import opened ParadoxQuiescence

  /** Decay rates are those of the taxonomy, as activation sets them. */
  ghost predicate FromTaxonomy(cfg: Config, m: Motif) {
    m.id in cfg.registry.taxonomy && m.decayRate == cfg.registry.taxonomy[m.id].decayRate
  }

  ghost predicate ByName(cfg: Config, e: Engine, live: seq<Motif>) {
    && (forall m <- live :: FromTaxonomy(cfg, m))
    && (forall p <- e.paradoxes :: FromTaxonomy(cfg, p.a) && FromTaxonomy(cfg, p.b))
  }

  ghost predicate Decays(m: Motif) {
    m.Alive() ==> m.decayRate > 0.0
  }

  ghost predicate AllDecay(e: Engine, live: seq<Motif>) {
    && (forall m <- live :: Decays(m))
    && (forall p <- e.paradoxes :: Decays(p.a) && Decays(p.b))
  }

  ghost predicate Forgets(cfg: Config, e: Engine, live: seq<Motif>) {
    exists n: nat :: Drift(live, n) == [] && QuietRun(cfg, e, live, n).paradoxes == []
  }

  // ---- a common decay rate ----

  lemma FadesLess(m: Motif, d: real, d': real)
    requires Fades(m, d) && d' <= d
    ensures Fades(m, d')
  {}

  lemma {:induction false} CommonRate(motifs: seq<Motif>) returns (d: real)
    requires forall m <- motifs :: m.InRange() && Decays(m)
    ensures d > 0.0 && forall m <- motifs :: Fades(m, d)
  {
    if motifs == [] {
      d := 1.0;
    } else {
      var init, last := motifs[..|motifs| - 1], motifs[|motifs| - 1];
      assert motifs == init + [last] && last in motifs;
      var rest := CommonRate(init);
      d := if last.Alive() then RealMin(rest, last.decayRate) else rest;
      forall m <- motifs ensures Fades(m, d) {
        if m in init {
          FadesLess(m, rest, d);
        }
      }
    }
  }

  function Copies(ps: seq<Paradox>): (r: seq<Motif>)
    ensures forall p <- ps :: p.a in r && p.b in r
    ensures forall m <- r :: exists p :: p in ps && (m == p.a || m == p.b)
  {
    if ps == [] then []
    else
      assert ps == ps[..|ps| - 1] + [ps[|ps| - 1]];
      Copies(ps[..|ps| - 1]) + [ps[|ps| - 1].a, ps[|ps| - 1].b]
  }

  lemma DecayForgets(cfg: Config, e: Engine, live: seq<Motif>)
    requires Inv(cfg, e) && Known(cfg, live) && AllDecay(e, live)
    ensures Forgets(cfg, e, live)
  {
    hide Tick, Memory, QuietRun, Drift;
    var d := CommonRate(live + Copies(e.paradoxes));
    Quiescence(cfg, e, live, d, Memory(d));
  }

  // ---- a motif that never decays ----

  /** A living copy whose motif never decays. */
  ghost predicate Permanent(cfg: Config, m: Motif) {
    FromTaxonomy(cfg, m) && m.Alive() && m.decayRate == 0.0
  }

  ghost predicate HoldsPermanent(cfg: Config, p: Paradox) {
    Permanent(cfg, p.a) || Permanent(cfg, p.b)
  }

  lemma RefreshedPermanent(cfg: Config, m: Motif, live: seq<Motif>)
    requires Permanent(cfg, m) && forall l <- live :: FromTaxonomy(cfg, l) && l.Alive()
    ensures Permanent(cfg, Refreshed(m, live))
  {}

  lemma AdvancePermanent(cfg: Config, p: Paradox, live: seq<Motif>)
    requires forall l <- live :: FromTaxonomy(cfg, l) && l.Alive() && l.InRange()
    requires p.a.InRange() && p.b.InRange() && HoldsPermanent(cfg, p)
    ensures HoldsPermanent(cfg, Advance(cfg, p, live)) && !Advance(cfg, p, live).Dead()
  {
    hide Enforce, Tension, Refreshed, FromTaxonomy;
    if Permanent(cfg, p.a) {
      RefreshedPermanent(cfg, p.a, live);
    } else {
      RefreshedPermanent(cfg, p.b, live);
    }
    RefreshedInRange(p.a, live);
    RefreshedInRange(p.b, live);
    var updated := Update(cfg, p, live);
    EnforceBounds(cfg, updated);
    PersistedPermanent(cfg, updated, Enforce(cfg, updated));
  }

  lemma PersistedPermanent(cfg: Config, p: Paradox, q: Paradox)
    requires Persisted(p, q) && HoldsPermanent(cfg, p)
    ensures HoldsPermanent(cfg, q)
  {}

  lemma TickPermanent(cfg: Config, e: Engine, active: seq<Motif>, p: Paradox) returns (q: Paradox)
    requires Inv(cfg, e) && Known(cfg, active) && forall m <- active :: FromTaxonomy(cfg, m)
    requires p in e.paradoxes && HoldsPermanent(cfg, p)
    ensures q in Tick(cfg, e, active).paradoxes && HoldsPermanent(cfg, q)
  {
    hide Tick, Update, Enforce, AfterEmergence, Survivors, HoldsPermanent, Newborn, Contradicts;
    var live, tick := Survivors(active), e.tickCount + 1;
    var k :| 0 <= k < |e.paradoxes| && e.paradoxes[k] == p;
    RowsExtend(cfg, e.paradoxes, live, |live|, tick);
    SurvivorsInRange(active);
    SurvivorsByName(cfg, active);
    AdvancePermanent(cfg, p, live);
    UndeadIsKept(cfg, e, active, k);
    q := Advance(cfg, p, live);
  }

  lemma SurvivorsByName(cfg: Config, active: seq<Motif>)
    requires forall m <- active :: FromTaxonomy(cfg, m)
    ensures forall m <- Survivors(active) :: FromTaxonomy(cfg, m)
  {
    forall m <- Survivors(active) ensures FromTaxonomy(cfg, m) {
      SurvivorsExact(active, m);
    }
  }

  lemma {:induction false} DriftByName(cfg: Config, live: seq<Motif>, n: nat)
    requires forall m <- live :: FromTaxonomy(cfg, m)
    ensures forall m <- Drift(live, n) :: FromTaxonomy(cfg, m)
  {
    if n > 0 {
      DriftByName(cfg, live, n - 1);
      SurvivorsByName(cfg, Drift(live, n - 1));
    }
  }

  lemma {:induction false} PermanentStays(cfg: Config, e: Engine, live: seq<Motif>, p: Paradox, n: nat)
      returns (q: Paradox)
    requires Inv(cfg, e) && Known(cfg, live) && forall m <- live :: FromTaxonomy(cfg, m)
    requires p in e.paradoxes && HoldsPermanent(cfg, p)
    ensures q in QuietRun(cfg, e, live, n).paradoxes && HoldsPermanent(cfg, q)
  {
    hide Tick, Inv, HoldsPermanent, FromTaxonomy, Known, Survivors;
    if n == 0 {
      q := p;
    } else {
      var before := PermanentStays(cfg, e, live, p, n - 1);
      QuietRunKeeps(cfg, e, live, n - 1);
      DriftByName(cfg, live, n - 1);
      q := TickPermanent(cfg, QuietRun(cfg, e, live, n - 1), Drift(live, n - 1), before);
    }
  }

  lemma LiveStays(live: seq<Motif>, m: Motif, n: nat)
    requires forall l <- live :: l.InRange()
    requires m in live && m.Alive() && m.decayRate == 0.0
    ensures m in Drift(live, n)
  {
    if n > 0 {
      DriftExact(live, n, m);
      assert m == Lost(m, n);
    }
  }

  /**
   Without activations the engine forgets everything if and only if every motif still alive,
   live or copied, has a positive decay rate. One permanent motif is enough to keep a paradox.
   */
  lemma ForgetsExactly(cfg: Config, e: Engine, live: seq<Motif>)
    requires Inv(cfg, e) && Known(cfg, live) && ByName(cfg, e, live)
    ensures Forgets(cfg, e, live) <==> AllDecay(e, live)
  {
    hide Inv, QuietRun, Drift, Memory;
    if AllDecay(e, live) {
      DecayForgets(cfg, e, live);
    } else {
      forall n: nat | Drift(live, n) == [] ensures QuietRun(cfg, e, live, n).paradoxes != [] {
        if m :| m in live && !Decays(m) {
          LiveStays(live, m, n);
        } else {
          var p :| p in e.paradoxes && !(Decays(p.a) && Decays(p.b));
          InvInRange(cfg, e, p);
          var q := PermanentStays(cfg, e, live, p, n);
        }
      }
    }
  }

  lemma InvInRange(cfg: Config, e: Engine, p: Paradox)
    requires Inv(cfg, e) && p in e.paradoxes
    ensures p.a.InRange() && p.b.InRange()
  {}
}
