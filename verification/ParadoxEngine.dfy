/**
 The engine's own objects: motifs, paradoxes holding copies of motifs, and the engine that
 updates them in place (paradox-engine/models.py and paradox-engine/engine.py). Each method is
 proved against ParadoxModel; no copy the engine holds is ever one of the live motifs.
 */
module ParadoxEngine {
  import opened Wrappers
  import opened Registry
  import M = ParadoxModel

  class MotifState {
    const id: string
    const decayRate: real
    const vector: Vector
    var intensity: real

    constructor (m: M.Motif)
      ensures Value() == m
    {
      id, decayRate, vector, intensity := m.id, m.decayRate, m.vector, m.intensity;
    }

    function Value(): M.Motif
      reads this
    {
      M.Motif(id, intensity, decayRate, vector)
    }

    predicate IsAlive()
      reads this
      ensures IsAlive() == M.MotifAlive(Value())
    {
      intensity > 0.0
    }

    method Decay()
      modifies this
      ensures Value() == old(Value()).Decayed()
    {
      intensity := if intensity - decayRate >= 0.0 then intensity - decayRate else 0.0;
    }

    method Boost(factor: real)
      modifies this
      ensures Value() == old(Value()).Boosted(factor)
    {
      intensity := if intensity * factor <= 1.0 then intensity * factor else 1.0;
    }

    method Copy() returns (copy: MotifState)
      ensures fresh(copy) && copy.Value() == Value()
    {
      copy := new MotifState(Value());
    }
  }

  ghost function MotifValues(ms: seq<MotifState>): (r: seq<M.Motif>)
    reads ms
    ensures |r| == |ms| && forall i :: 0 <= i < |ms| ==> r[i] == ms[i].Value()
  {
    seq(|ms|, i requires 0 <= i < |ms| reads ms => ms[i].Value())
  }

  class ParadoxState {
    const id: string
    const birthTick: nat
    var motifA: MotifState
    var motifB: MotifState
    var tension: real
    var duration: nat
    var resolutionBlocked: bool
    var emerged: bool
    var peakTension: real
    var maturationCandidate: bool

    ghost function Footprint(): set<object>
      reads this
    {
      {this, motifA, motifB}
    }

    /** The two copies are separate objects and the id names their pair. */
    ghost predicate Valid()
      reads this
    {
      motifA != motifB && id == PairId(motifA.id, motifB.id)
    }

    function Value(): M.Paradox
      reads this, motifA, motifB
    {
      M.Paradox(id, motifA.Value(), motifB.Value(), tension, duration, resolutionBlocked,
        emerged, birthTick, peakTension, maturationCandidate)
    }

    constructor (p: M.Paradox, a: MotifState, b: MotifState)
      requires a != b && a.Value() == p.a && b.Value() == p.b && p.id == PairId(p.a.id, p.b.id)
      ensures Value() == p && Valid() && motifA == a && motifB == b
    {
      id, birthTick, motifA, motifB := p.id, p.birthTick, a, b;
      tension, duration, resolutionBlocked, emerged := p.tension, p.duration, p.resolutionBlocked, p.emerged;
      peakTension, maturationCandidate := p.peakTension, p.maturationCandidate;
    }

    predicate IsAlive()
      reads this, motifA, motifB
    {
      motifA.intensity > 0.0 && motifB.intensity > 0.0
    }

    predicate Remembered()
      reads this, motifA, motifB
      ensures Remembered() == M.Remembered(Value())
    {
      motifA.intensity > 0.0 || motifB.intensity > 0.0
    }

    /** Refresh or decay the two copies; nothing else changes. */
    method RefreshMotifs(motifs: seq<MotifState>)
      requires Valid() && Footprint() !! set m | m in motifs
      modifies this`motifA, this`motifB, motifA, motifB
      ensures Valid() && (motifA == old(motifA) || fresh(motifA)) && (motifB == old(motifB) || fresh(motifB))
      ensures Value() == M.RefreshedPair(old(Value()), old(MotifValues(motifs)))
    {
      var a := LookupMotif(motifs, motifA.id);
      var b := LookupMotif(motifs, motifB.id);
      if a.Some? {
        motifA := a.value.Copy();
      } else {
        motifA.Decay();
      }
      if b.Some? {
        motifB := b.value.Copy();
      } else {
        motifB.Decay();
      }
    }

    method Sustain(cfg: M.Config, newTension: real)
      modifies this
      ensures motifA == old(motifA) && motifB == old(motifB)
      ensures Value() == M.Sustained(cfg, old(Value()), newTension)
    {
      tension := newTension;
      duration := duration + 1;
      if peakTension < tension {
        peakTension := tension;
      }
      if duration >= cfg.maturation && tension > 0.2 {
        maturationCandidate := true;
      }
    }

    /** Boost the dominated copy, if there is one. */
    method Enforce(cfg: M.Config)
      requires Valid()
      modifies this`resolutionBlocked, motifA, motifB
      ensures Valid() && motifA == old(motifA) && motifB == old(motifB)
      ensures Value() == M.Enforce(cfg, old(Value()))
    {
      if !IsAlive() {
        return;
      }
      var ratio := M.Ratio(motifA.Value(), motifB.Value());
      if ratio > cfg.blockRatio {
        motifB.Boost(M.BoostFactor(ratio));
        resolutionBlocked := true;
      } else if 1.0 / ratio > cfg.blockRatio {
        motifA.Boost(M.BoostFactor(1.0 / ratio));
        resolutionBlocked := true;
      } else {
        resolutionBlocked := false;
      }
    }
  }

  /** The last motif with that id, as in a dictionary built from the list. */
  method LookupMotif(motifs: seq<MotifState>, id: string) returns (found: Option<MotifState>)
    ensures found.Some? ==> found.value in motifs
    ensures M.Lookup(MotifValues(motifs), id)
         == if found.Some? then Some(found.value.Value()) else None
  {
    found := None;
    for i := 0 to |motifs|
      invariant found.Some? ==> found.value in motifs
      invariant M.Lookup(MotifValues(motifs)[..i], id)
             == if found.Some? then Some(found.value.Value()) else None
    {
      assert MotifValues(motifs)[..i + 1][..i] == MotifValues(motifs)[..i];
      if motifs[i].id == id {
        found := Some(motifs[i]);
      }
    }
    assert MotifValues(motifs)[..|motifs|] == MotifValues(motifs);
  }

  // ---- the engine ----

  /** Every paradox and copy is in repr, and no object is used twice. */
  ghost predicate Owns(repr: set<object>, ps: seq<ParadoxState>)
    reads repr
  {
    && (forall k :: 0 <= k < |ps| ==>
          ps[k] in repr && ps[k].motifA in repr && ps[k].motifB in repr && ps[k].Valid())
    && (forall i, j :: 0 <= i < |ps| && 0 <= j < |ps| && i != j ==>
          && ps[i] != ps[j] && ps[i].motifA != ps[j].motifA
          && ps[i].motifA != ps[j].motifB && ps[i].motifB != ps[j].motifB)
  }

  lemma OwnsAt(repr: set<object>, ps: seq<ParadoxState>, i: nat)
    requires Owns(repr, ps) && i < |ps|
    ensures ps[i] in repr && ps[i].motifA in repr && ps[i].motifB in repr
  {}

  ghost function Values(repr: set<object>, ps: seq<ParadoxState>): (r: seq<M.Paradox>)
    requires Owns(repr, ps)
    reads repr
    ensures |r| == |ps| && forall i :: 0 <= i < |ps| ==> r[i] == ps[i].Value()
  {
    seq(|ps|, i requires 0 <= i < |ps| && Owns(repr, ps) reads repr => ps[i].Value())
  }

  ghost predicate DistinctNames(ps: seq<ParadoxState>) {
    forall i, j :: 0 <= i < j < |ps| ==> ps[i].id != ps[j].id
  }

  ghost predicate DistinctObjects(ms: seq<MotifState>) {
    forall i, j :: 0 <= i < j < |ms| ==> ms[i] != ms[j]
  }

  method DecayAll(motifs: seq<MotifState>)
    requires DistinctObjects(motifs)
    modifies motifs
    ensures forall m <- motifs :: m.Value() == old(m.Value()).Decayed()
  {
    for i := 0 to |motifs|
      invariant forall k :: 0 <= k < i ==> motifs[k].Value() == old(motifs[k].Value()).Decayed()
      invariant forall k :: i <= k < |motifs| ==> motifs[k].Value() == old(motifs[k].Value())
    {
      motifs[i].Decay();
    }
  }

  method KeepAlive(motifs: seq<MotifState>) returns (live: seq<MotifState>)
    requires DistinctObjects(motifs)
    ensures MotifValues(live) == Filter(MotifValues(motifs), M.MotifAlive)
    ensures PicksFrom(live, motifs)
  {
    hide MotifState.Value, M.MotifAlive, Filter;
    live := [];
    ghost var values := MotifValues(motifs);
    FilterStart(values, M.MotifAlive);
    for i := 0 to |motifs|
      invariant MotifValues(live) == Filter(values[..i], M.MotifAlive)
      invariant PicksFrom(live, motifs[..i])
    {
      FilterNext(values, i, M.MotifAlive);
      PicksMore(live, motifs, i);
      if motifs[i].IsAlive() {
        MotifValuesAppend(live, motifs[i]);
        live := live + [motifs[i]];
      }
    }
    assert values[..|motifs|] == values;
    assert motifs[..|motifs|] == motifs;
  }

  ghost predicate PicksFrom(live: seq<MotifState>, motifs: seq<MotifState>) {
    DistinctObjects(live) && forall k :: 0 <= k < |live| ==> live[k] in motifs
  }

  lemma PicksMore(live: seq<MotifState>, motifs: seq<MotifState>, i: nat)
    requires i < |motifs| && DistinctObjects(motifs) && PicksFrom(live, motifs[..i])
    ensures PicksFrom(live, motifs[..i + 1])
    ensures PicksFrom(live + [motifs[i]], motifs[..i + 1])
  {
    assert motifs[..i + 1] == motifs[..i] + [motifs[i]];
    assert motifs[i] !in motifs[..i];
  }

  lemma MotifValuesAppend(ms: seq<MotifState>, m: MotifState)
    ensures MotifValues(ms + [m]) == MotifValues(ms) + [m.Value()]
  {}

  class ParadoxEngine {
    const cfg: M.Config
    var activeParadoxes: seq<ParadoxState>
    var tickCount: nat
    var tensionHistory: seq<real>
    var emergenceLog: seq<M.Event>
    ghost var Repr: set<object>

    /** Every copy belongs to one paradox, and no id is tracked twice. */
    ghost predicate Valid()
      reads this, Repr
    {
      this !in Repr && Owns(Repr, activeParadoxes) && DistinctNames(activeParadoxes)
    }

    ghost function Model(): M.Engine
      requires Valid()
      reads this, Repr
    {
      M.Engine(Values(Repr, activeParadoxes), tickCount, tensionHistory, emergenceLog)
    }

    constructor (cfg: M.Config)
      ensures Valid() && this.cfg == cfg && Model() == M.Initial && Repr == {}
    {
      this.cfg := cfg;
      activeParadoxes, tickCount, tensionHistory, emergenceLog := [], 0, [], [];
      Repr := {};
    }

    /** The tension of two motifs, looking up how long their paradox has lasted. */
    method ComputeTension(a: M.Motif, b: M.Motif) returns (tension: real)
      requires DistinctNames(activeParadoxes)
      ensures forall p <- activeParadoxes :: p.id == PairId(a.id, b.id) ==>
                tension == M.Tension(cfg, a, b, p.duration)
      ensures (forall p <- activeParadoxes :: p.id != PairId(a.id, b.id)) ==>
                tension == M.Tension(cfg, a, b, 0)
    {
      var id, duration: nat := PairId(a.id, b.id), 0;
      for i := 0 to |activeParadoxes|
        invariant forall k :: 0 <= k < i && activeParadoxes[k].id == id ==> duration == activeParadoxes[k].duration
        invariant (forall k :: 0 <= k < i ==> activeParadoxes[k].id != id) ==> duration == 0
      {
        if activeParadoxes[i].id == id {
          duration := activeParadoxes[i].duration;
        }
      }
      tension := M.Tension(cfg, a, b, duration);
    }

    /** Start tracking a paradox on copies of its two motifs. */
    method Track(p: M.Paradox, a: MotifState, b: MotifState)
      requires Valid() && a !in Repr && b !in Repr
      requires p.a == a.Value() && p.b == b.Value() && p.id == PairId(a.id, b.id)
      requires forall k :: 0 <= k < |activeParadoxes| ==> activeParadoxes[k].id != p.id
      modifies this
      ensures Valid() && fresh(Repr - old(Repr)) && old(Repr) <= Repr
      ensures Values(Repr, activeParadoxes) == old(Values(Repr, activeParadoxes)) + [p]
      ensures tickCount == old(tickCount) && tensionHistory == old(tensionHistory)
           && emergenceLog == old(emergenceLog)
    {
      hide PairId;
      var copyA := a.Copy();
      var copyB := b.Copy();
      var tracked := new ParadoxState(p, copyA, copyB);
      OwnsMore(Repr, activeParadoxes, tracked);
      activeParadoxes := activeParadoxes + [tracked];
      Repr := Repr + {tracked, copyA, copyB};
    }

    /** Track the pair if it is a new, strong contradiction, on copies of the two motifs. */
    method DetectPair(a: MotifState, b: MotifState)
      requires Valid() && a !in Repr && b !in Repr
      requires a.id in cfg.registry.taxonomy && b.id in cfg.registry.taxonomy
      modifies this
      ensures Valid() && fresh(Repr - old(Repr)) && old(Repr) <= Repr
      ensures Values(Repr, activeParadoxes)
           == M.DetectPair(cfg, old(Values(Repr, activeParadoxes)), a.Value(), b.Value(), tickCount)
      ensures tickCount == old(tickCount) && tensionHistory == old(tensionHistory)
           && emergenceLog == old(emergenceLog)
    {
      hide M.Tension, PairId, GetRelation;
      var id := PairId(a.id, b.id);
      TrackedNames(Repr, activeParadoxes, id);
      if exists k :: 0 <= k < |activeParadoxes| && activeParadoxes[k].id == id {
        return;
      }
      if GetRelation(cfg.registry, a.id, b.id) == Contradictory && a.intensity > 0.1 && b.intensity > 0.1 {
        var tension := ComputeTension(a.Value(), b.Value());
        Track(M.Paradox(id, a.Value(), b.Value(), tension, 0, true, false, tickCount, tension, false), a, b);
      }
    }

    /** Phase 2: every pair of motifs, in the order of combinations(motifs, 2). */
    method DetectNewParadoxes(motifs: seq<MotifState>)
      requires Valid() && Repr !! set m | m in motifs
      requires forall m <- motifs :: m.id in cfg.registry.taxonomy
      modifies this
      ensures Valid() && fresh(Repr - old(Repr)) && old(Repr) <= Repr
      ensures Values(Repr, activeParadoxes)
           == M.Detect(cfg, old(Values(Repr, activeParadoxes)), MotifValues(motifs), tickCount)
      ensures tickCount == old(tickCount) && tensionHistory == old(tensionHistory)
           && emergenceLog == old(emergenceLog)
    {
      hide Owns, M.DetectPair, MotifState.Value, ParadoxState.Value;
      ghost var live, before, tick := MotifValues(motifs), Values(Repr, activeParadoxes), tickCount;
      for i := 0 to |motifs|
        invariant Valid() && fresh(Repr - old(Repr)) && old(Repr) <= Repr
        invariant tickCount == tick && tensionHistory == old(tensionHistory) && emergenceLog == old(emergenceLog)
        invariant Values(Repr, activeParadoxes) == M.DetectRows(cfg, before, live, i, tick)
      {
        ghost var row := Values(Repr, activeParadoxes);
        for j := i + 1 to |motifs|
          invariant Valid() && fresh(Repr - old(Repr)) && old(Repr) <= Repr
          invariant tickCount == tick && tensionHistory == old(tensionHistory) && emergenceLog == old(emergenceLog)
          invariant Values(Repr, activeParadoxes) == M.DetectRow(cfg, row, live, i, j, tick)
        {
          DetectPair(motifs[i], motifs[j]);
        }
      }
    }

    method UpdateParadox(p: ParadoxState, motifs: seq<MotifState>)
      requires DistinctNames(activeParadoxes) && p in activeParadoxes
      requires p.Valid() && p.Footprint() !! set m | m in motifs
      modifies p, p.motifA, p.motifB
      ensures p.Valid()
      ensures (p.motifA == old(p.motifA) || fresh(p.motifA)) && (p.motifB == old(p.motifB) || fresh(p.motifB))
      ensures p.Value() == M.Update(cfg, old(p.Value()), old(MotifValues(motifs)))
    {
      hide M.Tension, M.RefreshedPair, M.Sustained;
      p.RefreshMotifs(motifs);
      if p.IsAlive() {
        var tension := ComputeTension(p.motifA.Value(), p.motifB.Value());
        p.Sustain(cfg, tension);
      }
    }

    method UpdateAt(i: nat, motifs: seq<MotifState>)
      requires Valid() && i < |activeParadoxes| && Repr !! set m | m in motifs
      modifies `Repr, activeParadoxes[i], activeParadoxes[i].motifA, activeParadoxes[i].motifB
      ensures Valid() && fresh(Repr - old(Repr))
      ensures activeParadoxes[i].Value() == M.Update(cfg, old(activeParadoxes[i].Value()), old(MotifValues(motifs)))
      ensures forall k :: 0 <= k < |activeParadoxes| && k != i ==>
                activeParadoxes[k].Value() == old(activeParadoxes[k].Value())
    {
      hide M.Update, ParadoxState.Value;
      UpdateParadox(activeParadoxes[i], motifs);
      Repr := Repr + {activeParadoxes[i].motifA, activeParadoxes[i].motifB};
    }

    /** Phase 3: every tracked paradox takes in the live motifs, or decays without them. */
    method UpdateParadoxes(motifs: seq<MotifState>)
      requires Valid() && Repr !! set m | m in motifs
      modifies `Repr, Repr
      ensures Valid() && fresh(Repr - old(Repr))
      ensures var before := old(Values(Repr, activeParadoxes));
              |activeParadoxes| == |before|
              && forall k :: 0 <= k < |before| ==>
                   activeParadoxes[k].Value() == M.Update(cfg, before[k], old(MotifValues(motifs)))
    {
      hide M.Update, ParadoxState.Value, Owns;
      var ps := activeParadoxes;
      ghost var live, before := MotifValues(motifs), Values(Repr, ps);
      for i := 0 to |ps|
        invariant activeParadoxes == ps && Valid() && fresh(Repr - old(Repr))
        invariant MotifValues(motifs) == live
        invariant forall k :: 0 <= k < i ==> ps[k].Value() == M.Update(cfg, before[k], live)
        invariant forall k :: i <= k < |ps| ==> ps[k].Value() == before[k]
      {
        OwnsAt(Repr, ps, i);
        UpdateAt(i, motifs);
      }
    }

    /** Phase 4: boost every dominated copy. */
    method EnforceParadoxPersistence()
      requires Valid()
      modifies Repr
      ensures Valid()
      ensures var before := old(Values(Repr, activeParadoxes));
              |activeParadoxes| == |before|
              && forall k :: 0 <= k < |before| ==>
                   activeParadoxes[k].Value() == M.Enforce(cfg, before[k])
    {
      hide M.Enforce, ParadoxState.Value;
      var ps := activeParadoxes;
      ghost var before := Values(Repr, ps);
      for i := 0 to |ps|
        invariant activeParadoxes == ps && Owns(Repr, ps)
        invariant forall k :: 0 <= k < i ==> ps[k].Value() == M.Enforce(cfg, before[k])
        invariant forall k :: i <= k < |ps| ==> ps[k].Value() == before[k]
      {
        ps[i].Enforce(cfg);
      }
    }

    method EmergeAt(i: nat)
      requires Valid() && i < |activeParadoxes|
      modifies activeParadoxes[i], `emergenceLog
      ensures Valid()
      ensures activeParadoxes[i].Value() == M.AfterEmergence(cfg, old(activeParadoxes[i].Value()))
      ensures forall k :: 0 <= k < |activeParadoxes| && k != i ==>
                activeParadoxes[k].Value() == old(activeParadoxes[k].Value())
      ensures emergenceLog == old(emergenceLog)
                + if M.Emerges(cfg, old(activeParadoxes[i].Value()))
                  then [M.EventOf(old(activeParadoxes[i].Value()), tickCount)] else []
    {
      var p := activeParadoxes[i];
      if p.maturationCandidate && !p.emerged
         && p.duration >= cfg.maturation && p.tension > 0.2 && p.IsAlive() {
        p.emerged := true;
        emergenceLog := emergenceLog
          + [M.Event(p.id, tickCount, p.tension, p.duration, p.motifA.id, p.motifB.id)];
      }
    }

    /** Phase 5: log the paradoxes that emerge now. */
    method CheckEmergence()
      requires Valid()
      modifies `emergenceLog, Repr
      ensures Valid()
      ensures var before := old(Values(Repr, activeParadoxes));
              |activeParadoxes| == |before|
              && (forall k :: 0 <= k < |before| ==> activeParadoxes[k].Value() == M.AfterEmergence(cfg, before[k]))
              && emergenceLog == old(emergenceLog) + M.Events(cfg, before, tickCount)
    {
      hide M.AfterEmergence, M.Emerges, M.EventOf, ParadoxState.Value, Owns;
      var ps := activeParadoxes;
      ghost var before := Values(Repr, ps);
      for i := 0 to |ps|
        invariant activeParadoxes == ps && Valid()
        invariant forall k :: 0 <= k < i ==> ps[k].Value() == M.AfterEmergence(cfg, before[k])
        invariant forall k :: i <= k < |ps| ==> ps[k].Value() == before[k]
        invariant emergenceLog == old(emergenceLog) + M.Events(cfg, before[..i], tickCount)
      {
        OwnsAt(Repr, ps, i);
        assert before[..i + 1][..i] == before[..i];
        EmergeAt(i);
      }
      assert before[..|ps|] == before;
    }

    /** Phase 6: forget the paradoxes whose two copies are both dead. */
    method CleanDeadParadoxes()
      requires Valid()
      modifies `activeParadoxes
      ensures Valid()
      ensures Values(Repr, activeParadoxes) == M.Cleaned(old(Values(Repr, activeParadoxes)))
    {
      hide ParadoxState.Value, Owns, Filter, M.Remembered;
      var ps := activeParadoxes;
      ghost var before := Values(Repr, ps);
      FilterStart(before, M.Remembered);
      var kept: seq<ParadoxState> := [];
      PicksOwn(Repr, kept, ps);
      for i := 0 to |ps|
        invariant Picks(kept, ps[..i]) && Owns(Repr, kept)
        invariant Values(Repr, kept) == Filter(before[..i], M.Remembered)
      {
        FilterNext(before, i, M.Remembered);
        KeepsOwning(Repr, kept, ps, i);
        if ps[i].Remembered() {
          kept := kept + [ps[i]];
        }
      }
      assert before[..|ps|] == before && ps[..|ps|] == ps;
      activeParadoxes := kept;
    }

    method LivingScores() returns (scores: seq<real>)
      requires Valid()
      ensures scores == M.Scores(cfg, Values(Repr, activeParadoxes))
    {
      hide M.Held;
      scores := [];
      ghost var values := Values(Repr, activeParadoxes);
      for i := 0 to |activeParadoxes|
        invariant scores == M.Scores(cfg, values[..i])
      {
        assert values[..i + 1][..i] == values[..i];
        if activeParadoxes[i].IsAlive() {
          scores := scores + [M.Held(cfg, activeParadoxes[i].Value())];
        }
      }
      assert values[..|activeParadoxes|] == values;
    }

    /** The mean of tension times capped duration over the living paradoxes, zero if there is none. */
    method GetParadoxScore() returns (score: real)
      requires Valid()
      ensures score == M.Score(cfg, Values(Repr, activeParadoxes))
    {
      hide M.Scores;
      var scores := LivingScores();
      var total := 0.0;
      for i := 0 to |scores|
        invariant total == M.Sum(scores[..i])
      {
        assert scores[..i + 1][..i] == scores[..i];
        total := total + scores[i];
      }
      assert scores[..|scores|] == scores;
      score := if scores == [] then 0.0 else total / |scores| as real;
    }

    /** Phases 2 to 5 on the motifs that survived the decay. */
    method Advance(live: seq<MotifState>)
      requires Valid() && Repr !! set m | m in live
      requires forall m <- live :: m.id in cfg.registry.taxonomy
      modifies this, Repr
      ensures Valid() && fresh(Repr - old(Repr))
      ensures var ps := M.Detect(cfg, old(Values(Repr, activeParadoxes)), old(MotifValues(live)), tickCount);
              var enforced := M.Enforced(cfg, ps, old(MotifValues(live)));
              && Values(Repr, activeParadoxes) == M.Settled(cfg, enforced)
              && emergenceLog == old(emergenceLog) + M.Events(cfg, enforced, tickCount)
      ensures tickCount == old(tickCount) && tensionHistory == old(tensionHistory)
    {
      hide Owns, M.Detect, M.Update, M.Enforce, M.AfterEmergence, M.Events, ParadoxState.Value;
      ghost var motifs := MotifValues(live);
      DetectNewParadoxes(live);
      ghost var ps := Values(Repr, activeParadoxes);
      UpdateParadoxes(live);
      ghost var updated := Values(Repr, activeParadoxes);
      EnforceParadoxPersistence();
      ghost var enforced := Values(Repr, activeParadoxes);
      assert enforced == M.Enforced(cfg, ps, motifs);
      CheckEmergence();
      assert Values(Repr, activeParadoxes) == M.Settled(cfg, enforced);
    }

    /** What follows detection of the living motifs: every phase, cleaning, and the score of what is left. */
    method Conclude(live: seq<MotifState>)
      requires Valid() && Repr !! set m | m in live
      requires forall m <- live :: m.id in cfg.registry.taxonomy
      modifies this, Repr
      ensures Valid() && fresh(Repr - old(Repr))
      ensures var ps := M.Detect(cfg, old(Values(Repr, activeParadoxes)), old(MotifValues(live)), tickCount);
              var enforced := M.Enforced(cfg, ps, old(MotifValues(live)));
              var kept := M.Cleaned(M.Settled(cfg, enforced));
              && Values(Repr, activeParadoxes) == kept
              && emergenceLog == old(emergenceLog) + M.Events(cfg, enforced, tickCount)
              && tensionHistory == old(tensionHistory) + [M.Score(cfg, kept)]
      ensures tickCount == old(tickCount)
    {
      hide Owns, M.Detect, M.Events, M.Score, M.Cleaned, Filter, M.Enforced, M.Settled, ParadoxState.Value;
      Advance(live);
      CleanDeadParadoxes();
      var score := GetParadoxScore();
      tensionHistory := tensionHistory + [score];
    }

    /**
     One clock tick. The engine's state follows the model; the motifs handed in only decay, because
     the engine works on copies that are never among them.
     */
    method Tick(motifs: seq<MotifState>) returns (live: seq<MotifState>)
      requires Valid() && Repr !! set m | m in motifs
      requires DistinctObjects(motifs) && forall m <- motifs :: m.id in cfg.registry.taxonomy
      modifies this, Repr, motifs
      ensures Valid() && fresh(Repr - old(Repr)) && Repr !! set m | m in motifs
      ensures Model() == M.Tick(cfg, old(Model()), old(MotifValues(motifs)))
      ensures forall m <- motifs :: m.Value() == old(m.Value()).Decayed()
      ensures PicksFrom(live, motifs) && MotifValues(live) == M.Survivors(old(MotifValues(motifs)))
    {
      hide Owns, M.Detect, M.Events, M.Score, M.Cleaned, Filter, M.Enforced, M.Settled, ParadoxState.Value;
      hide M.Survivors, DistinctNames, ParadoxState.Valid;
      ghost var before, active := Values(Repr, activeParadoxes), MotifValues(motifs);
      tickCount := tickCount + 1;
      DecayAll(motifs);
      assert Values(Repr, activeParadoxes) == before;
      assert MotifValues(motifs) == seq(|active|, i requires 0 <= i < |active| => active[i].Decayed());
      live := KeepAlive(motifs);
      SurvivorsAre(active);
      Conclude(live);
    }
  }

  lemma SurvivorsAre(active: seq<M.Motif>)
    ensures M.Survivors(active)
         == Filter(seq(|active|, i requires 0 <= i < |active| => active[i].Decayed()), M.MotifAlive)
  {}

  lemma TrackedNames(repr: set<object>, ps: seq<ParadoxState>, id: string)
    requires Owns(repr, ps)
    ensures M.Tracked(Values(repr, ps), id) <==> exists k :: 0 <= k < |ps| && ps[k].id == id
  {
    if M.Tracked(Values(repr, ps), id) {
      var k :| 0 <= k < |ps| && Values(repr, ps)[k].id == id;
      assert ps[k].id == id;
    }
    if k :| 0 <= k < |ps| && ps[k].id == id {
      assert Values(repr, ps)[k].id == id;
    }
  }

  lemma OwnsMore(repr: set<object>, ps: seq<ParadoxState>, p: ParadoxState)
    requires Owns(repr, ps) && p.Valid() && p !in repr && p.motifA !in repr && p.motifB !in repr
    ensures Owns(repr + {p, p.motifA, p.motifB}, ps + [p])
    ensures Values(repr + {p, p.motifA, p.motifB}, ps + [p]) == Values(repr, ps) + [p.Value()]
  {}

  /** Distinct paradoxes taken from a list keep what the list owns. */
  ghost predicate Picks(kept: seq<ParadoxState>, ps: seq<ParadoxState>) {
    && (forall k :: 0 <= k < |kept| ==> kept[k] in ps)
    && (forall k, l :: 0 <= k < l < |kept| ==> kept[k] != kept[l])
  }

  lemma PicksOwn(repr: set<object>, kept: seq<ParadoxState>, ps: seq<ParadoxState>)
    requires Owns(repr, ps) && Picks(kept, ps)
    ensures Owns(repr, kept)
    ensures DistinctNames(ps) ==> DistinctNames(kept)
  {}

  lemma KeepsOwning(repr: set<object>, kept: seq<ParadoxState>, ps: seq<ParadoxState>, i: nat)
    requires Owns(repr, ps) && i < |ps| && Picks(kept, ps[..i])
    ensures Picks(kept, ps[..i + 1]) && Picks(kept + [ps[i]], ps[..i + 1])
    ensures Picks(kept + [ps[i]], ps)
    ensures Owns(repr, kept + [ps[i]]) && Owns(repr, kept)
    ensures Values(repr, kept + [ps[i]]) == Values(repr, kept) + [ps[i].Value()]
    ensures DistinctNames(ps) ==> DistinctNames(kept)
  {
    assert ps[..i + 1] == ps[..i] + [ps[i]];
    assert forall k :: 0 <= k < |kept| ==> kept[k] in ps;
    assert ps[i] !in ps[..i];
    PicksOwn(repr, kept + [ps[i]], ps);
    PicksOwn(repr, kept, ps);
  }
}
