/**
 Births and emergences over whole runs: every strong contradiction between live motifs is
 tracked, and a paradox emerges at most once between its birth and its removal.
 */
module ParadoxLives {
  import opened Wrappers
  import opened Registry
  import opened ParadoxModel
  import opened ParadoxBounds
  import opened ParadoxRuns

  // ---- detection is complete ----

  /** No id contains the character that joins two ids. */
  ghost predicate PlainNames(registry: MotifRegistry) {
    forall name <- registry.taxonomy :: '\U{00D7}' !in name
  }

  lemma JoinInjective(a: string, b: string, c: string, d: string)
    requires '\U{00D7}' !in a && '\U{00D7}' !in c
    requires a + "\U{00D7}" + b == c + "\U{00D7}" + d
    ensures a == c && b == d
  {
    var left, right := a + "\U{00D7}" + b, c + "\U{00D7}" + d;
    assert left[|a|] == right[|c|] == '\U{00D7}';
    assert forall k :: 0 <= k < |c| ==> right[k] == c[k] && c[k] in c;
    assert forall k :: 0 <= k < |a| ==> left[k] == a[k] && a[k] in a;
    assert |a| == |c|;
    assert a == left[..|a|] == right[..|c|] == c;
    assert b == left[|a| + 1..] == right[|c| + 1..] == d;
  }

  lemma PairIdInjective(a: string, b: string, c: string, d: string)
    requires '\U{00D7}' !in a && '\U{00D7}' !in b && '\U{00D7}' !in c && '\U{00D7}' !in d
    requires PairId(a, b) == PairId(c, d)
    ensures (a == c && b == d) || (a == d && b == c)
  {
    var first, second := SortedPair(a, b), SortedPair(c, d);
    JoinInjective(first.0, first.1, second.0, second.1);
  }

  /** A paradox whose motifs are both live comes out of the tick alive. */
  lemma LiveStaysAlive(cfg: Config, p: Paradox, live: seq<Motif>)
    requires forall m <- live :: m.InRange() && m.Alive()
    requires exists m :: m in live && m.id == p.a.id
    requires exists m :: m in live && m.id == p.b.id
    ensures var q := Advance(cfg, p, live);
            q.Alive() && q.id == p.id && q.a.id == p.a.id && q.b.id == p.b.id
  {
    hide Enforce, Tension, Emerges;
    EnforceBounds(cfg, Update(cfg, p, live));
  }

  /**
   After a tick, every contradictory pair of surviving motifs above the 0.1 threshold is tracked
   as a living paradox of exactly those two motifs.
   */
  lemma ContradictionsTracked(cfg: Config, e: Engine, active: seq<Motif>, i: nat, j: nat)
    requires Inv(cfg, e) && Known(cfg, active) && PlainNames(cfg.registry)
    requires i < j < |Survivors(active)|
    requires Detectable(cfg, [], Survivors(active)[i], Survivors(active)[j])
    ensures var (x, y) := (Survivors(active)[i].id, Survivors(active)[j].id);
            exists p :: p in Tick(cfg, e, active).paradoxes && p.id == PairId(x, y) && p.Alive()
              && ((p.a.id == x && p.b.id == y) || (p.a.id == y && p.b.id == x))
  {
    hide Update, Enforce, Tick, Inv, Detect, Survivors, AfterEmergence, PairId, Tracks, Detectable, PlainNames;
    var live, tick := Survivors(active), e.tickCount + 1;
    var ps := Detect(cfg, e.paradoxes, live, tick);
    SurvivorsInRange(active);
    DetectReady(cfg, e, live);
    DetectsPair(cfg, e.paradoxes, live, i, j, tick);
    var k :| 0 <= k < |ps| && ps[k].id == PairId(live[i].id, live[j].id);
    SamePair(cfg, ps[k], live[i], live[j], tick);
    assert live[i] in live && live[j] in live;
    LiveStaysAlive(cfg, ps[k], live);
    UndeadIsKept(cfg, e, active, k);
  }

  lemma UndeadIsKept(cfg: Config, e: Engine, active: seq<Motif>, k: nat)
    requires k < |Detect(cfg, e.paradoxes, Survivors(active), e.tickCount + 1)|
    ensures var live := Survivors(active);
            var q := Advance(cfg, Detect(cfg, e.paradoxes, live, e.tickCount + 1)[k], live);
            !q.Dead() ==> q in Tick(cfg, e, active).paradoxes
  {
    hide Update, Enforce, Emerges, Score, Detect, Survivors, Events;
    var live := Survivors(active);
    var settled := Settled(cfg, Enforced(cfg, Detect(cfg, e.paradoxes, live, e.tickCount + 1), live));
    if !settled[k].Dead() {
      assert settled[k] in Cleaned(settled);
    }
  }

  lemma SamePair(cfg: Config, p: Paradox, x: Motif, y: Motif, tick: nat)
    requires Tracks(cfg, p, tick) && PlainNames(cfg.registry)
    requires Detectable(cfg, [], x, y) && p.id == PairId(x.id, y.id)
    ensures (p.a.id == x.id && p.b.id == y.id) || (p.a.id == y.id && p.b.id == x.id)
  {
    hide GetRelation;
    PairIdInjective(p.a.id, p.b.id, x.id, y.id);
  }

  lemma DetectsPair(cfg: Config, ps: seq<Paradox>, live: seq<Motif>, i: nat, j: nat, tick: nat)
    requires i < j < |live| && Detectable(cfg, [], live[i], live[j])
    ensures Tracked(Detect(cfg, ps, live, tick), PairId(live[i].id, live[j].id))
  {
    RowsDetect(cfg, ps, live, i, j, |live|, tick);
  }

  // ---- one emergence in each life ----

  /** A paradox kept by a tick was either tracked before it or born in it under a free id. */
  lemma KeptOrigin(cfg: Config, e: Engine, active: seq<Motif>, p: Paradox)
    requires Inv(cfg, e) && Known(cfg, active) && p in Tick(cfg, e, active).paradoxes
    ensures (exists q :: q in e.paradoxes && q.id == p.id && q.birthTick == p.birthTick)
         || (p.birthTick == e.tickCount + 1 && !Tracked(e.paradoxes, p.id))
  {
    hide Tick, Inv, Detect, Survivors, Enforced, Tracked;
    var live, tick := Survivors(active), e.tickCount + 1;
    var ps := Detect(cfg, e.paradoxes, live, tick);
    var k := KeptIndex(cfg, e, active, p);
    SurvivorsInRange(active);
    DetectReady(cfg, e, live);
    EnforcedAdvanced(cfg, ps, live, e.emergenceLog, tick);
    DetectOrigin(cfg, e, live, k);
    SameLife(cfg, ps[k], Enforced(cfg, ps, live)[k], tick);
  }

  lemma KeptIndex(cfg: Config, e: Engine, active: seq<Motif>, p: Paradox) returns (k: nat)
    requires p in Tick(cfg, e, active).paradoxes
    ensures var live := Survivors(active);
            var ps := Detect(cfg, e.paradoxes, live, e.tickCount + 1);
            k < |ps| && p == AfterEmergence(cfg, Enforced(cfg, ps, live)[k])
  {
    hide Enforce, Update, Detect, Survivors, Score, Events, AfterEmergence;
    var live := Survivors(active);
    var settled := Settled(cfg, Enforced(cfg, Detect(cfg, e.paradoxes, live, e.tickCount + 1), live));
    k :| 0 <= k < |settled| && settled[k] == p;
  }

  lemma SameLife(cfg: Config, p: Paradox, q: Paradox, tick: nat)
    requires Advanced(cfg, p, q, tick)
    ensures AfterEmergence(cfg, q).id == p.id && AfterEmergence(cfg, q).birthTick == p.birthTick
  {}

  lemma DetectOrigin(cfg: Config, e: Engine, live: seq<Motif>, k: nat)
    requires k < |Detect(cfg, e.paradoxes, live, e.tickCount + 1)|
    ensures var p := Detect(cfg, e.paradoxes, live, e.tickCount + 1)[k];
            p in e.paradoxes || (p.birthTick == e.tickCount + 1 && !Tracked(e.paradoxes, p.id))
  {
    var ps := Detect(cfg, e.paradoxes, live, e.tickCount + 1);
    RowsExtend(cfg, e.paradoxes, live, |live|, e.tickCount + 1);
    if k >= |e.paradoxes| {
      assert forall l :: 0 <= l < |e.paradoxes| ==> ps[l] == e.paradoxes[l] && ps[l].id != ps[k].id;
    }
  }

  /** A tracked paradox was not tracked just before its birth tick. */
  lemma {:induction false} FreeBeforeBirth(cfg: Config, inputs: seq<seq<Motif>>, p: Paradox)
    requires forall active <- inputs :: Known(cfg, active)
    requires p in Run(cfg, Initial, inputs).paradoxes
    ensures 1 <= p.birthTick <= |inputs|
    ensures !Tracked(Run(cfg, Initial, inputs[..p.birthTick - 1]).paradoxes, p.id)
  {
    hide Tick, Inv;
    var before := inputs[..|inputs| - 1];
    var e := Run(cfg, Initial, before);
    RunKeeps(cfg, Initial, before);
    assert inputs[|inputs| - 1] in inputs;
    KeptOrigin(cfg, e, inputs[|inputs| - 1], p);
    if q :| q in e.paradoxes && q.id == p.id && q.birthTick == p.birthTick {
      FreeBeforeBirth(cfg, before, q);
      assert before[..p.birthTick - 1] == inputs[..p.birthTick - 1];
    }
  }

  /** An event fired by a tick is the first of its life. */
  lemma FreshEvent(cfg: Config, e: Engine, active: seq<Motif>, index: nat)
      returns (birthTick: nat)
    requires Inv(cfg, e) && Known(cfg, active)
    requires |e.emergenceLog| <= index < |Tick(cfg, e, active).emergenceLog|
    ensures var ev := Tick(cfg, e, active).emergenceLog[index];
            && ev.tick == e.tickCount + 1
            && (forall former <- e.emergenceLog :: former.paradoxId == ev.paradoxId ==> former.tick + 2 <= birthTick)
            && ((exists q :: q in e.paradoxes && q.id == ev.paradoxId && q.birthTick == birthTick)
                || (birthTick == e.tickCount + 1 && !Tracked(e.paradoxes, ev.paradoxId)))
  {
    hide Update, Enforce, Strength, Score, Detect, Survivors, Settled, Cleaned, Sound, Tracks, OwnEvent;
    var live, tick := Survivors(active), e.tickCount + 1;
    var ps := Detect(cfg, e.paradoxes, live, tick);
    var enforced := Enforced(cfg, ps, live);
    SurvivorsInRange(active);
    DetectReady(cfg, e, live);
    EnforcedAdvanced(cfg, ps, live, e.emergenceLog, tick);
    DistinctEnforced(cfg, ps, enforced, tick);
    EventsSpec(cfg, enforced, tick);
    var ev := Tick(cfg, e, active).emergenceLog[index];
    assert ev == Events(cfg, enforced, tick)[index - |e.emergenceLog|];
    assert ev in Events(cfg, enforced, tick);
    var k :| 0 <= k < |enforced| && Emerges(cfg, enforced[k]) && ev == EventOf(enforced[k], tick);
    assert Advanced(cfg, ps[k], enforced[k], tick);
    DetectOrigin(cfg, e, live, k);
    birthTick := ps[k].birthTick;
    forall former <- e.emergenceLog | former.paradoxId == ev.paradoxId ensures former.tick + 2 <= birthTick {
      assert Chronicle(cfg, ps[k], former);
    }
  }

  lemma DistinctEnforced(cfg: Config, ps: seq<Paradox>, enforced: seq<Paradox>, tick: nat)
    requires DistinctIds(ps)
    requires |enforced| == |ps| && forall k :: 0 <= k < |ps| ==> Advanced(cfg, ps[k], enforced[k], tick)
    ensures DistinctIds(enforced)
  {}

  /**
   Emergence is one-shot. Of two events with the same paradox id the later comes at least
   maturation + 1 ticks after the earlier, and in between the paradox was gone for at least one
   tick: no life of a paradox emerges twice.
   */
  lemma {:induction false} OneEmergencePerLife(cfg: Config, inputs: seq<seq<Motif>>, i: nat, j: nat)
    requires forall active <- inputs :: Known(cfg, active)
    requires i < j < |Run(cfg, Initial, inputs).emergenceLog|
    requires Run(cfg, Initial, inputs).emergenceLog[i].paradoxId == Run(cfg, Initial, inputs).emergenceLog[j].paradoxId
    ensures var log := Run(cfg, Initial, inputs).emergenceLog;
            && log[i].tick + cfg.maturation + 1 <= log[j].tick <= |inputs|
            && exists n :: log[i].tick < n < log[j].tick
                 && !Tracked(Run(cfg, Initial, inputs[..n]).paradoxes, log[i].paradoxId)
  {
    hide Tick, Inv;
    var before, last := inputs[..|inputs| - 1], inputs[|inputs| - 1];
    var e := Run(cfg, Initial, before);
    var log := Run(cfg, Initial, inputs).emergenceLog;
    RunKeeps(cfg, Initial, inputs);
    RunKeeps(cfg, Initial, before);
    LogInvariant(cfg, Run(cfg, Initial, inputs), i, j);
    LogGrows(cfg, e, last);
    if j < |e.emergenceLog| {
      OneEmergencePerLife(cfg, before, i, j);
      var n :| log[i].tick < n < log[j].tick && !Tracked(Run(cfg, Initial, before[..n]).paradoxes, log[i].paradoxId);
      assert before[..n] == inputs[..n];
    } else {
      var birthTick := FreshEvent(cfg, e, last, j);
      EventsOfOneTick(cfg, e, last, i);
      var n := birthTick - 1;
      if q :| q in e.paradoxes && q.id == log[i].paradoxId && q.birthTick == birthTick {
        FreeBeforeBirth(cfg, before, q);
        assert before[..n] == inputs[..n];
      } else {
        assert before == inputs[..n];
      }
    }
  }

  lemma LogGrows(cfg: Config, e: Engine, active: seq<Motif>)
    ensures e.emergenceLog <= Tick(cfg, e, active).emergenceLog
  {
    hide Events, Enforced, Detect, Cleaned;
  }

  lemma EventsOfOneTick(cfg: Config, e: Engine, active: seq<Motif>, i: nat)
    requires Inv(cfg, e) && Known(cfg, active)
    requires i < |Tick(cfg, e, active).emergenceLog|
    ensures Tick(cfg, e, active).emergenceLog[i].tick <= e.tickCount <==> i < |e.emergenceLog|
  {
    hide Tick;
    LogGrows(cfg, e, active);
    if i < |e.emergenceLog| {
      assert e.emergenceLog[i] in e.emergenceLog;
    } else {
      var birthTick := FreshEvent(cfg, e, active, i);
    }
  }

  lemma LogInvariant(cfg: Config, e: Engine, i: nat, j: nat)
    requires Inv(cfg, e) && i < j < |e.emergenceLog|
    requires e.emergenceLog[i].paradoxId == e.emergenceLog[j].paradoxId
    ensures e.emergenceLog[i].tick + cfg.maturation + 1 <= e.emergenceLog[j].tick <= e.tickCount
  {
    assert e.emergenceLog[j] in e.emergenceLog;
  }
}
