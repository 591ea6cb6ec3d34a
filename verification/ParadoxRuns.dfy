/**
 What every run of the paradox engine keeps, whatever motifs are handed to each tick: bounds,
 one paradox per id, complete detection, and at most one emergence in each life of a paradox.
 */
module ParadoxRuns {
  import opened Wrappers
  import opened Reals
  import opened Registry
  import opened ParadoxModel
  import opened ParadoxBounds

  ghost predicate DistinctIds(ps: seq<Paradox>) {
    forall i, j :: 0 <= i < j < |ps| ==> ps[i].id != ps[j].id
  }

  /** Holds of a tracked paradox in every phase; age bounds its duration. */
  ghost predicate Tracks(cfg: Config, p: Paradox, tick: nat) {
    && p.a.InRange() && p.b.InRange()
    && 0.0 <= p.tension <= p.peakTension <= 1.0
    && Contradicts(cfg, p.a.id, p.b.id) && p.id == PairId(p.a.id, p.b.id)
    && p.birthTick <= tick
    && (p.emerged ==> p.maturationCandidate)
    && (p.maturationCandidate ==> p.duration >= cfg.maturation)
  }

  /** Holds of a tracked paradox between ticks. */
  ghost predicate Sound(cfg: Config, p: Paradox, tick: nat) {
    && Tracks(cfg, p, tick)
    && p.birthTick + p.duration <= tick + 1
    && !p.Dead()
    && (p.Alive() ==> p.duration > 0 && 3.0 * p.tension >= p.a.intensity * p.b.intensity)
    && (p.Alive() && p.duration >= cfg.maturation && p.tension > 0.2 ==> p.emerged)
  }

  /**
   An event of the paradox's id either ended an earlier life, at least two ticks before this
   birth, or belongs to this life, which has then emerged, and came no earlier than maturity.
   */
  ghost predicate Chronicle(cfg: Config, p: Paradox, ev: Event) {
    ev.paradoxId == p.id ==>
      ev.tick + 2 <= p.birthTick || (p.emerged && p.birthTick + cfg.maturation <= ev.tick + 1)
  }

  ghost predicate Spaced(cfg: Config, log: seq<Event>) {
    forall i, j :: 0 <= i < j < |log| && log[i].paradoxId == log[j].paradoxId ==>
      log[i].tick + cfg.maturation + 1 <= log[j].tick
  }

  ghost predicate OwnEvent(p: Paradox, log: seq<Event>) {
    exists ev :: ev in log && ev.paradoxId == p.id && ev.tick >= p.birthTick
  }

  ghost predicate Inv(cfg: Config, e: Engine) {
    && DistinctIds(e.paradoxes)
    && (forall p <- e.paradoxes :: Sound(cfg, p, e.tickCount))
    && (forall p <- e.paradoxes, ev <- e.emergenceLog :: Chronicle(cfg, p, ev))
    && (forall p <- e.paradoxes :: p.emerged ==> OwnEvent(p, e.emergenceLog))
    && (forall ev <- e.emergenceLog ::
          ev.tick <= e.tickCount
          && (ev.tick == e.tickCount ==> Tracked(e.paradoxes, ev.paradoxId)))
    && Spaced(cfg, e.emergenceLog)
    && |e.tensionHistory| == e.tickCount
    && (forall score <- e.tensionHistory :: 0.0 <= score <= cfg.maturation as real)
  }

  // ---- detection ----

  ghost predicate BornNow(cfg: Config, live: seq<Motif>, p: Paradox, tick: nat) {
    && p.a in live && p.b in live && p.a.intensity > 0.1 && p.b.intensity > 0.1
    && Contradicts(cfg, p.a.id, p.b.id)
    && p == Newborn(cfg, p.a, p.b, tick)
  }

  /** Detection only appends newborn paradoxes under ids not yet tracked. */
  ghost predicate Extends(cfg: Config, live: seq<Motif>, before: seq<Paradox>, after: seq<Paradox>, tick: nat) {
    && before <= after
    && (forall k :: |before| <= k < |after| ==> BornNow(cfg, live, after[k], tick))
    && (forall k, l :: |before| <= k < |after| && 0 <= l < k ==> after[l].id != after[k].id)
  }

  lemma ExtendsTransitive(
      cfg: Config, live: seq<Motif>, before: seq<Paradox>, middle: seq<Paradox>, after: seq<Paradox>, tick: nat)
    requires Extends(cfg, live, before, middle, tick) && Extends(cfg, live, middle, after, tick)
    ensures Extends(cfg, live, before, after, tick)
  {
    forall k | |before| <= k < |after| ensures BornNow(cfg, live, after[k], tick) {
      if k < |middle| {
        assert after[k] == middle[k];
      }
    }
    forall k, l | |before| <= k < |after| && 0 <= l < k ensures after[l].id != after[k].id {
      if k < |middle| {
        assert after[k] == middle[k] && after[l] == middle[l];
      }
    }
  }

  lemma PairExtends(cfg: Config, ps: seq<Paradox>, live: seq<Motif>, a: Motif, b: Motif, tick: nat)
    requires a in live && b in live
    ensures Extends(cfg, live, ps, DetectPair(cfg, ps, a, b, tick), tick)
    ensures Detectable(cfg, [], a, b) ==> Tracked(DetectPair(cfg, ps, a, b, tick), PairId(a.id, b.id))
  {
    if Detectable(cfg, ps, a, b) {
      assert DetectPair(cfg, ps, a, b, tick)[|ps|].id == PairId(a.id, b.id);
    }
  }

  lemma {:induction false} RowExtends(cfg: Config, ps: seq<Paradox>, live: seq<Motif>, i: nat, end: nat, tick: nat)
    requires i < |live| && end <= |live|
    ensures Extends(cfg, live, ps, DetectRow(cfg, ps, live, i, end, tick), tick)
  {
    if end > i + 1 {
      RowExtends(cfg, ps, live, i, end - 1, tick);
      var before := DetectRow(cfg, ps, live, i, end - 1, tick);
      PairExtends(cfg, before, live, live[i], live[end - 1], tick);
      ExtendsTransitive(cfg, live, ps, before, DetectRow(cfg, ps, live, i, end, tick), tick);
    }
  }

  lemma {:induction false} RowsExtend(cfg: Config, ps: seq<Paradox>, live: seq<Motif>, n: nat, tick: nat)
    requires n <= |live|
    ensures Extends(cfg, live, ps, DetectRows(cfg, ps, live, n, tick), tick)
  {
    if n > 0 {
      RowsExtend(cfg, ps, live, n - 1, tick);
      var before := DetectRows(cfg, ps, live, n - 1, tick);
      RowExtends(cfg, before, live, n - 1, |live|, tick);
      ExtendsTransitive(cfg, live, ps, before, DetectRows(cfg, ps, live, n, tick), tick);
    }
  }

  lemma TrackedStays(before: seq<Paradox>, after: seq<Paradox>, id: string)
    requires before <= after && Tracked(before, id)
    ensures Tracked(after, id)
  {
    var k :| 0 <= k < |before| && before[k].id == id;
    assert after[k].id == id;
  }

  /** Every detectable pair is tracked once its row has been scanned. */
  lemma {:induction false} RowDetects(
      cfg: Config, ps: seq<Paradox>, live: seq<Motif>, i: nat, j: nat, end: nat, tick: nat)
    requires i < j < end <= |live| && Detectable(cfg, [], live[i], live[j])
    ensures Tracked(DetectRow(cfg, ps, live, i, end, tick), PairId(live[i].id, live[j].id))
  {
    var before := DetectRow(cfg, ps, live, i, end - 1, tick);
    PairExtends(cfg, before, live, live[i], live[end - 1], tick);
    if j < end - 1 {
      RowDetects(cfg, ps, live, i, j, end - 1, tick);
      TrackedStays(before, DetectRow(cfg, ps, live, i, end, tick), PairId(live[i].id, live[j].id));
    }
  }

  lemma {:induction false} RowsDetect(
      cfg: Config, ps: seq<Paradox>, live: seq<Motif>, i: nat, j: nat, n: nat, tick: nat)
    requires i < n <= |live| && i < j < |live| && Detectable(cfg, [], live[i], live[j])
    ensures Tracked(DetectRows(cfg, ps, live, n, tick), PairId(live[i].id, live[j].id))
  {
    var before := DetectRows(cfg, ps, live, n - 1, tick);
    if i < n - 1 {
      RowsDetect(cfg, ps, live, i, j, n - 1, tick);
      RowExtends(cfg, before, live, n - 1, |live|, tick);
      TrackedStays(before, DetectRows(cfg, ps, live, n, tick), PairId(live[i].id, live[j].id));
    } else {
      RowDetects(cfg, before, live, i, j, |live|, tick);
    }
  }

  // ---- one paradox over one tick ----

  lemma RefreshedInRange(m: Motif, live: seq<Motif>)
    requires m.InRange() && forall l <- live :: l.InRange()
    ensures Refreshed(m, live).InRange() && Refreshed(m, live).id == m.id
  {}

  /** What an update does to a tracked paradox. */
  ghost predicate Updated(cfg: Config, p: Paradox, q: Paradox, tick: nat) {
    && Tracks(cfg, q, tick) && q.birthTick + q.duration <= tick + 1
    && q.id == p.id && q.birthTick == p.birthTick && q.emerged == p.emerged
    && q.duration == p.duration + (if q.Alive() then 1 else 0)
    && q.peakTension == (if q.Alive() then RealMax(p.peakTension, q.tension) else p.peakTension)
    && (q.Alive() ==> q.duration > 0 && 2.0 * q.tension >= q.a.intensity * q.b.intensity)
    && (q.Alive() && q.duration >= cfg.maturation && q.tension > 0.2 ==> q.maturationCandidate)
  }

  lemma UpdateKeeps(cfg: Config, p: Paradox, live: seq<Motif>, tick: nat)
    requires Tracks(cfg, p, tick) && p.birthTick + p.duration <= tick
    requires forall l <- live :: l.InRange()
    ensures Updated(cfg, p, Update(cfg, p, live), tick)
  {
    RefreshedInRange(p.a, live);
    RefreshedInRange(p.b, live);
    TensionBounds(cfg, Refreshed(p.a, live), Refreshed(p.b, live), p.duration);
  }

  lemma PersistedKeeps(cfg: Config, p: Paradox, q: Paradox, tick: nat)
    requires Tracks(cfg, p, tick) && Persisted(p, q)
    requires p.Alive() ==> 2.0 * p.tension >= p.a.intensity * p.b.intensity
    ensures Tracks(cfg, q, tick)
    ensures q.Alive() ==> 3.0 * q.tension >= q.a.intensity * q.b.intensity
  {
    OneGrown(p.a.intensity, p.b.intensity, q.a.intensity, q.b.intensity);
  }

  /** What update and persistence together do to a tracked paradox. */
  ghost predicate Advanced(cfg: Config, p: Paradox, q: Paradox, tick: nat) {
    && q.id == p.id && q.birthTick == p.birthTick && q.emerged == p.emerged
    && q.birthTick + q.duration <= tick + 1
    && (!q.Dead() ==> Sound(cfg, AfterEmergence(cfg, q), tick))
  }

  lemma PersistedAdvanced(cfg: Config, p: Paradox, updated: Paradox, q: Paradox, tick: nat)
    requires Updated(cfg, p, updated, tick) && Persisted(updated, q)
    ensures Advanced(cfg, p, q, tick)
  {
    PersistedKeeps(cfg, updated, q, tick);
  }

  lemma AdvanceKeeps(cfg: Config, p: Paradox, live: seq<Motif>, tick: nat)
    requires Tracks(cfg, p, tick) && p.birthTick + p.duration <= tick
    requires forall l <- live :: l.InRange()
    ensures Advanced(cfg, p, Enforce(cfg, Update(cfg, p, live)), tick)
  {
    UpdateKeeps(cfg, p, live, tick);
    EnforceBounds(cfg, Update(cfg, p, live));
    PersistedAdvanced(cfg, p, Update(cfg, p, live), Enforce(cfg, Update(cfg, p, live)), tick);
  }

  // ---- emergence ----

  lemma {:induction false} EventsSpec(cfg: Config, ps: seq<Paradox>, tick: nat)
    requires DistinctIds(ps)
    ensures forall ev :: ev in Events(cfg, ps, tick) <==>
              exists k :: 0 <= k < |ps| && Emerges(cfg, ps[k]) && ev == EventOf(ps[k], tick)
    ensures forall i, j :: 0 <= i < j < |Events(cfg, ps, tick)| ==>
              Events(cfg, ps, tick)[i].paradoxId != Events(cfg, ps, tick)[j].paradoxId
  {
    if ps != [] {
      var init, last := ps[..|ps| - 1], ps[|ps| - 1];
      EventsSpec(cfg, init, tick);
      assert forall k :: 0 <= k < |init| ==> init[k] == ps[k];
      forall ev | ev in Events(cfg, init, tick) ensures ev.paradoxId != last.id {
        var k :| 0 <= k < |init| && Emerges(cfg, init[k]) && ev == EventOf(init[k], tick);
      }
    }
  }

  // ---- score ----

  lemma {:induction false} SumBounds(s: seq<real>, limit: real)
    requires forall k :: 0 <= k < |s| ==> 0.0 <= s[k] <= limit
    ensures 0.0 <= Sum(s) <= limit * |s| as real
  {
    if s != [] {
      SumBounds(s[..|s| - 1], limit);
      assert limit * |s| as real == limit * (|s| - 1) as real + limit;
    }
  }

  lemma HeldBounds(cfg: Config, p: Paradox)
    requires 0.0 <= p.tension <= 1.0
    ensures 0.0 <= Held(cfg, p) <= cfg.maturation as real
  {
    UnitShare(p.tension, Weight(cfg, p.duration), cfg.maturation as real);
  }

  lemma {:induction false} ScoresBounds(cfg: Config, ps: seq<Paradox>)
    requires forall k :: 0 <= k < |ps| ==> 0.0 <= ps[k].tension <= 1.0
    ensures forall k :: 0 <= k < |Scores(cfg, ps)| ==> 0.0 <= Scores(cfg, ps)[k] <= cfg.maturation as real
  {
    hide Held;
    if ps != [] {
      ScoresBounds(cfg, ps[..|ps| - 1]);
      HeldBounds(cfg, ps[|ps| - 1]);
    }
  }

  lemma ScoreBounds(cfg: Config, ps: seq<Paradox>)
    requires forall p <- ps :: 0.0 <= p.tension <= 1.0
    ensures 0.0 <= Score(cfg, ps) <= cfg.maturation as real
  {
    var scores := Scores(cfg, ps);
    if scores != [] {
      ScoresBounds(cfg, ps);
      SumBounds(scores, cfg.maturation as real);
      QuotientBounds(Sum(scores), |scores| as real, 0.0);
      QuotientBounds(Sum(scores), |scores| as real, cfg.maturation as real);
    }
  }

  // ---- one tick ----

  lemma {:induction false} CleanedDistinct(ps: seq<Paradox>)
    requires DistinctIds(ps)
    ensures DistinctIds(Cleaned(ps))
  {
    if ps != [] {
      var last := ps[|ps| - 1];
      CleanedDistinct(ps[..|ps| - 1]);
      forall p <- Cleaned(ps[..|ps| - 1]) ensures p.id != last.id {
        assert p in ps[..|ps| - 1];
      }
    }
  }

  /** Detection leaves every paradox ready to be advanced, with its old chronicle. */
  ghost predicate Ready(cfg: Config, ps: seq<Paradox>, log: seq<Event>, tick: nat) {
    && DistinctIds(ps)
    && (forall p <- ps :: Tracks(cfg, p, tick) && p.birthTick + p.duration <= tick)
    && (forall p <- ps, ev <- log :: Chronicle(cfg, p, ev))
    && (forall p <- ps :: p.emerged ==> OwnEvent(p, log))
  }

  lemma NewbornTracks(cfg: Config, live: seq<Motif>, p: Paradox, tick: nat)
    requires BornNow(cfg, live, p, tick) && forall l <- live :: l.InRange()
    ensures Tracks(cfg, p, tick) && p.birthTick + p.duration <= tick
  {
    TensionBounds(cfg, p.a, p.b, 0);
  }

  lemma DetectReady(cfg: Config, e: Engine, live: seq<Motif>)
    requires Inv(cfg, e) && forall l <- live :: l.InRange()
    ensures Ready(cfg, Detect(cfg, e.paradoxes, live, e.tickCount + 1), e.emergenceLog, e.tickCount + 1)
  {
    var tick, ps := e.tickCount + 1, Detect(cfg, e.paradoxes, live, e.tickCount + 1);
    RowsExtend(cfg, e.paradoxes, live, |live|, tick);
    forall k | 0 <= k < |ps|
      ensures Tracks(cfg, ps[k], tick) && ps[k].birthTick + ps[k].duration <= tick
      ensures ps[k].emerged ==> OwnEvent(ps[k], e.emergenceLog)
      ensures forall ev <- e.emergenceLog :: Chronicle(cfg, ps[k], ev)
    {
      if k < |e.paradoxes| {
        assert ps[k] == e.paradoxes[k];
        assert Sound(cfg, ps[k], e.tickCount);
      } else {
        NewbornTracks(cfg, live, ps[k], tick);
        NewbornChronicle(cfg, e, ps, k);
      }
    }
    forall k, l | 0 <= k < l < |ps| ensures ps[k].id != ps[l].id {
      if l < |e.paradoxes| {
        assert ps[k] == e.paradoxes[k] && ps[l] == e.paradoxes[l];
      }
    }
  }

  /** An id that is not tracked now had its last event at an earlier tick. */
  lemma NewbornChronicle(cfg: Config, e: Engine, ps: seq<Paradox>, k: nat)
    requires Inv(cfg, e) && e.paradoxes <= ps && |e.paradoxes| <= k < |ps|
    requires forall l :: 0 <= l < k ==> ps[l].id != ps[k].id
    requires ps[k].birthTick == e.tickCount + 1
    ensures forall ev <- e.emergenceLog :: Chronicle(cfg, ps[k], ev)
  {
    forall l | 0 <= l < |e.paradoxes| ensures e.paradoxes[l].id != ps[k].id {
      assert ps[l] == e.paradoxes[l];
    }
  }

  lemma EnforcedAdvanced(cfg: Config, ps: seq<Paradox>, live: seq<Motif>, log: seq<Event>, tick: nat)
    requires Ready(cfg, ps, log, tick) && forall l <- live :: l.InRange()
    ensures forall k :: 0 <= k < |ps| ==> Advanced(cfg, ps[k], Enforced(cfg, ps, live)[k], tick)
  {
    forall k | 0 <= k < |ps| ensures Advanced(cfg, ps[k], Enforced(cfg, ps, live)[k], tick) {
      AdvanceKeeps(cfg, ps[k], live, tick);
    }
  }

  /** The log after a tick: spaced, and still a chronicle of the settled paradoxes. */
  lemma LogKeeps(
      cfg: Config, ps: seq<Paradox>, enforced: seq<Paradox>, log: seq<Event>, tick: nat)
    requires Ready(cfg, ps, log, tick) && Spaced(cfg, log)
    requires |enforced| == |ps| && forall k :: 0 <= k < |ps| ==> Advanced(cfg, ps[k], enforced[k], tick)
    ensures var newLog := log + Events(cfg, enforced, tick);
            && Spaced(cfg, newLog)
            && (forall q <- Settled(cfg, enforced), ev <- newLog :: Chronicle(cfg, q, ev))
            && (forall q <- Settled(cfg, enforced) :: q.emerged ==> OwnEvent(q, newLog))
  {
    var events := Events(cfg, enforced, tick);
    var newLog := log + events;
    EventsSpec(cfg, enforced, tick);
    forall k, ev | 0 <= k < |ps| && ev in newLog ensures Chronicle(cfg, Settled(cfg, enforced)[k], ev) {
      if ev in log {
        assert Chronicle(cfg, ps[k], ev);
      } else {
        var l :| 0 <= l < |enforced| && Emerges(cfg, enforced[l]) && ev == EventOf(enforced[l], tick);
        assert l != k ==> ps[l].id != ps[k].id;
      }
    }
    forall k | 0 <= k < |ps| && Settled(cfg, enforced)[k].emerged
      ensures OwnEvent(Settled(cfg, enforced)[k], newLog)
    {
      if ps[k].emerged {
        var ev :| ev in log && ev.paradoxId == ps[k].id && ev.tick >= ps[k].birthTick;
        assert ev in newLog;
      } else {
        assert EventOf(enforced[k], tick) in newLog;
      }
    }
    forall i, j | |log| <= i < j < |newLog| ensures newLog[i].paradoxId != newLog[j].paradoxId {
      assert newLog[i] == events[i - |log|] && newLog[j] == events[j - |log|];
    }
    forall i, j | 0 <= i < |log| && i < j < |newLog| && newLog[i].paradoxId == newLog[j].paradoxId
      ensures newLog[i].tick + cfg.maturation + 1 <= newLog[j].tick
    {
      if j >= |log| {
        assert newLog[j] == events[j - |log|] && newLog[j] in events;
        var k :| 0 <= k < |enforced| && Emerges(cfg, enforced[k]) && newLog[j] == EventOf(enforced[k], tick);
        assert newLog[i] == log[i] && log[i] in log;
        assert Chronicle(cfg, ps[k], log[i]);
      }
    }
  }

  /** What is kept after a tick is sound, and includes everything that emerged in it. */
  lemma KeptSound(cfg: Config, ps: seq<Paradox>, enforced: seq<Paradox>, tick: nat)
    requires DistinctIds(ps)
    requires |enforced| == |ps| && forall k :: 0 <= k < |ps| ==> Advanced(cfg, ps[k], enforced[k], tick)
    ensures var kept := Cleaned(Settled(cfg, enforced));
            && DistinctIds(kept)
            && (forall p <- kept :: Sound(cfg, p, tick))
            && (forall ev <- Events(cfg, enforced, tick) :: ev.tick == tick && Tracked(kept, ev.paradoxId))
            && 0.0 <= Score(cfg, kept) <= cfg.maturation as real
  {
    var settled := Settled(cfg, enforced);
    var kept := Cleaned(settled);
    CleanedDistinct(settled);
    forall p <- kept ensures Sound(cfg, p, tick) {
      var k :| 0 <= k < |settled| && settled[k] == p;
    }
    EventsSpec(cfg, enforced, tick);
    forall ev <- Events(cfg, enforced, tick) ensures ev.tick == tick && Tracked(kept, ev.paradoxId) {
      var k :| 0 <= k < |enforced| && Emerges(cfg, enforced[k]) && ev == EventOf(enforced[k], tick);
      assert settled[k] in kept;
    }
    ScoreBounds(cfg, kept);
  }

  /** A tick keeps the invariant, whatever motifs it is handed. */
  lemma TickKeeps(cfg: Config, e: Engine, active: seq<Motif>)
    requires Inv(cfg, e) && Known(cfg, active)
    ensures Inv(cfg, Tick(cfg, e, active))
  {
    hide Sound, Chronicle, Spaced, OwnEvent, Detect, Enforced, Settled, Events, Score, Survivors;
    hide Advanced, DistinctIds;
    var tick, live := e.tickCount + 1, Survivors(active);
    var ps := Detect(cfg, e.paradoxes, live, tick);
    var enforced := Enforced(cfg, ps, live);
    SurvivorsInRange(active);
    DetectReady(cfg, e, live);
    EnforcedAdvanced(cfg, ps, live, e.emergenceLog, tick);
    LogKeeps(cfg, ps, enforced, e.emergenceLog, tick);
    KeptSound(cfg, ps, enforced, tick);
  }

  lemma SurvivorsInRange(active: seq<Motif>)
    requires forall m <- active :: m.InRange()
    ensures forall m <- Survivors(active) :: m.InRange() && m.Alive()
  {
    forall m <- Survivors(active) ensures m.InRange() && m.Alive() {
      var decayed := seq(|active|, i requires 0 <= i < |active| => active[i].Decayed());
      assert m in decayed;
      var i :| 0 <= i < |decayed| && decayed[i] == m;
      assert active[i] in active;
    }
  }

  /** Every reachable state of the engine satisfies the invariant. */
  lemma {:induction false} RunKeeps(cfg: Config, e: Engine, inputs: seq<seq<Motif>>)
    requires Inv(cfg, e) && forall active <- inputs :: Known(cfg, active)
    ensures Inv(cfg, Run(cfg, e, inputs))
    ensures Run(cfg, e, inputs).tickCount == e.tickCount + |inputs|
  {
    if inputs != [] {
      assert inputs[|inputs| - 1] in inputs;
      RunKeeps(cfg, e, inputs[..|inputs| - 1]);
      TickKeeps(cfg, Run(cfg, e, inputs[..|inputs| - 1]), inputs[|inputs| - 1]);
    }
  }
}
