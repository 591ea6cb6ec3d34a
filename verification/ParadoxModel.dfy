/**
 What one tick of the paradox engine computes, on values (paradox-engine/models.py and
 paradox-engine/engine.py). The classes of module ParadoxEngine are proved against these
 functions; the properties of whole runs are proved about them.
 */
module ParadoxModel {
  import opened Wrappers
  import opened Reals
  import opened Registry

  datatype Motif = Motif(id: string, intensity: real, decayRate: real, vector: Vector)
  {
    predicate Alive() { intensity > 0.0 }

    function Decayed(): Motif {
      this.(intensity := RealMax(0.0, intensity - decayRate))
    }

    function Boosted(factor: real): Motif {
      this.(intensity := RealMin(1.0, intensity * factor))
    }

    predicate InRange() { 0.0 <= intensity <= 1.0 && decayRate >= 0.0 }
  }

  datatype Paradox = Paradox(
    id: string,
    a: Motif,
    b: Motif,
    tension: real,
    duration: nat,
    resolutionBlocked: bool,
    emerged: bool,
    birthTick: nat,
    peakTension: real,
    maturationCandidate: bool)
  {
    predicate Alive() { a.Alive() && b.Alive() }

    predicate Dead() { !a.Alive() && !b.Alive() }

    function Strongest(): real { RealMax(a.intensity, b.intensity) }
  }

  datatype Event = Event(
    paradoxId: string, tick: nat, tension: real, duration: nat, motifA: string, motifB: string)

  type Threshold = n: nat | n > 0 witness 32

  datatype Config = Config(registry: MotifRegistry, maturation: Threshold, blockRatio: real)

  /** paradoxes lists the tracked paradoxes in dictionary (insertion) order. */
  datatype Engine = Engine(
    paradoxes: seq<Paradox>, tickCount: nat, tensionHistory: seq<real>, emergenceLog: seq<Event>)

  const Initial := Engine([], 0, [], [])

  ghost predicate Known(cfg: Config, live: seq<Motif>) {
    forall m <- live :: m.id in cfg.registry.taxonomy && m.InRange()
  }

  predicate Tracked(ps: seq<Paradox>, id: string) {
    exists i :: 0 <= i < |ps| && ps[i].id == id
  }

  predicate Contradicts(cfg: Config, a: string, b: string) {
    a in cfg.registry.taxonomy && b in cfg.registry.taxonomy
    && GetRelation(cfg.registry, a, b) == Contradictory
  }

  // ---- tension ----

  function Strength(cfg: Config, a: Motif, b: Motif): real {
    var bySimilarity := RealMax(0.0, 1.0 - Cosine(cfg.registry.norm, a.vector, b.vector));
    if Contradicts(cfg, a.id, b.id) then RealMax(bySimilarity, 1.0) else bySimilarity
  }

  /** Half of a contradiction is felt at once, all of it at maturity. */
  function DurationFactor(cfg: Config, duration: nat): real {
    0.5 + 0.5 * RealMin(1.0, duration as real / cfg.maturation as real)
  }

  function Joint(a: Motif, b: Motif): real {
    a.intensity * b.intensity
  }

  function Felt(strength: real, product: real, factor: real): real {
    RealMin(1.0, strength * product * factor)
  }

  function Tension(cfg: Config, a: Motif, b: Motif, duration: nat): real {
    Felt(Strength(cfg, a, b), Joint(a, b), DurationFactor(cfg, duration))
  }

  // ---- detection ----

  predicate Detectable(cfg: Config, ps: seq<Paradox>, a: Motif, b: Motif) {
    !Tracked(ps, PairId(a.id, b.id)) && Contradicts(cfg, a.id, b.id)
    && a.intensity > 0.1 && b.intensity > 0.1
  }

  function Newborn(cfg: Config, a: Motif, b: Motif, tick: nat): Paradox {
    var tension := Tension(cfg, a, b, 0);
    Paradox(PairId(a.id, b.id), a, b, tension, 0, true, false, tick, tension, false)
  }

  function DetectPair(cfg: Config, ps: seq<Paradox>, a: Motif, b: Motif, tick: nat): seq<Paradox> {
    if Detectable(cfg, ps, a, b) then ps + [Newborn(cfg, a, b, tick)] else ps
  }

  /** The pairs (i, i+1) to (i, end-1), in that order. */
  function DetectRow(cfg: Config, ps: seq<Paradox>, live: seq<Motif>, i: nat, end: nat, tick: nat): seq<Paradox>
    requires end <= |live|
  {
    if end <= i + 1 then ps
    else DetectPair(cfg, DetectRow(cfg, ps, live, i, end - 1, tick), live[i], live[end - 1], tick)
  }

  /** All pairs whose first component is among the first n motifs. */
  function DetectRows(cfg: Config, ps: seq<Paradox>, live: seq<Motif>, n: nat, tick: nat): seq<Paradox>
    requires n <= |live|
  {
    if n == 0 then ps
    else DetectRow(cfg, DetectRows(cfg, ps, live, n - 1, tick), live, n - 1, |live|, tick)
  }

  function Detect(cfg: Config, ps: seq<Paradox>, live: seq<Motif>, tick: nat): seq<Paradox> {
    DetectRows(cfg, ps, live, |live|, tick)
  }

  // ---- update ----

  /** The last motif of that id, as a dictionary built from the list would hold it. */
  function Lookup(live: seq<Motif>, id: string): (r: Option<Motif>)
    ensures r.Some? ==> r.value in live && r.value.id == id
    ensures r.None? ==> forall m <- live :: m.id != id
  {
    if live == [] then None
    else
      var last := live[|live| - 1];
      assert live == live[..|live| - 1] + [last];
      if last.id == id then Some(last) else Lookup(live[..|live| - 1], id)
  }

  /** A copy of the live motif when there is one, otherwise the old copy decayed. */
  function Refreshed(m: Motif, live: seq<Motif>): Motif {
    match Lookup(live, m.id)
    case Some(current) => current
    case None => m.Decayed()
  }

  function RefreshedPair(p: Paradox, live: seq<Motif>): Paradox {
    p.(a := Refreshed(p.a, live), b := Refreshed(p.b, live))
  }

  /** One more tick at the given tension. */
  function Sustained(cfg: Config, p: Paradox, tension: real): Paradox {
    p.(
      tension := tension,
      duration := p.duration + 1,
      peakTension := RealMax(p.peakTension, tension),
      maturationCandidate :=
        p.maturationCandidate || (p.duration + 1 >= cfg.maturation && tension > 0.2))
  }

  function Update(cfg: Config, p: Paradox, live: seq<Motif>): Paradox {
    var refreshed := RefreshedPair(p, live);
    if refreshed.Alive() then
      Sustained(cfg, refreshed, Tension(cfg, refreshed.a, refreshed.b, p.duration))
    else refreshed
  }

  // ---- persistence ----

  function Ratio(a: Motif, b: Motif): (r: real)
    requires a.Alive() && b.Alive()
    ensures r > 0.0
  {
    QuotientBounds(a.intensity, b.intensity + EPSILON, 0.0);
    a.intensity / (b.intensity + EPSILON)
  }

  function BoostFactor(dominance: real): real {
    RealMin(1.5, dominance * 0.6)
  }

  function Enforce(cfg: Config, p: Paradox): Paradox {
    if !p.Alive() then p
    else
      var ratio := Ratio(p.a, p.b);
      if ratio > cfg.blockRatio then
        p.(b := p.b.Boosted(BoostFactor(ratio)), resolutionBlocked := true)
      else if 1.0 / ratio > cfg.blockRatio then
        p.(a := p.a.Boosted(BoostFactor(1.0 / ratio)), resolutionBlocked := true)
      else p.(resolutionBlocked := false)
  }

  // ---- emergence ----

  predicate Emerges(cfg: Config, p: Paradox) {
    p.maturationCandidate && !p.emerged
    && p.duration >= cfg.maturation && p.tension > 0.2 && p.Alive()
  }

  function AfterEmergence(cfg: Config, p: Paradox): Paradox {
    if Emerges(cfg, p) then p.(emerged := true) else p
  }

  function EventOf(p: Paradox, tick: nat): Event {
    Event(p.id, tick, p.tension, p.duration, p.a.id, p.b.id)
  }

  function Events(cfg: Config, ps: seq<Paradox>, tick: nat): seq<Event> {
    if ps == [] then []
    else
      Events(cfg, ps[..|ps| - 1], tick)
      + if Emerges(cfg, ps[|ps| - 1]) then [EventOf(ps[|ps| - 1], tick)] else []
  }

  // ---- score ----

  function Weight(cfg: Config, duration: nat): (r: real)
    ensures 0.0 <= r <= cfg.maturation as real
  {
    if duration < cfg.maturation then duration as real else cfg.maturation as real
  }

  /** Tension times duration, the latter counted up to maturation. */
  function Held(cfg: Config, p: Paradox): real {
    p.tension * Weight(cfg, p.duration)
  }

  function Scores(cfg: Config, ps: seq<Paradox>): (r: seq<real>)
    ensures |r| <= |ps|
  {
    if ps == [] then []
    else
      var p := ps[|ps| - 1];
      Scores(cfg, ps[..|ps| - 1])
      + if p.Alive() then [Held(cfg, p)] else []
  }

  function Sum(s: seq<real>): real {
    if s == [] then 0.0 else Sum(s[..|s| - 1]) + s[|s| - 1]
  }

  function Score(cfg: Config, ps: seq<Paradox>): real {
    var scores := Scores(cfg, ps);
    if scores == [] then 0.0 else Sum(scores) / |scores| as real
  }

  // ---- one tick ----

  predicate MotifAlive(m: Motif) { m.Alive() }

  predicate Remembered(p: Paradox) { !p.Dead() }

  function Survivors(live: seq<Motif>): seq<Motif> {
    Filter(seq(|live|, i requires 0 <= i < |live| => live[i].Decayed()), MotifAlive)
  }

  /** A tracked paradox after update, persistence and emergence. */
  function Advance(cfg: Config, p: Paradox, live: seq<Motif>): Paradox {
    AfterEmergence(cfg, Enforce(cfg, Update(cfg, p, live)))
  }

  function Enforced(cfg: Config, ps: seq<Paradox>, live: seq<Motif>): (r: seq<Paradox>)
    ensures |r| == |ps|
    ensures forall i :: 0 <= i < |r| ==> r[i] == Enforce(cfg, Update(cfg, ps[i], live))
  {
    seq(|ps|, i requires 0 <= i < |ps| => Enforce(cfg, Update(cfg, ps[i], live)))
  }

  function Settled(cfg: Config, ps: seq<Paradox>): (r: seq<Paradox>)
    ensures |r| == |ps|
    ensures forall i :: 0 <= i < |r| ==> r[i] == AfterEmergence(cfg, ps[i])
  {
    seq(|ps|, i requires 0 <= i < |ps| => AfterEmergence(cfg, ps[i]))
  }

  function Cleaned(ps: seq<Paradox>): seq<Paradox> {
    Filter(ps, Remembered)
  }

  function Tick(cfg: Config, e: Engine, active: seq<Motif>): Engine {
    var tick := e.tickCount + 1;
    var live := Survivors(active);
    var enforced := Enforced(cfg, Detect(cfg, e.paradoxes, live, tick), live);
    var kept := Cleaned(Settled(cfg, enforced));
    Engine(kept, tick, e.tensionHistory + [Score(cfg, kept)], e.emergenceLog + Events(cfg, enforced, tick))
  }

  /** A run: one tick for each list of active motifs handed in. */
  function Run(cfg: Config, e: Engine, inputs: seq<seq<Motif>>): Engine {
    if inputs == [] then e
    else Tick(cfg, Run(cfg, e, inputs[..|inputs| - 1]), inputs[|inputs| - 1])
  }
}
