/**
 The agent-facing driver (paradox-engine/api.py): it owns the live motifs, hands them to the
 engine at each tick and drops the dead ones. Whatever the agent activates, sets or deactivates
 between ticks, the engine stays in a state satisfying the invariant of ParadoxRuns.
 */
module ParadoxApi {
  import opened Wrappers
  import opened Registry
  import M = ParadoxModel
  import Runs = ParadoxRuns
  import Quiescence = ParadoxQuiescence
  import opened ParadoxEngine

  datatype ApiError = UnknownMotif | NotActive | IntensityOutOfRange

  /** The position of the motif of that id, or the length of the list. */
  function Position(ms: seq<M.Motif>, id: string): (k: nat)
    ensures k <= |ms| && (k < |ms| ==> ms[k].id == id)
    ensures forall i :: 0 <= i < k ==> ms[i].id != id
  {
    if ms == [] || ms[0].id == id then 0 else 1 + Position(ms[1..], id)
  }

  /** A dictionary assignment: the old entry is replaced in place, a new one comes last. */
  function Assigned(ms: seq<M.Motif>, m: M.Motif): seq<M.Motif> {
    var k := Position(ms, m.id);
    if k < |ms| then ms[k := m] else ms + [m]
  }

  /** The motif of that id is the new one, every other stays in its place. */
  lemma AssignedExactly(ms: seq<M.Motif>, m: M.Motif)
    requires forall i, j :: 0 <= i < j < |ms| ==> ms[i].id != ms[j].id
    ensures var after := Assigned(ms, m);
            && |ms| <= |after| <= |ms| + 1
            && (|after| > |ms| <==> forall i :: 0 <= i < |ms| ==> ms[i].id != m.id)
            && (|after| > |ms| ==> after[|ms|] == m)
            && forall i :: 0 <= i < |ms| ==> after[i] == if ms[i].id == m.id then m else ms[i]
  {}

  function Clamped(x: real): (r: real)
    ensures 0.0 <= r <= 1.0 && (0.0 <= x <= 1.0 ==> r == x) && (x < 0.0 ==> r == 0.0) && (x > 1.0 ==> r == 1.0)
  {
    if x < 0.0 then 0.0 else if x > 1.0 then 1.0 else x
  }

  function FromTemplate(cfg: M.Config, id: string, intensity: real): M.Motif
    requires id in cfg.registry.taxonomy
  {
    var template := cfg.registry.taxonomy[id];
    M.Motif(id, intensity, template.decayRate, template.vector)
  }

  ghost predicate UniqueNames(ms: seq<MotifState>) {
    forall i, j :: 0 <= i < j < |ms| ==> ms[i].id != ms[j].id
  }

  class SomaticStateApi {
    const engine: ParadoxEngine
    var activeMotifs: seq<MotifState>

    ghost predicate Valid()
      reads this, engine, engine.Repr, activeMotifs
    {
      && engine.Valid() && this !in engine.Repr && engine !in engine.Repr
      && engine.Repr !! (set m | m in activeMotifs)
      && UniqueNames(activeMotifs)
      && M.Known(engine.cfg, MotifValues(activeMotifs))
      && Runs.Inv(engine.cfg, engine.Model())
    }

    constructor (cfg: M.Config)
      ensures Valid() && engine.cfg == cfg && fresh(engine)
      ensures engine.Model() == M.Initial && activeMotifs == []
    {
      engine := new ParadoxEngine(cfg);
      activeMotifs := [];
    }

    method ActivateMotif(id: string, intensity: real) returns (result: Result<MotifState, ApiError>)
      requires Valid()
      modifies this
      ensures Valid() && engine.Model() == old(engine.Model())
      ensures result.Ok? <==> id in engine.cfg.registry.taxonomy && 0.0 <= intensity <= 1.0
      ensures result.Ok? ==>
                MotifValues(activeMotifs)
                == Assigned(old(MotifValues(activeMotifs)), FromTemplate(engine.cfg, id, intensity))
      ensures result.Ok? ==>
                && result.value in activeMotifs && fresh(result.value)
                && var template := engine.cfg.registry.taxonomy[id];
                result.value.Value() == M.Motif(id, intensity, template.decayRate, template.vector)
      ensures result.Err? ==> activeMotifs == old(activeMotifs)
      ensures result == Err(UnknownMotif) <==> id !in engine.cfg.registry.taxonomy
    {
      hide Runs.Inv, ParadoxEngine.Model, ParadoxEngine.Valid;
      hide Assigned, UniqueNames, MotifValues, M.Known;
      if id !in engine.cfg.registry.taxonomy {
        return Err(UnknownMotif);
      }
      if !(0.0 <= intensity <= 1.0) {
        return Err(IntensityOutOfRange);
      }
      var motif := new MotifState(FromTemplate(engine.cfg, id, intensity));
      var k := Index(id);
      ghost var before := activeMotifs;
      TemplateKnown(engine.cfg, id, intensity);
      if k < |activeMotifs| {
        activeMotifs := activeMotifs[k := motif];
      } else {
        activeMotifs := activeMotifs + [motif];
      }
      AssignmentKeeps(engine.cfg, before, k, motif, activeMotifs);
      result := Ok(motif);
    }

    method Index(id: string) returns (k: nat)
      ensures k <= |activeMotifs| && (k < |activeMotifs| ==> activeMotifs[k].id == id)
      ensures forall i :: 0 <= i < k ==> activeMotifs[i].id != id
    {
      k := 0;
      while k < |activeMotifs| && activeMotifs[k].id != id
        invariant k <= |activeMotifs| && forall i :: 0 <= i < k ==> activeMotifs[i].id != id
      {
        k := k + 1;
      }
    }

    method SetIntensity(id: string, intensity: real) returns (result: Result<(), ApiError>)
      requires Valid()
      modifies activeMotifs
      ensures Valid() && engine.Model() == old(engine.Model())
      ensures result.Ok? <==> exists m :: m in activeMotifs && m.id == id
      ensures result.Err? ==> result.error == NotActive
      ensures forall m <- activeMotifs ::
                m.Value() == if m.id == id then old(m.Value()).(intensity := Clamped(intensity)) else old(m.Value())
    {
      hide Runs.Inv, ParadoxEngine.Model, ParadoxEngine.Valid;
      var k := Index(id);
      if k == |activeMotifs| {
        return Err(NotActive);
      }
      activeMotifs[k].intensity := Clamped(intensity);
      result := Ok(());
    }

    method DeactivateMotif(id: string)
      requires Valid()
      modifies this
      ensures Valid() && engine.Model() == old(engine.Model())
      ensures forall m :: m in activeMotifs <==> m in old(activeMotifs) && m.id != id
    {
      hide Runs.Inv, ParadoxEngine.Model, ParadoxEngine.Valid;
      var k := Index(id);
      if k < |activeMotifs| {
        activeMotifs := activeMotifs[..k] + activeMotifs[k + 1..];
      }
    }

    /** One engine tick on all live motifs; the dead ones are dropped. */
    method Tick()
      requires Valid()
      modifies this, engine, engine.Repr, activeMotifs
      ensures Valid()
      ensures engine.Model() == M.Tick(engine.cfg, old(engine.Model()), old(MotifValues(activeMotifs)))
      ensures MotifValues(activeMotifs) == M.Survivors(old(MotifValues(activeMotifs)))
    {
      hide Runs.Inv, ParadoxEngine.Model, ParadoxEngine.Valid, M.Tick, M.Survivors;
      var motifs := activeMotifs;
      Runs.TickKeeps(engine.cfg, engine.Model(), MotifValues(motifs));
      Quiescence.DriftKnown(engine.cfg, MotifValues(motifs));
      var live := engine.Tick(motifs);
      activeMotifs := live;
    }
  }

  lemma PositionIs(ms: seq<MotifState>, id: string, k: nat)
    requires k <= |ms| && (k < |ms| ==> ms[k].id == id)
    requires forall i :: 0 <= i < k ==> ms[i].id != id
    ensures Position(MotifValues(ms), id) == k
  {}

  lemma TemplateKnown(cfg: M.Config, id: string, intensity: real)
    requires id in cfg.registry.taxonomy && 0.0 <= intensity <= 1.0
    ensures var m := FromTemplate(cfg, id, intensity); m.id == id && m.InRange()
  {}

  /** What an assignment into the dictionary of active motifs keeps. */
  lemma AssignmentKeeps(cfg: M.Config, before: seq<MotifState>, k: nat, motif: MotifState, after: seq<MotifState>)
    requires UniqueNames(before) && M.Known(cfg, MotifValues(before))
    requires motif.id in cfg.registry.taxonomy && motif.Value().InRange()
    requires k <= |before| && (k < |before| ==> before[k].id == motif.id)
    requires forall i :: 0 <= i < k ==> before[i].id != motif.id
    requires after == if k < |before| then before[k := motif] else before + [motif]
    ensures UniqueNames(after) && M.Known(cfg, MotifValues(after))
    ensures MotifValues(after) == Assigned(MotifValues(before), motif.Value())
    ensures motif in after && forall m <- after :: m in before || m == motif
  {
    hide M.Known;
    assert after[k] == motif;
    AssignmentIs(before, k, motif, after);
    var was, now := MotifValues(before), MotifValues(after);
    forall m | m in now ensures m in was || m == motif.Value() {
      var i :| 0 <= i < |now| && now[i] == m;
      assert i < |was| && i != k ==> was[i] == m;
    }
    KnownMore(cfg, was, now, motif.Value());
  }

  lemma KnownMore(cfg: M.Config, was: seq<M.Motif>, now: seq<M.Motif>, m: M.Motif)
    requires M.Known(cfg, was) && m.id in cfg.registry.taxonomy && m.InRange()
    requires forall x :: x in now ==> x in was || x == m
    ensures M.Known(cfg, now)
  {}

  lemma AssignmentIs(before: seq<MotifState>, k: nat, motif: MotifState, after: seq<MotifState>)
    requires k <= |before| && (k < |before| ==> before[k].id == motif.id)
    requires forall i :: 0 <= i < k ==> before[i].id != motif.id
    requires after == if k < |before| then before[k := motif] else before + [motif]
    ensures MotifValues(after) == Assigned(MotifValues(before), motif.Value())
  {
    PositionIs(before, motif.id, k);
  }
}
