/**
 The critic (forge_explore/critic.ts): a bounded loop that moves a hypothesis's confidence by a fixed
 step inside two caps.
 */
module Critic {
  import opened ExplorationTypes
  import opened Reals

  datatype CriticResult = CriticResult(revised: Hypothesis, confidenceDelta: real, verified: bool, cycles: int)

  const MAX_CYCLES := 3
  const CONFIDENCE_FLOOR := 0.03
  const CONFIDENCE_CEILING := 0.90

  /** What one critique adds to the confidence. */
  function Delta(h: Hypothesis): real {
    var penalty := if |h.contradicting| > 0 then -0.05 * |h.contradicting| as real else 0.0;
    if |h.supporting| > 0 && |h.contradicting| == 0
    then penalty + 0.02 * (if |h.supporting| < 3 then |h.supporting| else 3) as real
    else penalty
  }

  function Clamp(floor: real, ceiling: real, x: real): real {
    RealMax(floor, RealMin(ceiling, x))
  }

  /** n critiques one after the other, each clamped. */
  function Iterate(floor: real, ceiling: real, delta: real, c: real, n: nat): real {
    if n == 0 then c else Clamp(floor, ceiling, Iterate(floor, ceiling, delta, c, n - 1) + delta)
  }

  predicate HasEvidence(h: Hypothesis) {
    h.supporting != [] || h.contradicting != []
  }

  /** Cycles run: all of them with evidence, a single one without. */
  function CyclesRun(h: Hypothesis, maxCycles: int): nat {
    if maxCycles <= 0 then 0 else if HasEvidence(h) then maxCycles else 1
  }

  function Revised(h: Hypothesis, maxCycles: int, floor: real, ceiling: real): Hypothesis {
    h.(confidence := Iterate(floor, ceiling, Delta(h), h.confidence, CyclesRun(h, maxCycles)))
  }

  /** The step is positive, zero or negative by the kind of evidence, and never small when there is any. */
  lemma {:induction false} DeltaSign(h: Hypothesis)
    ensures Delta(h) > 0.0 <==> h.contradicting == [] && h.supporting != []
    ensures Delta(h) < 0.0 <==> h.contradicting != []
    ensures HasEvidence(h) <==> Delta(h) >= 0.02 || Delta(h) <= -0.02
    ensures !HasEvidence(h) <==> Delta(h) == 0.0
  {
    if |h.contradicting| > 0 {
      assert |h.contradicting| as real >= 1.0;
    } else if |h.supporting| > 0 {
      assert (if |h.supporting| < 3 then |h.supporting| else 3) as real >= 1.0;
    }
  }

  /**
   The step, exactly: five hundredths down for each contradiction; without any, two hundredths up for
   each of the first three supports.
   */
  lemma {:induction false} DeltaExactly(h: Hypothesis, more: string)
    ensures h.supporting == [] && h.contradicting == [] ==> Delta(h) == 0.0
    ensures Delta(h.(contradicting := h.contradicting + [more]))
         == (if h.contradicting == [] then 0.0 else Delta(h)) - 0.05
    ensures h.contradicting != [] ==> Delta(h.(supporting := h.supporting + [more])) == Delta(h)
    ensures h.contradicting == [] ==>
              Delta(h.(supporting := h.supporting + [more])) == Delta(h) + if |h.supporting| < 3 then 0.02 else 0.0
  {
    var n := |h.contradicting|;
    assert |h.contradicting + [more]| == n + 1 && (n + 1) as real == n as real + 1.0;
    assert -0.05 * (n as real + 1.0) == -0.05 * n as real - 0.05;
  }

  /** How far n steps move without the caps. */
  function Moved(delta: real, n: nat): real {
    n as real * delta
  }

  lemma MovedOnce(delta: real, n: nat)
    ensures Moved(delta, 0) == 0.0 && Moved(delta, n + 1) == Moved(delta, n) + delta
    ensures delta >= 0.0 ==> Moved(delta, n) >= 0.0
    ensures delta <= 0.0 ==> Moved(delta, n) <= 0.0
  {
    assert (n + 1) as real == n as real + 1.0;
  }

  lemma MovedNowhere(n: nat)
    ensures Moved(0.0, n) == 0.0
  {}

  lemma ClampInRange(floor: real, ceiling: real, x: real)
    requires floor <= ceiling
    ensures floor <= Clamp(floor, ceiling, x) <= ceiling
    ensures floor <= x <= ceiling ==> Clamp(floor, ceiling, x) == x
  {}

  /** From within the caps, two moves the same way can be clamped once at the end. */
  lemma {:induction false} ClampStep(floor: real, ceiling: real, c: real, x: real, y: real)
    requires floor <= c <= ceiling && ((x >= 0.0 && y >= 0.0) || (x <= 0.0 && y <= 0.0))
    ensures Clamp(floor, ceiling, Clamp(floor, ceiling, c + x) + y) == Clamp(floor, ceiling, c + x + y)
  {}

  /**
   The closed form of the loop from any starting confidence: clamp the first step, then all the remaining
   steps at once. From a confidence already within the caps, the whole run is one clamped step of n deltas.
   */
  lemma {:induction false} ClosedForm(floor: real, ceiling: real, delta: real, c: real, n: nat)
    requires floor <= ceiling && n > 0
    ensures Iterate(floor, ceiling, delta, c, n)
         == Clamp(floor, ceiling, Clamp(floor, ceiling, c + delta) + Moved(delta, n - 1))
    ensures floor <= c <= ceiling ==>
              Iterate(floor, ceiling, delta, c, n) == Clamp(floor, ceiling, c + Moved(delta, n))
  {
    hide Clamp, Moved;
    var first := Clamp(floor, ceiling, c + delta);
    ClampInRange(floor, ceiling, c + delta);
    MovedOnce(delta, n - 1);
    if n == 1 {
      assert Iterate(floor, ceiling, delta, c, 0) == c;
      ClampInRange(floor, ceiling, first);
    } else {
      ClosedForm(floor, ceiling, delta, c, n - 1);
      MovedOnce(delta, n - 2);
      ClampStep(floor, ceiling, first, Moved(delta, n - 2), delta);
    }
    if floor <= c <= ceiling {
      ClampStep(floor, ceiling, c, delta, Moved(delta, n - 1));
    }
  }

  /** Stopping and resuming is the same as running on. */
  lemma {:induction false} ResumesWhereItStopped(floor: real, ceiling: real, delta: real, c: real, m: nat, n: nat)
    ensures Iterate(floor, ceiling, delta, Iterate(floor, ceiling, delta, c, m), n)
         == Iterate(floor, ceiling, delta, c, m + n)
  {
    if n > 0 {
      ResumesWhereItStopped(floor, ceiling, delta, c, m, n - 1);
    }
  }

  /**
   A critique of at least one cycle verifies a hypothesis, that is raises its confidence, exactly when it
   has support, no contradiction and a confidence below the ceiling, or starts below the floor.
   */
  lemma {:induction false} VerifiedExactly(h: Hypothesis, maxCycles: int, floor: real, ceiling: real)
    requires floor <= ceiling && maxCycles > 0
    ensures Revised(h, maxCycles, floor, ceiling).confidence > h.confidence
        <==> h.confidence < floor || (h.supporting != [] && h.contradicting == [] && h.confidence < ceiling)
    ensures floor <= Revised(h, maxCycles, floor, ceiling).confidence <= ceiling
  {
    hide Delta, Iterate, Moved;
    DeltaSign(h);
    var n := CyclesRun(h, maxCycles);
    ClosedForm(floor, ceiling, Delta(h), h.confidence, n);
    MovedOnce(Delta(h), n - 1);
  }

  /** Within the caps the revised confidence is one clamped step of the cycles run times the delta. */
  lemma {:induction false} RevisedClosedForm(h: Hypothesis, maxCycles: int)
    requires maxCycles > 0 && CONFIDENCE_FLOOR <= h.confidence <= CONFIDENCE_CEILING
    ensures Revised(h, maxCycles, CONFIDENCE_FLOOR, CONFIDENCE_CEILING).confidence
         == Clamp(CONFIDENCE_FLOOR, CONFIDENCE_CEILING, h.confidence + Moved(Delta(h), maxCycles))
  {
    DeltaSign(h);
    var n := CyclesRun(h, maxCycles);
    ClosedForm(CONFIDENCE_FLOOR, CONFIDENCE_CEILING, Delta(h), h.confidence, n);
    if !HasEvidence(h) {
      MovedNowhere(1);
      MovedNowhere(maxCycles);
    }
  }

  method CritiqueHypothesis(h: Hypothesis) returns (statement: string, confidenceDelta: real)
    ensures statement == h.statement && confidenceDelta == Delta(h)
  {
    confidenceDelta := 0.0;
    if |h.contradicting| > 0 {
      confidenceDelta := confidenceDelta - 0.05 * |h.contradicting| as real;
    }
    if |h.supporting| > 0 && |h.contradicting| == 0 {
      confidenceDelta := confidenceDelta + 0.02 * (if |h.supporting| < 3 then |h.supporting| else 3) as real;
    }
    statement := h.statement;
  }

  method Falsify(h: Hypothesis, maxCycles: int, floor: real, ceiling: real) returns (r: CriticResult)
    ensures r.revised == Revised(h, maxCycles, floor, ceiling)
    ensures r.cycles == CyclesRun(h, maxCycles)
    ensures r.cycles == if maxCycles <= 0 then 0
                        else if h.supporting == [] && h.contradicting == [] then 1 else maxCycles
    ensures r.confidenceDelta == r.revised.confidence - h.confidence
    ensures r.verified <==> r.confidenceDelta > 0.0
  {
    DeltaSign(h);
    var current := h;
    var cycles := 0;
    while cycles < maxCycles
      invariant 0 <= cycles && (maxCycles <= 0 ==> cycles == 0) && (maxCycles > 0 ==> cycles <= maxCycles)
      invariant cycles > 0 ==> HasEvidence(h)
      invariant current == h.(confidence := Iterate(floor, ceiling, Delta(h), h.confidence, cycles))
    {
      var statement, delta := CritiqueHypothesis(current);
      assert delta == Delta(h);
      var newConfidence := RealMax(floor, RealMin(ceiling, current.confidence + delta));
      current := current.(statement := statement, confidence := newConfidence);
      cycles := cycles + 1;
      if |current.supporting| == 0 && |current.contradicting| == 0 {
        break;
      }
      if -0.01 < delta < 0.01 {
        break;
      }
    }
    r := CriticResult(current, current.confidence - h.confidence, current.confidence > h.confidence, cycles);
  }

  /** Every hypothesis is revised on its own, in order; nothing but its confidence changes. */
  method FalsifyAll(hypotheses: seq<Hypothesis>, maxCycles: int) returns (revised: seq<Hypothesis>)
    ensures |revised| == |hypotheses|
    ensures forall i :: 0 <= i < |revised| ==>
              revised[i] == Revised(hypotheses[i], maxCycles, CONFIDENCE_FLOOR, CONFIDENCE_CEILING)
  {
    revised := [];
    for i := 0 to |hypotheses|
      invariant |revised| == i
      invariant forall k :: 0 <= k < i ==>
                  revised[k] == Revised(hypotheses[k], maxCycles, CONFIDENCE_FLOOR, CONFIDENCE_CEILING)
    {
      var r := Falsify(hypotheses[i], maxCycles, CONFIDENCE_FLOOR, CONFIDENCE_CEILING);
      revised := revised + [r.revised];
    }
  }
}
