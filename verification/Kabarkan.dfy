/**
 The Kabarkan worker (kabarkan/worker.py): a fetch loop appends messages to a batch, a timer
 flushes the batch to a table. The two tasks interleave at their awaits, so a step below is the
 code between two awaits. History fields record what the counters alone do not tell.
 */
module Kabarkan {
  import opened Wrappers

  datatype Record = Record(id: string, fields: string)

  type Table = map<string, Record>

  /** What decoding a message yields. */
  datatype Decoded = Good(record: Record) | MissingFields | BadJson | OtherError

  /** Where the handler of the current message is suspended. */
  datatype Handler =
    | Idle
    | AckAppended              // message in the batch, inside the try block
    | AckInvalid               // required fields missing, inside the try block
    | AckRejected              // inside an except clause, message not in the batch
    | AckAfterAppend           // inside the last except clause, message in the batch

  datatype Flusher = Sleeping | Writing(records: seq<Record>) | Stopped

  datatype Outcome = Written | Failed | NoPool | Cancelled(applied: bool)

  datatype Flush = Flush(records: seq<Record>, outcome: Outcome)

  datatype Config = Config(batchMaxSize: int, window: real, hasPool: bool)

  datatype State = State(
    batch: seq<Record>,
    deadline: real,
    received: nat,
    processed: nat,
    failed: nat,
    batchesFlushed: nat,
    handler: Handler,
    flusher: Flusher,
    table: Table,
    accepted: seq<Record>,     // every record appended to a batch, in order of arrival
    history: seq<Flush>,       // every batch taken off and settled, in order
    doubled: nat,              // messages counted as failed although they are in a batch
    uncounted: nat)            // rejected messages whose last ack raised

  function Start(table: Table): State {
    State([], 0.0, 0, 0, 0, 0, Idle, Sleeping, table, [], [], 0, 0)
  }

  datatype Step =
    | Receive(decoded: Decoded, now: real)
    | AckReturns
    | AckRaises
    | TimerCheck(now: real)
    | WriteReturns
    | WriteRaises
    | Cancel(applied: bool)

  // ---- the table ----

  /** INSERT … ON CONFLICT (id) DO NOTHING */
  function Insert(table: Table, r: Record): Table {
    if r.id in table then table else table[r.id := r]
  }

  function InsertAll(table: Table, records: seq<Record>): Table {
    if records == [] then table
    else Insert(InsertAll(table, records[..|records| - 1]), records[|records| - 1])
  }

  // ---- the steps ----

  /** The wait for the first record is over when the clock plus the window is reached. */
  predicate Enabled(cfg: Config, s: State, step: Step) {
    match step
    case Receive(_, now) => s.handler.Idle? && !s.flusher.Stopped? && now + cfg.window > 0.0
    case AckReturns => !s.handler.Idle?
    case AckRaises => !s.handler.Idle?
    case TimerCheck(_) => s.flusher.Sleeping?
    case WriteReturns => s.flusher.Writing?
    case WriteRaises => s.flusher.Writing?
    case Cancel(_) => !s.flusher.Stopped? && s.handler.Idle?
  }

  function Received(cfg: Config, s: State, decoded: Decoded, now: real): State {
    var counted := s.(received := s.received + 1);
    match decoded
    case Good(r) =>
      counted.(
        batch := s.batch + [r],
        deadline := if s.deadline == 0.0 then now + cfg.window else s.deadline,
        accepted := s.accepted + [r],
        handler := AckAppended)
    case MissingFields => counted.(handler := AckInvalid)
    case BadJson => counted.(handler := AckRejected)
    case OtherError => counted.(handler := AckRejected)
  }

  function Acked(s: State): State {
    match s.handler
    case AckAppended => s.(handler := Idle)
    case AckAfterAppend => s.(handler := Idle, failed := s.failed + 1, doubled := s.doubled + 1)
    case _ => s.(handler := Idle, failed := s.failed + 1)
  }

  /** An ack that raises inside the try block is retried by the last except clause. */
  function AckFailed(s: State): State {
    match s.handler
    case AckAppended => s.(handler := AckAfterAppend)
    case AckInvalid => s.(handler := AckRejected)
    case AckRejected => s.(handler := Idle, uncounted := s.uncounted + 1)
    case _ => s.(handler := Idle)
  }

  predicate FlushDue(cfg: Config, s: State, now: real) {
    s.batch != [] && (|s.batch| >= cfg.batchMaxSize || (s.deadline > 0.0 && now >= s.deadline))
  }

  /** The batch is taken off at once; without a pool it goes nowhere. */
  function TimerChecked(cfg: Config, s: State, now: real): State {
    if !FlushDue(cfg, s, now) then s
    else
      var taken := s.(batch := [], deadline := 0.0);
      if cfg.hasPool then taken.(flusher := Writing(s.batch))
      else taken.(batchesFlushed := s.batchesFlushed + 1, history := s.history + [Flush(s.batch, NoPool)])
  }

  function WriteSettled(s: State, written: bool): State
    requires s.flusher.Writing?
  {
    var records := s.flusher.records;
    var settled := s.(flusher := Sleeping, batchesFlushed := s.batchesFlushed + 1);
    if written then
      settled.(
        table := InsertAll(s.table, records),
        processed := s.processed + |records|,
        history := s.history + [Flush(records, Written)])
    else
      settled.(failed := s.failed + |records|, history := s.history + [Flush(records, Failed)])
  }

  /** Shutdown cancels the timer task; a write under way may or may not have reached the table. */
  function CancelledAt(s: State, applied: bool): State {
    var stopped := s.(flusher := Stopped);
    if s.flusher.Writing? then
      stopped.(
        table := if applied then InsertAll(s.table, s.flusher.records) else s.table,
        history := s.history + [Flush(s.flusher.records, Cancelled(applied))])
    else stopped
  }

  function Next(cfg: Config, s: State, step: Step): State
    requires Enabled(cfg, s, step)
  {
    match step
    case Receive(decoded, now) => Received(cfg, s, decoded, now)
    case AckReturns => Acked(s)
    case AckRaises => AckFailed(s)
    case TimerCheck(now) => TimerChecked(cfg, s, now)
    case WriteReturns => WriteSettled(s, true)
    case WriteRaises => WriteSettled(s, false)
    case Cancel(applied) => CancelledAt(s, applied)
  }

  ghost predicate IsRun(cfg: Config, table: Table, states: seq<State>, steps: seq<Step>) {
    && |states| == |steps| + 1 && states[0] == Start(table)
    && forall i :: 0 <= i < |steps| ==>
         Enabled(cfg, states[i], steps[i]) && states[i + 1] == Next(cfg, states[i], steps[i])
  }

  // ---- what every run keeps ----

  function InFlight(s: State): seq<Record> {
    if s.flusher.Writing? then s.flusher.records else []
  }

  /** The records of the settled batches with the chosen outcomes, in order. */
  function Flat(history: seq<Flush>, chosen: Outcome -> bool): seq<Record> {
    if history == [] then []
    else
      var last := history[|history| - 1];
      Flat(history[..|history| - 1], chosen) + if chosen(last.outcome) then last.records else []
  }

  predicate AnyOutcome(o: Outcome) { true }
  predicate Applied(o: Outcome) { o == Written || o == Cancelled(true) }
  predicate Counted(o: Outcome) { o == Written }
  predicate Lost(o: Outcome) { o == NoPool || o.Cancelled? }

  /** One message is between its arrival and its failed count. */
  function BeingRejected(s: State): nat {
    if s.handler.AckInvalid? || s.handler.AckRejected? then 1 else 0
  }

  ghost predicate Conserved(s: State) {
    s.accepted == Flat(s.history, AnyOutcome) + InFlight(s) + s.batch
  }

  ghost predicate Accounted(s: State) {
    s.received + s.doubled
    == s.processed + s.failed + |InFlight(s)| + |s.batch| + |Flat(s.history, Lost)|
       + BeingRejected(s) + s.uncounted
  }

  ghost predicate Inv(cfg: Config, table: Table, s: State) {
    && Conserved(s)
    && s.table == InsertAll(table, Flat(s.history, Applied))
    && Accounted(s)
    && s.processed == |Flat(s.history, Counted)|
    && (s.batch == [] <==> s.deadline == 0.0)
    && s.deadline >= 0.0
  }

  lemma {:induction false} InsertAllAppend(table: Table, a: seq<Record>, b: seq<Record>)
    ensures InsertAll(table, a + b) == InsertAll(InsertAll(table, a), b)
  {
    if b == [] {
      assert a + b == a;
    } else {
      assert (a + b)[..|a + b| - 1] == a + b[..|b| - 1];
      InsertAllAppend(table, a, b[..|b| - 1]);
    }
  }

  lemma FlatAppend(history: seq<Flush>, flush: Flush, chosen: Outcome -> bool)
    ensures Flat(history + [flush], chosen)
         == Flat(history, chosen) + if chosen(flush.outcome) then flush.records else []
  {
    assert (history + [flush])[..|history|] == history;
  }

  lemma Settles(s: State, table: Table, flush: Flush)
    requires s.table == InsertAll(table, Flat(s.history, Applied))
    ensures Flat(s.history + [flush], AnyOutcome) == Flat(s.history, AnyOutcome) + flush.records
    ensures |Flat(s.history + [flush], Lost)|
         == |Flat(s.history, Lost)| + (if Lost(flush.outcome) then |flush.records| else 0)
    ensures |Flat(s.history + [flush], Counted)|
         == |Flat(s.history, Counted)| + (if Counted(flush.outcome) then |flush.records| else 0)
    ensures InsertAll(table, Flat(s.history + [flush], Applied))
         == if Applied(flush.outcome) then InsertAll(s.table, flush.records) else s.table
  {
    FlatAppend(s.history, flush, AnyOutcome);
    FlatAppend(s.history, flush, Lost);
    FlatAppend(s.history, flush, Counted);
    FlatAppend(s.history, flush, Applied);
    InsertAllAppend(table, Flat(s.history, Applied), flush.records);
    assert Flat(s.history, Applied) + [] == Flat(s.history, Applied);
  }

  lemma ReceiveKeeps(cfg: Config, table: Table, s: State, decoded: Decoded, now: real)
    requires Inv(cfg, table, s) && Enabled(cfg, s, Receive(decoded, now))
    ensures Inv(cfg, table, Received(cfg, s, decoded, now))
  {
    hide Flat, InsertAll;
    if decoded.Good? {
      assert Flat(s.history, AnyOutcome) + InFlight(s) + (s.batch + [decoded.record])
          == s.accepted + [decoded.record];
    }
  }

  lemma TimerKeeps(cfg: Config, table: Table, s: State, now: real)
    requires Inv(cfg, table, s) && s.flusher.Sleeping?
    ensures Inv(cfg, table, TimerChecked(cfg, s, now))
  {
    hide Flat, InsertAll;
    Settles(s, table, Flush(s.batch, NoPool));
    assert s.accepted + [] == s.accepted;
    assert Flat(s.history, AnyOutcome) + [] == Flat(s.history, AnyOutcome);
  }

  lemma WriteKeeps(cfg: Config, table: Table, s: State, written: bool)
    requires Inv(cfg, table, s) && s.flusher.Writing?
    ensures Inv(cfg, table, WriteSettled(s, written))
  {
    hide Flat, InsertAll;
    var flush := Flush(s.flusher.records, if written then Written else Failed);
    Settles(s, table, flush);
    assert Flat(s.history + [flush], AnyOutcome) + [] == Flat(s.history + [flush], AnyOutcome);
  }

  lemma CancelKeeps(cfg: Config, table: Table, s: State, applied: bool)
    requires Inv(cfg, table, s)
    ensures Inv(cfg, table, CancelledAt(s, applied))
  {
    hide Flat, InsertAll;
    if s.flusher.Writing? {
      var flush := Flush(s.flusher.records, Cancelled(applied));
      Settles(s, table, flush);
      assert Flat(s.history + [flush], AnyOutcome) + [] == Flat(s.history + [flush], AnyOutcome);
    }
  }

  /** Every step of either task, at every await, keeps conservation, accounting and the deadline rule. */
  lemma StepKeeps(cfg: Config, table: Table, s: State, step: Step)
    requires Inv(cfg, table, s) && Enabled(cfg, s, step)
    ensures Inv(cfg, table, Next(cfg, s, step))
  {
    hide Flat, InsertAll;
    match step
    case Receive(decoded, now) => ReceiveKeeps(cfg, table, s, decoded, now);
    case AckReturns =>
    case AckRaises =>
    case TimerCheck(now) => TimerKeeps(cfg, table, s, now);
    case WriteReturns => WriteKeeps(cfg, table, s, true);
    case WriteRaises => WriteKeeps(cfg, table, s, false);
    case Cancel(applied) => CancelKeeps(cfg, table, s, applied);
  }

  lemma {:induction false} RunKeeps(cfg: Config, table: Table, states: seq<State>, steps: seq<Step>, n: nat)
    requires IsRun(cfg, table, states, steps) && n <= |steps|
    ensures Inv(cfg, table, states[n])
  {
    if n > 0 {
      RunKeeps(cfg, table, states, steps, n - 1);
      StepKeeps(cfg, table, states[n - 1], steps[n - 1]);
    }
  }

  // ---- batching is transparent ----

  /** The first record of that id. */
  function FirstOf(records: seq<Record>, id: string): (r: Option<Record>)
    ensures r.Some? ==> r.value in records && r.value.id == id
    ensures r.None? ==> forall x <- records :: x.id != id
  {
    if records == [] then None
    else
      var init, last := records[..|records| - 1], records[|records| - 1];
      assert records == init + [last];
      var earlier := FirstOf(init, id);
      if earlier.Some? then earlier else if last.id == id then Some(last) else None
  }

  /** Inserting if absent: an id keeps its row, and otherwise gets the first record that arrived for it. */
  lemma {:induction false} InsertAllExact(table: Table, records: seq<Record>, id: string)
    ensures id in InsertAll(table, records) <==> id in table || FirstOf(records, id).Some?
    ensures id in InsertAll(table, records) ==>
              InsertAll(table, records)[id] == if id in table then table[id] else FirstOf(records, id).value
  {
    if records != [] {
      InsertAllExact(table, records[..|records| - 1], id);
      InsertAllExact(table, records[..|records| - 1], records[|records| - 1].id);
    }
  }

  /** Records whose ids are already in the table change nothing: redelivery is harmless. */
  lemma {:induction false} RedeliveryIsHarmless(table: Table, records: seq<Record>)
    requires forall r <- records :: r.id in table
    ensures InsertAll(table, records) == table
  {
    if records != [] {
      assert forall r <- records[..|records| - 1] :: r in records;
      assert records[|records| - 1] in records;
      RedeliveryIsHarmless(table, records[..|records| - 1]);
    }
  }

  /** The whole backlog delivered a second time, in any batches, leaves the table as it was. */
  lemma RedeliveredBacklog(table: Table, records: seq<Record>, again: seq<Record>)
    requires forall r <- again :: exists x :: x in records && x.id == r.id
    ensures InsertAll(table, records + again) == InsertAll(table, records)
  {
    InsertAllAppend(table, records, again);
    forall r <- again ensures r.id in InsertAll(table, records) {
      InsertAllExact(table, records, r.id);
    }
    RedeliveryIsHarmless(InsertAll(table, records), again);
  }

  ghost predicate AllWritten(history: seq<Flush>) {
    forall f <- history :: f.outcome == Written
  }

  lemma {:induction false} WrittenIsAll(history: seq<Flush>)
    requires AllWritten(history)
    ensures Flat(history, Applied) == Flat(history, AnyOutcome)
    ensures Flat(history, Counted) == Flat(history, AnyOutcome)
    ensures Flat(history, Lost) == []
  {
    if history != [] {
      assert history[|history| - 1] in history;
      assert forall f <- history[..|history| - 1] :: f in history;
      WrittenIsAll(history[..|history| - 1]);
    }
  }

  /**
   While no batch is refused, lost or cancelled, the table is at every await what inserting each
   record on arrival would have made of all but the pending suffix of the accepted sequence.
   */
  lemma BatchingIsTransparent(cfg: Config, table: Table, states: seq<State>, steps: seq<Step>, n: nat)
    requires IsRun(cfg, table, states, steps) && n <= |steps|
    requires AllWritten(states[n].history)
    ensures var s := states[n];
            var pending := InFlight(s) + s.batch;
            && |pending| <= |s.accepted|
            && s.accepted[|s.accepted| - |pending|..] == pending
            && s.table == InsertAll(table, s.accepted[..|s.accepted| - |pending|])
            && InsertAll(s.table, pending) == InsertAll(table, s.accepted)
            && s.processed == |s.accepted| - |pending|
  {
    hide Flat, InsertAll;
    RunKeeps(cfg, table, states, steps, n);
    var s := states[n];
    WrittenIsAll(s.history);
    var flushed, pending := Flat(s.history, AnyOutcome), InFlight(s) + s.batch;
    assert s.accepted == flushed + pending;
    SplitsBack(flushed, pending);
    InsertAllAppend(table, flushed, pending);
  }

  lemma SplitsBack(front: seq<Record>, back: seq<Record>)
    ensures (front + back)[..|front + back| - |back|] == front
    ensures (front + back)[|front + back| - |back|..] == back
  {}

  /** Batch sizes, windows and timing never change the table: two drained runs that accepted the same sequence agree. */
  lemma ScheduleIndependent(
      cfg: Config, states: seq<State>, steps: seq<Step>,
      cfg': Config, states': seq<State>, steps': seq<Step>, table: Table)
    requires IsRun(cfg, table, states, steps) && IsRun(cfg', table, states', steps')
    requires var s, s' := states[|steps|], states'[|steps'|];
             && AllWritten(s.history) && AllWritten(s'.history)
             && s.batch == [] && s'.batch == [] && InFlight(s) == [] && InFlight(s') == []
             && s.accepted == s'.accepted
    ensures states[|steps|].table == states'[|steps'|].table
  {
    BatchingIsTransparent(cfg, table, states, steps, |steps|);
    BatchingIsTransparent(cfg', table, states', steps', |steps'|);
  }

  // ---- accounting ----

  /**
   At every await the messages received are those processed, failed, in flight, pending, lost or
   being rejected, if and only if as many messages were counted as failed although appended as
   were rejected without being counted, because their last ack raised.
   */
  lemma AccountingIsExact(cfg: Config, table: Table, states: seq<State>, steps: seq<Step>, n: nat)
    requires IsRun(cfg, table, states, steps) && n <= |steps|
    ensures var s := states[n];
            (s.received == s.processed + s.failed + |InFlight(s)| + |s.batch| + |Flat(s.history, Lost)|
                           + BeingRejected(s)
             <==> s.doubled == s.uncounted)
    ensures (forall i :: 0 <= i < n ==> steps[i] != AckRaises) ==>
              states[n].doubled == 0 && states[n].uncounted == 0
  {
    RunKeeps(cfg, table, states, steps, n);
    if forall i :: 0 <= i < n ==> steps[i] != AckRaises {
      NoRaises(cfg, table, states, steps, n);
    }
  }

  lemma {:induction false} NoRaises(cfg: Config, table: Table, states: seq<State>, steps: seq<Step>, n: nat)
    requires IsRun(cfg, table, states, steps) && n <= |steps|
    requires forall i :: 0 <= i < n ==> steps[i] != AckRaises
    ensures states[n].doubled == 0 && states[n].uncounted == 0 && !states[n].handler.AckAfterAppend?
  {
    if n > 0 {
      NoRaises(cfg, table, states, steps, n - 1);
    }
  }

  /** One failed ack after an append is enough to count a message twice. */
  lemma DoubleCount(cfg: Config, r: Record)
    requires cfg.window > 0.0
    ensures var s1 := Next(cfg, Start(map[]), Receive(Good(r), 0.0));
            var s := Next(cfg, Next(cfg, s1, AckRaises), AckReturns);
            s.received == 1 && s.failed == 1 && s.batch == [r] && s.doubled == 1
  {}

  // ---- the timer ----

  /** Step k brought the first record of the batch pending at n, at time t. */
  ghost predicate Opened(states: seq<State>, steps: seq<Step>, k: nat, n: nat, t: real)
    requires |states| == |steps| + 1 && n <= |steps|
  {
    && k < n && steps[k].Receive? && steps[k].decoded.Good? && steps[k].now == t && states[k].batch == []
    && forall i :: k < i <= n ==> states[i].batch != []
  }

  /** The deadline of a pending batch is one window after its first record, whatever followed. */
  lemma {:induction false} DeadlineOfFirstRecord(
      cfg: Config, table: Table, states: seq<State>, steps: seq<Step>, n: nat) returns (k: nat, t: real)
    requires IsRun(cfg, table, states, steps) && n <= |steps| && states[n].batch != []
    ensures Opened(states, steps, k, n, t)
    ensures states[n].deadline == t + cfg.window
  {
    RunKeeps(cfg, table, states, steps, n - 1);
    if states[n - 1].batch == [] {
      OnlyGoodFills(cfg, states[n - 1], steps[n - 1]);
      k, t := n - 1, steps[n - 1].now;
    } else {
      k, t := DeadlineOfFirstRecord(cfg, table, states, steps, n - 1);
      OnlyFirstSetsDeadline(cfg, table, states[n - 1], steps[n - 1]);
    }
  }

  lemma OnlyGoodFills(cfg: Config, s: State, step: Step)
    requires Enabled(cfg, s, step) && s.batch == [] && Next(cfg, s, step).batch != []
    ensures step.Receive? && step.decoded.Good?
    ensures s.deadline == 0.0 ==> Next(cfg, s, step).deadline == step.now + cfg.window
  {}

  lemma OnlyFirstSetsDeadline(cfg: Config, table: Table, s: State, step: Step)
    requires Inv(cfg, table, s) && Enabled(cfg, s, step) && s.batch != [] && Next(cfg, s, step).batch != []
    ensures Next(cfg, s, step).deadline == s.deadline
  {}

  /**
   A pending batch is taken at the first timer check that finds the flusher free and the clock one
   window past the arrival of its first record, or the batch full; never otherwise.
   */
  lemma TakenWhenDue(cfg: Config, table: Table, states: seq<State>, steps: seq<Step>, n: nat, k: nat, t: real)
    requires IsRun(cfg, table, states, steps) && n < |steps| && steps[n].TimerCheck?
    requires Opened(states, steps, k, n, t)
    ensures states[n + 1].batch == []
            <==> steps[n].now >= t + cfg.window || |states[n].batch| >= cfg.batchMaxSize
    ensures states[n + 1].batch != [] ==> states[n + 1] == states[n]
  {
    var k', t' := DeadlineOfFirstRecord(cfg, table, states, steps, n);
    assert k' == k;
    RunKeeps(cfg, table, states, steps, n);
  }

  // ---- runs in terms of their steps ----

  /** The records of the well-formed messages, in order of arrival. */
  function Arrivals(steps: seq<Step>): seq<Record> {
    if steps == [] then []
    else
      var last := steps[|steps| - 1];
      Arrivals(steps[..|steps| - 1]) + if last.Receive? && last.decoded.Good? then [last.decoded.record] else []
  }

  predicate Arrives(step: Step) { step.Receive? }

  /** Every message is counted on arrival, and exactly the well-formed ones are accepted, in order. */
  lemma {:induction false} AcceptedAreArrivals(cfg: Config, table: Table, states: seq<State>, steps: seq<Step>, n: nat)
    requires IsRun(cfg, table, states, steps) && n <= |steps|
    ensures states[n].accepted == Arrivals(steps[..n])
    ensures states[n].received == |Filter(steps[..n], Arrives)|
  {
    hide Next, Filter;
    FilterStart(steps, Arrives);
    if n > 0 {
      AcceptedAreArrivals(cfg, table, states, steps, n - 1);
      assert steps[..n][..n - 1] == steps[..n - 1];
      FilterNext(steps, n - 1, Arrives);
      ArrivalStep(cfg, states[n - 1], steps[n - 1]);
    }
  }

  lemma ArrivalStep(cfg: Config, s: State, step: Step)
    requires Enabled(cfg, s, step)
    ensures Next(cfg, s, step).received == s.received + (if step.Receive? then 1 else 0)
    ensures Next(cfg, s, step).accepted
         == if step.Receive? && step.decoded.Good? then s.accepted + [step.decoded.record] else s.accepted
  {}

  /** With a pool, while no write raises and nothing is cancelled, every batch taken off has been written. */
  lemma {:induction false} NothingLost(cfg: Config, table: Table, states: seq<State>, steps: seq<Step>, n: nat)
    requires IsRun(cfg, table, states, steps) && n <= |steps| && cfg.hasPool
    requires forall i :: 0 <= i < n ==> !steps[i].WriteRaises? && !steps[i].Cancel?
    ensures AllWritten(states[n].history)
  {
    if n > 0 {
      NothingLost(cfg, table, states, steps, n - 1);
    }
  }

  /**
   Batching is inserting on arrival: in such a run the table is at every await what inserting the
   records one by one as they arrived would have made of all but the last ones, and inserting the
   pending ones too makes it exactly that.
   */
  lemma BatchingIsInsertOnArrival(cfg: Config, table: Table, states: seq<State>, steps: seq<Step>, n: nat)
    requires IsRun(cfg, table, states, steps) && n <= |steps| && cfg.hasPool
    requires forall i :: 0 <= i < n ==> !steps[i].WriteRaises? && !steps[i].Cancel?
    ensures var s, arrived := states[n], Arrivals(steps[..n]);
            var pending := InFlight(s) + s.batch;
            && |pending| <= |arrived| && arrived[|arrived| - |pending|..] == pending
            && s.table == InsertAll(table, arrived[..|arrived| - |pending|])
            && InsertAll(s.table, pending) == InsertAll(table, arrived)
  {
    hide InsertAll, Flat;
    NothingLost(cfg, table, states, steps, n);
    AcceptedAreArrivals(cfg, table, states, steps, n);
    BatchingIsTransparent(cfg, table, states, steps, n);
  }

  /** Every settled batch is counted as flushed, written or not; a cancelled one is not. */
  lemma {:induction false} FlushesCounted(cfg: Config, table: Table, states: seq<State>, steps: seq<Step>, n: nat)
    requires IsRun(cfg, table, states, steps) && n <= |steps|
    ensures states[n].batchesFlushed == |Filter(states[n].history, (f: Flush) => !f.outcome.Cancelled?)|
  {
    hide Next, Filter;
    FilterStart(states[0].history, (f: Flush) => !f.outcome.Cancelled?);
    if n > 0 {
      FlushesCounted(cfg, table, states, steps, n - 1);
      FlushStep(cfg, states[n - 1], steps[n - 1]);
      var was, now := states[n - 1].history, states[n].history;
      if |now| > |was| {
        FilterAppend(was, now[|was|], (f: Flush) => !f.outcome.Cancelled?);
      }
    }
  }

  lemma FlushStep(cfg: Config, s: State, step: Step)
    requires Enabled(cfg, s, step)
    ensures var t := Next(cfg, s, step);
            || (t.history == s.history && t.batchesFlushed == s.batchesFlushed)
            || (|t.history| == |s.history| + 1 && t.history == s.history + [t.history[|s.history|]]
                && t.batchesFlushed == s.batchesFlushed + if t.history[|s.history|].outcome.Cancelled? then 0 else 1)
  {}

  /** What becomes of a batch: taken off whole, then written and counted, or refused and counted as failed. */
  lemma BatchEffects(cfg: Config, s: State, now: real)
    requires s.flusher.Sleeping? && s.batch != [] && (|s.batch| >= cfg.batchMaxSize || now >= s.deadline > 0.0)
    ensures var s' := TimerChecked(cfg, s, now);
            && s'.batch == [] && s'.deadline == 0.0 && s'.table == s.table
            && s'.processed == s.processed && s'.failed == s.failed && s'.handler == s.handler
            && (!cfg.hasPool ==>
                  s'.flusher == Sleeping && s'.batchesFlushed == s.batchesFlushed + 1
                  && s'.history == s.history + [Flush(s.batch, NoPool)])
            && (cfg.hasPool ==>
                  s'.flusher == Writing(s.batch) && s'.batchesFlushed == s.batchesFlushed && s'.history == s.history)
    ensures cfg.hasPool ==>
              var taken := TimerChecked(cfg, s, now);
              var good, bad := Next(cfg, taken, WriteReturns), Next(cfg, taken, WriteRaises);
              && good.flusher == bad.flusher == Sleeping
              && good.batchesFlushed == bad.batchesFlushed == s.batchesFlushed + 1
              && good.table == InsertAll(s.table, s.batch) && bad.table == s.table
              && good.processed == s.processed + |s.batch| && good.failed == s.failed
              && bad.processed == s.processed && bad.failed == s.failed + |s.batch|
              && good.history == s.history + [Flush(s.batch, Written)]
              && bad.history == s.history + [Flush(s.batch, Failed)]
  {}

  /** The state once the handler is idle again, when its first acks raise and a later one may return. */
  function AfterAcks(cfg: Config, s: State, raises: nat): State
    decreases raises
  {
    if s.handler.Idle? then s
    else if raises == 0 then Next(cfg, s, AckReturns)
    else AfterAcks(cfg, Next(cfg, s, AckRaises), raises - 1)
  }

  /**
   How a message is counted, by what it was and how many of its acks raised. A good one joins the batch
   at once and is failed as well after exactly one raise; one without its required fields is failed unless
   two acks raise; one that does not decode is failed unless its only ack raises.
   */
  lemma HandledMessage(cfg: Config, s: State, decoded: Decoded, now: real, raises: nat)
    requires Enabled(cfg, s, Receive(decoded, now))
    ensures var s' := AfterAcks(cfg, Next(cfg, s, Receive(decoded, now)), raises);
            && s'.handler.Idle? && s'.received == s.received + 1
            && s'.processed == s.processed && s'.table == s.table && s'.batchesFlushed == s.batchesFlushed
            && s'.batch == s.batch + (if decoded.Good? then [decoded.record] else [])
            && s'.doubled == s.doubled + (if decoded.Good? && raises == 1 then 1 else 0)
            && s'.uncounted == s.uncounted
                 + (match decoded
                    case Good(_) => 0
                    case MissingFields => if raises > 1 then 1 else 0
                    case _ => if raises > 0 then 1 else 0)
            && s'.failed == s.failed
                 + (match decoded
                    case Good(_) => if raises == 1 then 1 else 0
                    case MissingFields => if raises <= 1 then 1 else 0
                    case BadJson => if raises == 0 then 1 else 0
                    case OtherError => if raises == 0 then 1 else 0)
  {
    var s1 := Next(cfg, s, Receive(decoded, now));
    if raises > 0 {
      var s2 := Next(cfg, s1, AckRaises);
      assert AfterAcks(cfg, s1, raises) == AfterAcks(cfg, s2, raises - 1);
      if raises > 1 && !s2.handler.Idle? {
        var s3 := Next(cfg, s2, AckRaises);
        assert AfterAcks(cfg, s2, raises - 1) == AfterAcks(cfg, s3, raises - 2);
      }
    }
  }

  // ---- the worker object ----

  /** The worker's globals, and where its two tasks are suspended. */
  class Worker {
    const cfg: Config
    var batch: seq<Record>
    var batchDeadline: real
    var received: nat
    var processed: nat
    var failed: nat
    var batchesFlushed: nat
    var handler: Handler
    var flusher: Flusher
    var table: Table
    ghost var accepted: seq<Record>
    ghost var history: seq<Flush>
    ghost var doubled: nat
    ghost var uncounted: nat

    ghost function Model(): State
      reads this
    {
      State(batch, batchDeadline, received, processed, failed, batchesFlushed, handler, flusher,
        table, accepted, history, doubled, uncounted)
    }

    constructor (cfg: Config, table: Table)
      ensures this.cfg == cfg && Model() == Start(table)
    {
      this.cfg, this.table := cfg, table;
      batch, batchDeadline, handler, flusher := [], 0.0, Idle, Sleeping;
      received, processed, failed, batchesFlushed := 0, 0, 0, 0;
      accepted, history, doubled, uncounted := [], [], 0, 0;
    }

    /** msg_handler up to its first await. */
    method MsgHandler(decoded: Decoded, now: real)
      requires Enabled(cfg, Model(), Receive(decoded, now))
      modifies this
      ensures Model() == Next(cfg, old(Model()), Receive(decoded, now))
    {
      received := received + 1;
      match decoded {
        case Good(r) =>
          batch, accepted := batch + [r], accepted + [r];
          if batchDeadline == 0.0 {
            batchDeadline := now + cfg.window;
          }
          handler := AckAppended;
        case MissingFields =>
          handler := AckInvalid;
        case _ =>
          handler := AckRejected;
      }
    }

    /** The handler resumes after its await. */
    method AckReturned()
      requires Enabled(cfg, Model(), AckReturns)
      modifies this
      ensures Model() == Next(cfg, old(Model()), AckReturns)
    {
      if handler != AckAppended {
        failed := failed + 1;
        if handler == AckAfterAppend {
          doubled := doubled + 1;
        }
      }
      handler := Idle;
    }

    method AckRaised()
      requires Enabled(cfg, Model(), AckRaises)
      modifies this
      ensures Model() == Next(cfg, old(Model()), AckRaises)
    {
      match handler {
        case AckAppended => handler := AckAfterAppend;
        case AckInvalid => handler := AckRejected;
        case AckRejected => handler, uncounted := Idle, uncounted + 1;
        case AckAfterAppend => handler := Idle;
        case Idle =>
      }
    }

    /** One pass of the timer loop, up to the write's await or back to its sleep. */
    method BatchFlushTimer(now: real)
      requires Enabled(cfg, Model(), TimerCheck(now))
      modifies this
      ensures Model() == Next(cfg, old(Model()), TimerCheck(now))
    {
      var shouldFlush := false;
      if |batch| >= cfg.batchMaxSize {
        shouldFlush := true;
      } else if batch != [] && batchDeadline > 0.0 && now >= batchDeadline {
        shouldFlush := true;
      }
      if shouldFlush && batch != [] {
        var records := batch;
        batch, batchDeadline := [], 0.0;
        if cfg.hasPool {
          flusher := Writing(records);
        } else {
          history := history + [Flush(records, NoPool)];
          batchesFlushed := batchesFlushed + 1;
        }
      }
    }

    /** executemany: one insert-if-absent for each record, in order. */
    method ExecuteMany(records: seq<Record>)
      modifies `table
      ensures table == InsertAll(old(table), records)
    {
      for i := 0 to |records|
        invariant table == InsertAll(old(table), records[..i])
      {
        assert records[..i + 1][..i] == records[..i];
        if records[i].id !in table {
          table := table[records[i].id := records[i]];
        }
      }
      assert records[..|records|] == records;
    }

    method WriteReturned()
      requires Enabled(cfg, Model(), WriteReturns)
      modifies this
      ensures Model() == Next(cfg, old(Model()), WriteReturns)
    {
      var records := flusher.records;
      ExecuteMany(records);
      processed := processed + |records|;
      batchesFlushed := batchesFlushed + 1;
      flusher, history := Sleeping, history + [Flush(records, Written)];
    }

    method WriteRaised()
      requires Enabled(cfg, Model(), WriteRaises)
      modifies this
      ensures Model() == Next(cfg, old(Model()), WriteRaises)
    {
      failed := failed + |flusher.records|;
      batchesFlushed := batchesFlushed + 1;
      flusher, history := Sleeping, history + [Flush(flusher.records, Failed)];
    }

    /** Shutdown: the timer task is cancelled wherever it is suspended. */
    method Shutdown(applied: bool)
      requires Enabled(cfg, Model(), Cancel(applied))
      modifies this
      ensures Model() == Next(cfg, old(Model()), Cancel(applied))
    {
      if flusher.Writing? {
        if applied {
          ExecuteMany(flusher.records);
        }
        history := history + [Flush(flusher.records, Cancelled(applied))];
      }
      flusher := Stopped;
    }
  }
}
