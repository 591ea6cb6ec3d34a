/**
 The Redis lock (kernel/locks.py): SET NX EX to acquire, compare-and-delete to release, and a
 polling context manager. Time is in milliseconds; a key is gone once its expiry is reached.
 Clients and the clock interleave freely; tenures record who was ever granted a lock.
 */
module RedisLock {
  import opened Wrappers

  datatype Entry = Entry(token: string, expiry: int)

  datatype Tenure = Tenure(resource: string, token: string, until: int, released: bool)

  datatype State = State(now: int, store: map<string, Entry>, tenures: seq<Tenure>)

  datatype Op =
    | Acquire(resource: string, ttl: int, token: string)
    | Release(k: nat)                       // the holder of tenure k gives it up, however late
    | Forget(resource: string, token: string)  // anyone calls release with a token of their own
    | Wait(ms: nat)

  datatype LockError = BadArguments | Busy

  predicate Held(s: State, resource: string) {
    resource in s.store && s.now < s.store[resource].expiry
  }

  function SetIfAbsent(s: State, resource: string, ttl: int, token: string): State {
    if Held(s, resource) then s
    else
      var expiry := s.now + 1000 * ttl;
      s.(store := s.store[resource := Entry(token, expiry)],
         tenures := s.tenures + [Tenure(resource, token, expiry, false)])
  }

  function CompareAndDelete(s: State, resource: string, token: string): State {
    if Held(s, resource) && s.store[resource].token == token then s.(store := s.store - {resource}) else s
  }

  function Next(s: State, op: Op): State {
    match op
    case Acquire(resource, ttl, token) =>
      if resource == "" || ttl <= 0 then s else SetIfAbsent(s, resource, ttl, token)
    case Release(k) =>
      if k < |s.tenures| then
        var t := s.tenures[k];
        CompareAndDelete(s, t.resource, t.token).(tenures := s.tenures[k := t.(released := true)])
      else s
    case Forget(resource, token) => CompareAndDelete(s, resource, token)
    case Wait(ms) => s.(now := s.now + ms)
  }

  function Run(s: State, ops: seq<Op>): State {
    if ops == [] then s else Next(Run(s, ops[..|ops| - 1]), ops[|ops| - 1])
  }

  /** Within its unexpired, unreleased tenure. */
  predicate InTenure(s: State, k: int) {
    0 <= k < |s.tenures| && !s.tenures[k].released && s.now < s.tenures[k].until
  }

  const Start := State(0, map[], [])

  // ---- exclusion ----

  /** No two running tenures of one resource. */
  ghost predicate Exclusive(s: State) {
    forall i, j :: InTenure(s, i) && InTenure(s, j) && s.tenures[i].resource == s.tenures[j].resource ==> i == j
  }

  predicate Runs(s: State, k: int, resource: string, token: string) {
    InTenure(s, k) && s.tenures[k].resource == resource && s.tenures[k].token == token
  }

  /** The store holds exactly the running tenures, at most one of each resource. Tokens may repeat. */
  ghost predicate Matched(s: State) {
    && Exclusive(s)
    && (forall k :: InTenure(s, k) ==>
          s.tenures[k].resource != "" && s.tenures[k].resource in s.store
          && s.store[s.tenures[k].resource] == Entry(s.tenures[k].token, s.tenures[k].until))
    && (forall r <- s.store :: Held(s, r) ==> exists k :: Runs(s, k, r, s.store[r].token))
  }

  /**
   What compare-and-delete relies on: whoever releases presents no token under which somebody else's
   tenure of that resource is running. Acquiring and waiting are always safe, with any token.
   */
  ghost predicate Guarded(s: State, op: Op) {
    match op
    case Release(k) =>
      k < |s.tenures| ==> forall j :: Runs(s, j, s.tenures[k].resource, s.tenures[k].token) ==> j == k
    case Forget(resource, token) => forall j :: !Runs(s, j, resource, token)
    case _ => true
  }

  ghost predicate GuardedRun(s: State, ops: seq<Op>) {
    forall i :: 0 <= i < |ops| ==> Guarded(Run(s, ops[..i]), ops[i])
  }

  lemma AcquireKeeps(s: State, resource: string, ttl: int, token: string)
    requires Matched(s) && resource != "" && ttl > 0
    ensures Matched(SetIfAbsent(s, resource, ttl, token))
  {
    var s' := SetIfAbsent(s, resource, ttl, token);
    if !Held(s, resource) {
      var last := |s.tenures|;
      assert s'.tenures[last] == Tenure(resource, token, s.now + 1000 * ttl, false);
      forall k | InTenure(s', k)
        ensures k < last ==> InTenure(s, k) && s'.tenures[k] == s.tenures[k] && s.tenures[k].resource != resource
      {
        if k < last {
          assert s'.tenures[k] == s.tenures[k];
        }
      }
      forall r <- s'.store | Held(s', r) ensures exists k :: Runs(s', k, r, s'.store[r].token) {
        if r == resource {
          assert Runs(s', last, r, token);
        } else {
          assert Held(s, r);
          var k :| Runs(s, k, r, s.store[r].token);
          assert s'.tenures[k] == s.tenures[k] && Runs(s', k, r, s'.store[r].token);
        }
      }
    }
  }

  lemma ReleaseKeeps(s: State, k: nat)
    requires Matched(s) && k < |s.tenures| && Guarded(s, Release(k))
    ensures Matched(Next(s, Release(k)))
  {
    var s', t := Next(s, Release(k)), s.tenures[k];
    forall i | InTenure(s', i) ensures i != k && InTenure(s, i) && s'.tenures[i] == s.tenures[i] {
      assert i != k;
    }
    forall i | InTenure(s', i)
      ensures s'.tenures[i].resource in s'.store
      ensures s'.store[s'.tenures[i].resource] == Entry(s'.tenures[i].token, s'.tenures[i].until)
    {
      assert InTenure(s, i) && i != k;
      assert !Runs(s, i, t.resource, t.token);
    }
    forall r <- s'.store | Held(s', r) ensures exists i :: Runs(s', i, r, s'.store[r].token) {
      assert Held(s, r) && s'.store[r] == s.store[r];
      var i :| Runs(s, i, r, s.store[r].token);
      assert i != k;
      assert s'.tenures[i] == s.tenures[i] && Runs(s', i, r, s'.store[r].token);
    }
  }

  lemma WaitKeeps(s: State, ms: nat)
    requires Matched(s)
    ensures Matched(Next(s, Wait(ms)))
  {
    var s' := Next(s, Wait(ms));
    forall k | InTenure(s', k) ensures InTenure(s, k) {
    }
    forall r <- s'.store | Held(s', r) ensures exists k :: Runs(s', k, r, s'.store[r].token) {
      assert Held(s, r);
      var k :| Runs(s, k, r, s.store[r].token);
      assert s.store[r] == Entry(s.tenures[k].token, s.tenures[k].until);
      assert Runs(s', k, r, s'.store[r].token);
    }
  }

  /** A release whose token runs for somebody else takes that tenure's entry away. */
  lemma UnguardedReleaseUnmatches(s: State, k: nat, j: int)
    requires Matched(s) && k < |s.tenures| && j != k && Runs(s, j, s.tenures[k].resource, s.tenures[k].token)
    ensures InTenure(Next(s, Release(k)), j) && !Held(Next(s, Release(k)), s.tenures[k].resource)
    ensures !Matched(Next(s, Release(k)))
  {
    var s' := Next(s, Release(k));
    assert s'.tenures[j] == s.tenures[j] && InTenure(s', j);
  }

  lemma UnguardedForgetUnmatches(s: State, resource: string, token: string, j: int)
    requires Matched(s) && Runs(s, j, resource, token)
    ensures InTenure(Next(s, Forget(resource, token)), j) && !Held(Next(s, Forget(resource, token)), resource)
    ensures !Matched(Next(s, Forget(resource, token)))
  {
    assert InTenure(Next(s, Forget(resource, token)), j);
  }

  /** The guard is exact: a step keeps store and running tenures matched if and only if it meets it. */
  lemma StepKeepsExactly(s: State, op: Op)
    requires Matched(s)
    ensures Matched(Next(s, op)) <==> Guarded(s, op)
  {
    hide Matched;
    match op
    case Acquire(resource, ttl, token) =>
      if resource != "" && ttl > 0 {
        AcquireKeeps(s, resource, ttl, token);
      }
    case Release(k) =>
      if k < |s.tenures| {
        if Guarded(s, op) {
          ReleaseKeeps(s, k);
        } else {
          var j :| Runs(s, j, s.tenures[k].resource, s.tenures[k].token) && j != k;
          UnguardedReleaseUnmatches(s, k, j);
        }
      }
    case Forget(resource, token) =>
      if Guarded(s, op) {
        ForgetIsHarmless(s, resource, token);
      } else {
        var j :| Runs(s, j, resource, token);
        UnguardedForgetUnmatches(s, resource, token, j);
      }
    case Wait(ms) => WaitKeeps(s, ms);
  }

  /** A release with a token under which nothing runs deletes nothing. */
  lemma ForgetIsHarmless(s: State, resource: string, token: string)
    requires Matched(s) && Guarded(s, Forget(resource, token))
    ensures Next(s, Forget(resource, token)) == s
  {
    assert Held(s, resource) ==> exists k :: Runs(s, k, resource, s.store[resource].token);
  }

  /** A resource can be acquired exactly when none of its tenures is running. */
  lemma HeldExactly(s: State, resource: string)
    requires Matched(s)
    ensures Held(s, resource) <==> exists k :: InTenure(s, k) && s.tenures[k].resource == resource
  {
    if Held(s, resource) {
      var k :| Runs(s, k, resource, s.store[resource].token);
      assert InTenure(s, k) && s.tenures[k].resource == resource;
    }
  }

  /**
   And it is exactly what exclusion needs: after a step, no acquire by anybody can break exclusion if
   and only if the step met the guard.
   */
  lemma ExclusionNeedsGuard(s: State, op: Op)
    requires Matched(s)
    ensures (forall resource, ttl, token :: Exclusive(Next(Next(s, op), Acquire(resource, ttl, token))))
        <==> Guarded(s, op)
  {
    StepKeepsExactly(s, op);
    var s' := Next(s, op);
    if Guarded(s, op) {
      forall resource, ttl, token ensures Exclusive(Next(s', Acquire(resource, ttl, token))) {
        StepKeepsExactly(s', Acquire(resource, ttl, token));
      }
    } else {
      var j := DisturbedTenure(s, op);
      var r := s'.tenures[j].resource;
      IntruderGetsIn(s', j);
      assert !Exclusive(Next(s', Acquire(r, 1, "t")));
    }
  }

  lemma DisturbedTenure(s: State, op: Op) returns (j: int)
    requires Matched(s) && !Guarded(s, op)
    ensures InTenure(Next(s, op), j) && !Held(Next(s, op), Next(s, op).tenures[j].resource)
    ensures Next(s, op).tenures[j].resource != ""
  {
    match op
    case Release(k) =>
      j :| Runs(s, j, s.tenures[k].resource, s.tenures[k].token) && j != k;
      UnguardedReleaseUnmatches(s, k, j);
    case Forget(resource, token) =>
      j :| Runs(s, j, resource, token);
      UnguardedForgetUnmatches(s, resource, token, j);
  }

  /** A running tenure without its entry does not keep the next client out. */
  lemma IntruderGetsIn(s: State, j: int)
    requires InTenure(s, j) && s.tenures[j].resource != "" && !Held(s, s.tenures[j].resource)
    ensures !Exclusive(Next(s, Acquire(s.tenures[j].resource, 1, "t")))
  {
    var s' := Next(s, Acquire(s.tenures[j].resource, 1, "t"));
    var last := |s.tenures|;
    assert s'.tenures[j] == s.tenures[j] && InTenure(s', j) && InTenure(s', last);
    assert s'.tenures[last].resource == s'.tenures[j].resource;
  }

  // ---- runs ----

  lemma {:induction false} RunKeeps(s: State, ops: seq<Op>)
    requires Matched(s) && GuardedRun(s, ops)
    ensures Matched(Run(s, ops))
  {
    hide Matched, Guarded, Next;
    if ops != [] {
      GuardedPrefix(s, ops);
      RunKeeps(s, ops[..|ops| - 1]);
      StepKeepsExactly(Run(s, ops[..|ops| - 1]), ops[|ops| - 1]);
    }
  }

  lemma GuardedPrefix(s: State, ops: seq<Op>)
    requires GuardedRun(s, ops) && ops != []
    ensures GuardedRun(s, ops[..|ops| - 1]) && Guarded(Run(s, ops[..|ops| - 1]), ops[|ops| - 1])
  {
    hide Guarded, Run;
    var before := ops[..|ops| - 1];
    forall i | 0 <= i < |before| ensures Guarded(Run(s, before[..i]), before[i]) {
      assert before[..i] == ops[..i];
    }
  }

  /**
   Mutual exclusion: after any interleaving of clients and clock in which no release presents the token
   of somebody else's running tenure, at most one tenure of a resource is running, and the resource can
   be acquired exactly when none is. Tokens may be reused.
   */
  lemma MutualExclusion(ops: seq<Op>, resource: string)
    requires GuardedRun(Start, ops)
    ensures Exclusive(Run(Start, ops))
    ensures var s := Run(Start, ops);
            Held(s, resource) <==> exists k :: InTenure(s, k) && s.tenures[k].resource == resource
  {
    RunKeeps(Start, ops);
    HeldExactly(Run(Start, ops), resource);
  }

  /**
   A release leaves every other running tenure running, and takes its entry exactly when it presents
   that tenure's resource and token. In particular the late release of an expired owner with a token
   of its own does not remove the new owner's lock.
   */
  lemma ReleaseDisturbsExactly(ops: seq<Op>, k: nat, other: nat)
    requires GuardedRun(Start, ops) && k != other && k < |Run(Start, ops).tenures|
    requires InTenure(Run(Start, ops), other)
    ensures var s, s' := Run(Start, ops), Next(Run(Start, ops), Release(k));
            var r, mine := s.tenures[other].resource, s.tenures[k];
            && InTenure(s', other)
            && (Held(s', r) <==> !(mine.resource == r && mine.token == s.tenures[other].token))
            && (Held(s', r) ==> s'.store[r] == s.store[r] == Entry(s.tenures[other].token, s.tenures[other].until))
  {
    RunKeeps(Start, ops);
    hide Run;
    assert InTenure(Next(Run(Start, ops), Release(k)), other);
  }

  /** Two unreleased tenures of one resource: one has outlived its ttl. */
  lemma OverlapNeedsExpiry(ops: seq<Op>, i: nat, j: nat)
    requires GuardedRun(Start, ops)
    requires var s := Run(Start, ops);
             i < |s.tenures| && j < |s.tenures| && i != j && s.tenures[i].resource == s.tenures[j].resource
             && !s.tenures[i].released && !s.tenures[j].released
    ensures var s := Run(Start, ops);
            s.now >= s.tenures[i].until || s.now >= s.tenures[j].until
  {
    RunKeeps(Start, ops);
    hide Run;
    assert InTenure(Run(Start, ops), i) && InTenure(Run(Start, ops), j) ==> i == j;
  }

  // ---- fresh tokens ----

  /** Every granted token is new, and nobody calls release with a token granted to another. */
  ghost predicate FreshTokens(s: State, op: Op) {
    match op
    case Acquire(_, _, token) => forall t <- s.tenures :: t.token != token
    case Forget(_, token) => forall t <- s.tenures :: t.token != token
    case _ => true
  }

  ghost predicate FreshRun(s: State, ops: seq<Op>) {
    forall i :: 0 <= i < |ops| ==> FreshTokens(Run(s, ops[..i]), ops[i])
  }

  ghost predicate TokensDistinct(s: State) {
    forall i, j :: 0 <= i < j < |s.tenures| ==> s.tenures[i].token != s.tenures[j].token
  }

  lemma {:induction false} FreshRunDistinct(ops: seq<Op>)
    requires FreshRun(Start, ops)
    ensures TokensDistinct(Run(Start, ops))
  {
    if ops != [] {
      var before := ops[..|ops| - 1];
      forall i | 0 <= i < |before| ensures FreshTokens(Run(Start, before[..i]), before[i]) {
        assert before[..i] == ops[..i];
      }
      FreshRunDistinct(before);
      FreshStepDistinct(Run(Start, before), ops[|ops| - 1]);
    }
  }

  lemma FreshStepDistinct(s: State, op: Op)
    requires TokensDistinct(s) && FreshTokens(s, op)
    ensures TokensDistinct(Next(s, op))
  {}

  /** With tokens drawn afresh, as acquire does when none is passed in, the guard is met by itself. */
  lemma FreshMeetsGuard(ops: seq<Op>)
    requires FreshRun(Start, ops)
    ensures GuardedRun(Start, ops)
  {
    forall i | 0 <= i < |ops| ensures Guarded(Run(Start, ops[..i]), ops[i]) {
      forall k | 0 <= k < i ensures FreshTokens(Run(Start, ops[..i][..k]), ops[..i][k]) {
        assert ops[..i][..k] == ops[..k];
      }
      FreshRunDistinct(ops[..i]);
      hide Run;
    }
  }

  /** The guard can fail in real runs: an expired owner that used the token of the new owner lets a third in. */
  lemma ReusedTokenBreaksExclusion()
    ensures var first := Next(Start, Acquire("r", 1, "t"));
            var second := Next(Next(first, Wait(1000)), Acquire("r", 9, "t"));
            var third := Next(Next(second, Release(0)), Acquire("r", 9, "u"));
            Exclusive(second) && !Guarded(second, Release(0)) && !Exclusive(third)
  {
    var first := Next(Start, Acquire("r", 1, "t"));
    var second := Next(Next(first, Wait(1000)), Acquire("r", 9, "t"));
    var third := Next(Next(second, Release(0)), Acquire("r", 9, "u"));
    assert Runs(second, 1, "r", "t");
    assert InTenure(third, 1) && InTenure(third, 2);
    assert third.tenures[1].resource == third.tenures[2].resource;
  }

  // ---- the client side ----

  class RedisServer {
    var now: int
    var store: map<string, Entry>
    var tenures: seq<Tenure>   // every grant ever made, in order

    ghost function Model(): State
      reads this
    {
      State(now, store, tenures)
    }

    constructor ()
      ensures Model() == Start
    {
      now, store, tenures := 0, map[], [];
    }

    /** acquire(): the token when the key was set, None when somebody holds it. */
    method TryAcquire(resource: string, ttl: int, token: string) returns (result: Result<Option<string>, LockError>)
      modifies this
      ensures result == if resource == "" || ttl <= 0 then Err(BadArguments)
                        else Ok(if old(Held(Model(), resource)) then None else Some(token))
      ensures Model() == Next(old(Model()), Acquire(resource, ttl, token))
      ensures result == Ok(Some(token)) ==>
                resource in store && store[resource] == Entry(token, now + 1000 * ttl)
    {
      if resource == "" || ttl <= 0 {
        return Err(BadArguments);
      }
      if resource in store && now < store[resource].expiry {
        return Ok(None);
      }
      store := store[resource := Entry(token, now + 1000 * ttl)];
      tenures := tenures + [Tenure(resource, token, now + 1000 * ttl, false)];
      result := Ok(Some(token));
    }

    /** release(): true when the key still held our token. */
    method ReleaseToken(resource: string, token: string) returns (released: bool)
      modifies this
      ensures released <==> old(Held(Model(), resource)) && old(store)[resource].token == token
      ensures Model() == CompareAndDelete(old(Model()), resource, token)
    {
      released := resource in store && now < store[resource].expiry && store[resource].token == token;
      if released {
        store := store - {resource};
      }
    }

    /** What the other clients and the clock do while we sleep. */
    method Others(ops: seq<Op>)
      modifies this
      ensures Model() == Run(old(Model()), ops)
    {
      for i := 0 to |ops|
        invariant Model() == Run(old(Model()), ops[..i])
      {
        assert ops[..i + 1][..i] == ops[..i];
        match ops[i] {
          case Acquire(resource, ttl, token) =>
            var _ := TryAcquire(resource, ttl, token);
          case Release(k) =>
            if k < |tenures| {
              var t := tenures[k];
              var _ := ReleaseToken(t.resource, t.token);
              tenures := tenures[k := t.(released := true)];
            }
          case Forget(resource, token) =>
            var _ := ReleaseToken(resource, token);
          case Wait(ms) =>
            now := now + ms;
        }
      }
      assert ops[..|ops|] == ops;
    }
  }

  /** How long a list of operations takes. */
  function Duration(ops: seq<Op>): nat {
    if ops == [] then 0
    else Duration(ops[..|ops| - 1]) + match ops[|ops| - 1] case Wait(ms) => ms case _ => 0
  }

  lemma {:induction false} RunTakes(s: State, ops: seq<Op>)
    ensures Run(s, ops).now == s.now + Duration(ops)
  {
    if ops != [] {
      RunTakes(s, ops[..|ops| - 1]);
    }
  }

  lemma SleepTakes(s: State, ops: seq<Op>)
    requires Duration(ops) > 0
    ensures Run(s, ops).now > s.now
  {
    RunTakes(s, ops);
  }

  // ---- holds ----

  lemma {:induction false} RunAppend(s: State, a: seq<Op>, b: seq<Op>)
    ensures Run(s, a + b) == Run(Run(s, a), b)
  {
    if b == [] {
      assert a + b == a;
    } else {
      assert (a + b)[..|a + b| - 1] == a + b[..|b| - 1];
      RunAppend(s, a, b[..|b| - 1]);
    }
  }

  /** The state at the k-th probe of a polling hold, when every earlier probe found the lock held. */
  function ProbeAt(s: State, others: nat -> seq<Op>, k: nat): State {
    if k == 0 then s else Run(ProbeAt(s, others, k - 1), others(k - 1))
  }

  ghost predicate Waited(s: State, others: nat -> seq<Op>, resource: string, deadline: int, n: nat) {
    forall k: nat :: k < n ==> Held(ProbeAt(s, others, k), resource) && ProbeAt(s, others, k).now < deadline
  }

  /** Everything that happens up to and including the n-th probe. */
  function HoldOps(others: nat -> seq<Op>, resource: string, ttl: int, uuid: nat -> string, n: nat): seq<Op> {
    if n == 0 then [Acquire(resource, ttl, uuid(0))]
    else HoldOps(others, resource, ttl, uuid, n - 1) + others(n - 1) + [Acquire(resource, ttl, uuid(n))]
  }

  /** Entering a hold is a run like any other, so the theorems about runs apply to it. */
  lemma {:induction false} EnteringIsARun(
      s: State, others: nat -> seq<Op>, resource: string, ttl: int, uuid: nat -> string, deadline: int, n: nat)
    requires Waited(s, others, resource, deadline, n)
    ensures Run(s, HoldOps(others, resource, ttl, uuid, n))
         == Next(ProbeAt(s, others, n), Acquire(resource, ttl, uuid(n)))
  {
    var probe := Acquire(resource, ttl, uuid(n));
    if n == 0 {
      assert [probe][..0] == [];
    } else {
      EnteringIsARun(s, others, resource, ttl, uuid, deadline, n - 1);
      var earlier := HoldOps(others, resource, ttl, uuid, n - 1);
      assert Held(ProbeAt(s, others, n - 1), resource);
      RunAppend(s, earlier, others(n - 1));
      assert (earlier + others(n - 1) + [probe])[..|earlier + others(n - 1)|] == earlier + others(n - 1);
    }
  }

  /** And it is a guarded run as soon as what happens during the sleeps is: probing needs no guard. */
  lemma {:induction false} EnteringIsGuarded(
      s: State, others: nat -> seq<Op>, resource: string, ttl: int, uuid: nat -> string, deadline: int, n: nat)
    requires Waited(s, others, resource, deadline, n)
    requires forall k: nat :: k < n ==> GuardedRun(ProbeAt(s, others, k), others(k))
    ensures GuardedRun(s, HoldOps(others, resource, ttl, uuid, n))
  {
    hide Run, Next, Guarded, GuardedRun, Held, ProbeAt;
    var probe := Acquire(resource, ttl, uuid(n));
    if n > 0 {
      var earlier := HoldOps(others, resource, ttl, uuid, n - 1);
      EnteringIsGuarded(s, others, resource, ttl, uuid, deadline, n - 1);
      EnteringIsARun(s, others, resource, ttl, uuid, deadline, n - 1);
      assert Held(ProbeAt(s, others, n - 1), resource);
      ProbeOutcome(ProbeAt(s, others, n - 1), resource, ttl, uuid(n - 1));
      GuardedAppend(s, earlier, others(n - 1));
      ProbeIsGuarded(Run(s, earlier + others(n - 1)), probe);
      GuardedAppend(s, earlier + others(n - 1), [probe]);
    } else {
      ProbeIsGuarded(s, probe);
    }
  }

  lemma ProbeIsGuarded(s: State, probe: Op)
    requires probe.Acquire?
    ensures GuardedRun(s, [probe])
  {}

  lemma {:induction false} GuardedAppend(s: State, a: seq<Op>, b: seq<Op>)
    requires GuardedRun(s, a) && GuardedRun(Run(s, a), b)
    ensures GuardedRun(s, a + b)
  {
    hide Run, Guarded;
    forall i | 0 <= i < |a + b| ensures Guarded(Run(s, (a + b)[..i]), (a + b)[i]) {
      if i < |a| {
        assert (a + b)[..i] == a[..i];
      } else {
        assert (a + b)[..i] == a + b[..i - |a|];
        RunAppend(s, a, b[..i - |a|]);
      }
    }
  }

  /** A tenure never changes hands: operations append tenures and may mark old ones released, no more. */
  lemma {:induction false} TenuresOnlyGrow(s: State, ops: seq<Op>)
    ensures |s.tenures| <= |Run(s, ops).tenures|
    ensures forall k :: 0 <= k < |s.tenures| ==>
              Run(s, ops).tenures[k] == s.tenures[k].(released := Run(s, ops).tenures[k].released)
  {
    if ops != [] {
      TenuresOnlyGrow(s, ops[..|ops| - 1]);
    }
  }

  lemma {:induction false} ProbesOnlyGrow(s: State, others: nat -> seq<Op>, n: nat)
    ensures |s.tenures| <= |ProbeAt(s, others, n).tenures|
  {
    if n > 0 {
      ProbesOnlyGrow(s, others, n - 1);
      TenuresOnlyGrow(ProbeAt(s, others, n - 1), others(n - 1));
    }
  }

  lemma WaitedStart(s: State, others: nat -> seq<Op>, resource: string, deadline: int)
    ensures ProbeAt(s, others, 0) == s && Waited(s, others, resource, deadline, 0)
  {}

  lemma WaitedMore(s: State, others: nat -> seq<Op>, resource: string, deadline: int, n: nat)
    requires Waited(s, others, resource, deadline, n)
    requires Held(ProbeAt(s, others, n), resource) && ProbeAt(s, others, n).now < deadline
    ensures Waited(s, others, resource, deadline, n + 1)
    ensures ProbeAt(s, others, n + 1) == Run(ProbeAt(s, others, n), others(n))
  {}

  /** What a successful probe adds. */
  predicate Got(before: State, after: State, resource: string, ttl: int, token: string) {
    && after.now == before.now
    && after.tenures == before.tenures + [Tenure(resource, token, before.now + 1000 * ttl, false)]
  }

  lemma ProbeOutcome(s: State, resource: string, ttl: int, token: string)
    ensures resource == "" || ttl <= 0 || Held(s, resource) ==> Next(s, Acquire(resource, ttl, token)) == s
    ensures resource != "" && ttl > 0 && !Held(s, resource) ==>
              Got(s, Next(s, Acquire(resource, ttl, token)), resource, ttl, token)
  {}

  /** hold(): the context manager. A sleep of the poll loop lasts at least poll, and at least a millisecond. */
  class Hold {
    const server: RedisServer
    const resource: string
    const ttl: int
    const wait: int
    const poll: int
    var token: Option<string>
    var tenure: nat            // which grant the token came from

    constructor (server: RedisServer, resource: string, ttl: int, wait: int, poll: int)
      ensures this.server == server && this.resource == resource && this.ttl == ttl
      ensures this.wait == wait && this.poll == poll && token == None
    {
      this.server, this.resource, this.ttl, this.wait, this.poll := server, resource, ttl, wait, poll;
      token := None;
      tenure := 0;
    }

    /** The token, if there is one, is that of the tenure; TenuresOnlyGrow keeps this true. */
    ghost predicate Granted()
      reads this, server
    {
      token.Some? ==>
        tenure < |server.tenures| && server.tenures[tenure].resource == resource
        && server.tenures[tenure].token == token.value
    }

    /** Entered and not yet exited. */
    ghost predicate Inside()
      reads this, server
    {
      Granted() && token.Some? && !server.tenures[tenure].released
    }

    /**
     __enter__: probe, then sleep and probe again until the deadline. others(k) is what happens during
     the k-th sleep and uuid(k) the token of the k-th probe; n is the number of sleeps.
     */
    method Enter(others: nat -> seq<Op>, uuid: nat -> string) returns (result: Result<string, LockError>, n: nat)
      requires forall k: nat :: Duration(others(k)) > 0 && Duration(others(k)) >= poll
      modifies this, server
      ensures result == Err(BadArguments) <==> resource == "" || ttl <= 0
      ensures result == Err(BadArguments) ==> server.Model() == old(server.Model())
      ensures result != Err(BadArguments) ==>
                Waited(old(server.Model()), others, resource, old(server.now) + (if wait > 0 then wait else 0), n)
      ensures server.Model() == Next(ProbeAt(old(server.Model()), others, n), Acquire(resource, ttl, uuid(n)))
      ensures result.Ok? ==>
                && result.value == uuid(n) && token == Some(result.value)
                && !Held(ProbeAt(old(server.Model()), others, n), resource)
                && tenure >= |old(server.tenures)| && Inside()
                && server.tenures[tenure].until == server.now + 1000 * ttl
      ensures result == Err(Busy) ==>
                && token == None && Held(server.Model(), resource)
                && server.now >= old(server.now) + (if wait > 0 then wait else 0)
    {
      hide Run, Duration, ProbeAt, Waited, Next, Held;
      n := 0;
      ProbeOutcome(server.Model(), resource, ttl, uuid(0));
      var deadline := server.now + (if wait > 0 then wait else 0);
      WaitedStart(server.Model(), others, resource, deadline);
      var probe := server.TryAcquire(resource, ttl, uuid(0));
      if probe.Err? {
        return Err(BadArguments), 0;
      }
      token := probe.value;
      while token == None && server.now < deadline
        invariant resource != "" && ttl > 0
        invariant Waited(old(server.Model()), others, resource, deadline, n)
        invariant token == if Held(ProbeAt(old(server.Model()), others, n), resource) then None else Some(uuid(n))
        invariant server.Model() == Next(ProbeAt(old(server.Model()), others, n), Acquire(resource, ttl, uuid(n)))
        invariant token == None ==> server.Model() == ProbeAt(old(server.Model()), others, n)
        invariant token.Some? ==> Got(ProbeAt(old(server.Model()), others, n), server.Model(), resource, ttl, uuid(n))
        decreases deadline - server.now
      {
        WaitedMore(old(server.Model()), others, resource, deadline, n);
        SleepTakes(server.Model(), others(n));
        server.Others(others(n));
        n := n + 1;
        ProbeOutcome(server.Model(), resource, ttl, uuid(n));
        probe := server.TryAcquire(resource, ttl, uuid(n));
        token := probe.value;
      }
      if token == None {
        return Err(Busy), n;
      }
      ProbesOnlyGrow(old(server.Model()), others, n);
      tenure := |server.tenures| - 1;
      result := Ok(token.value);
    }

    /** __exit__: give the token back, if there is one. */
    method Exit()
      requires Granted()
      modifies server
      ensures server.Model()
           == if token.Some? then Next(old(server.Model()), Release(tenure)) else old(server.Model())
      ensures Granted() && !Inside()
    {
      if token.Some? {
        var _ := server.ReleaseToken(resource, token.value);
        server.tenures := server.tenures[tenure := server.tenures[tenure].(released := true)];
      }
    }
  }

  /**
   Two holds of one resource overlap only if one has outlived its ttl: whatever guarded run, of their own
   entering and exiting and of everybody else's operations, led to a moment at which both are inside.
   */
  lemma HoldsOverlapOnlyByExpiry(a: Hold, b: Hold, ops: seq<Op>)
    requires a.server == b.server && a.resource == b.resource && a.tenure != b.tenure
    requires a.Inside() && b.Inside()
    requires GuardedRun(Start, ops) && a.server.Model() == Run(Start, ops)
    ensures a.server.now >= a.server.tenures[a.tenure].until || b.server.now >= b.server.tenures[b.tenure].until
  {
    OverlapNeedsExpiry(ops, a.tenure, b.tenure);
  }
}
