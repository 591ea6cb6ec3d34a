/**
 The lease engine (leases/lease_engine.py): an append-only log of lease records. The newest record of
 an id decides, so a lease is as good as the last activation or revocation that named it.
 */
module LeaseEngine {
  import opened Wrappers

  datatype Status = REQUESTED | ACTIVE | REJECTED | REVOKED

  /** A connector, when one is named, and the verbs allowed or asked for on it. */
  datatype Scope = Scope(connector: Option<string>, verbs: seq<string>)

  /** One line of the log: a snapshot of a lease at the moment it was written. */
  datatype Record = Record(id: string, actor: string, scope: Scope, ttl: real, expires: Option<real>,
                           status: Status, revoked: bool)

  datatype Reason =
    | LeaseNotFound
    | LeaseRevoked
    | LeaseNotActive(status: Status)
    | LeaseExpired
    | ScopeConnectorMismatch
    | ScopeVerbMissing(verb: string)

  datatype Op =
    | Activate(lease: Record, verdict: string, now: real)
    | Revoke(id: string)

  const SEAL := "SEAL"

  // ----- Specification -----

  /** The newest record of an id. */
  function Find(log: seq<Record>, id: string): Option<Record> {
    if log == [] then None
    else if log[|log| - 1].id == id then Some(log[|log| - 1])
    else Find(log[..|log| - 1], id)
  }

  function Activated(lease: Record, now: real): Record {
    lease.(status := ACTIVE, expires := Some(now + lease.ttl))
  }

  function Next(log: seq<Record>, op: Op): seq<Record> {
    match op
    case Activate(lease, verdict, now) => if verdict == SEAL then log + [Activated(lease, now)] else log
    case Revoke(id) =>
      match Find(log, id)
      case None => log
      case Some(r) => log + [r.(revoked := true, status := REVOKED)]
  }

  function Run(log: seq<Record>, ops: seq<Op>): seq<Record> {
    if ops == [] then log else Next(Run(log, ops[..|ops| - 1]), ops[|ops| - 1])
  }

  /** The first verb of a list that another list does not offer. */
  function FirstMissing(asked: seq<string>, offered: seq<string>): Option<string> {
    if asked == [] then None
    else if asked[0] !in offered then Some(asked[0])
    else FirstMissing(asked[1..], offered)
  }

  /** The answer for the record found; LogOnlyGrows shows that no logged record lacks an expiry. */
  function Judge(found: Option<Record>, required: Scope, now: real): Result<Record, Reason> {
    match found
    case None => Err(LeaseNotFound)
    case Some(r) =>
      if r.revoked then Err(LeaseRevoked)
      else if r.status != ACTIVE then Err(LeaseNotActive(r.status))
      else if now > (match r.expires case Some(t) => t case None => 0.0) then Err(LeaseExpired)
      else if r.scope.connector != required.connector then Err(ScopeConnectorMismatch)
      else match FirstMissing(required.verbs, r.scope.verbs)
        case Some(v) => Err(ScopeVerbMissing(v))
        case None => Ok(r)
  }

  function Validate(log: seq<Record>, id: string, required: Scope, now: real): Result<Record, Reason> {
    Judge(Find(log, id), required, now)
  }

  // ----- The log as a map -----

  /** The log read forwards, each record overwriting the one before it. */
  function LastWrite(log: seq<Record>): map<string, Record> {
    if log == [] then map[] else LastWrite(log[..|log| - 1])[log[|log| - 1].id := log[|log| - 1]]
  }

  /** Scanning backwards for an id is looking it up in the last-write map. */
  lemma {:induction false} ScanIsLastWrite(log: seq<Record>, id: string)
    ensures Find(log, id) == if id in LastWrite(log) then Some(LastWrite(log)[id]) else None
  {
    if log != [] {
      ScanIsLastWrite(log[..|log| - 1], id);
    }
  }

  lemma {:induction false} FindAppend(log: seq<Record>, r: Record, id: string)
    ensures Find(log + [r], id) == if r.id == id then Some(r) else Find(log, id)
  {
    assert (log + [r])[..|log|] == log;
  }

  lemma {:induction false} FoundIsNamed(log: seq<Record>, id: string)
    ensures Find(log, id).Some? ==> Find(log, id).value.id == id
  {
    if log != [] {
      FoundIsNamed(log[..|log| - 1], id);
    }
  }

  lemma {:induction false} CoveredExactly(asked: seq<string>, offered: seq<string>)
    ensures FirstMissing(asked, offered) == None <==> forall v :: v in asked ==> v in offered
    ensures var m := FirstMissing(asked, offered); m.Some? ==> m.value in asked && m.value !in offered
  {
    if asked != [] {
      assert asked == [asked[0]] + asked[1..];
      CoveredExactly(asked[1..], offered);
    }
  }

  // ----- What an operation does to an id -----

  /** The operation writes a fresh activation of the id. */
  predicate Seals(op: Op, id: string) {
    op.Activate? && op.verdict == SEAL && op.lease.id == id
  }

  predicate Touches(op: Op, id: string) {
    Seals(op, id) || op == Revoke(id)
  }

  /** An operation that does not touch an id leaves the record found for it alone. */
  lemma {:induction false} UntouchedByOthers(log: seq<Record>, op: Op, id: string)
    requires !Touches(op, id)
    ensures Find(Next(log, op), id) == Find(log, id)
  {
    match op
    case Activate(lease, verdict, now) => FindAppend(log, Activated(lease, now), id);
    case Revoke(other) =>
      FoundIsNamed(log, other);
      if Find(log, other).Some? {
        FindAppend(log, Find(log, other).value.(revoked := true, status := REVOKED), id);
      }
  }

  /** What a touching operation makes of the record found before it. */
  function Effect(found: Option<Record>, op: Op): Option<Record> {
    match op
    case Activate(lease, _, now) => Some(Activated(lease, now))
    case Revoke(_) => if found.Some? then Some(found.value.(revoked := true, status := REVOKED)) else None
  }

  lemma {:induction false} TouchEffect(log: seq<Record>, op: Op, id: string)
    requires Touches(op, id)
    ensures Find(Next(log, op), id) == Effect(Find(log, id), op)
  {
    match op
    case Activate(lease, verdict, now) => FindAppend(log, Activated(lease, now), id);
    case Revoke(other) =>
      FoundIsNamed(log, id);
      if Find(log, id).Some? {
        FindAppend(log, Find(log, id).value.(revoked := true, status := REVOKED), id);
      }
  }

  lemma RunStep(log: seq<Record>, ops: seq<Op>, op: Op)
    ensures Run(log, ops + [op]) == Next(Run(log, ops), op)
  {
    assert (ops + [op])[..|ops|] == ops;
  }

  /**
   Leases do not interfere: dropping every operation that does not touch an id from any history,
   started on any log, leaves the answer to every question about that id as it was.
   */
  lemma {:induction false} OtherIdsNeverMatter(log: seq<Record>, ops: seq<Op>, id: string, required: Scope, now: real)
    ensures Find(Run(log, ops), id) == Find(Run(log, Filter(ops, o => Touches(o, id))), id)
    ensures Validate(Run(log, ops), id, required, now)
         == Validate(Run(log, Filter(ops, o => Touches(o, id))), id, required, now)
  {
    if ops != [] {
      var before, op := ops[..|ops| - 1], ops[|ops| - 1];
      var kept := Filter(before, o => Touches(o, id));
      OtherIdsNeverMatter(log, before, id, required, now);
      assert ops == before + [op];
      FilterAppend(before, op, o => Touches(o, id));
      if Touches(op, id) {
        RunStep(log, kept, op);
        TouchEffect(Run(log, before), op, id);
        TouchEffect(Run(log, kept), op, id);
      } else {
        assert kept + [] == kept;
        UntouchedByOthers(Run(log, before), op, id);
      }
    }
  }

  // ----- Lease histories from an empty log -----

  /** k is the last operation of the history that touches the id. */
  ghost predicate LastTouch(ops: seq<Op>, id: string, k: nat) {
    k < |ops| && Touches(ops[k], id) && forall j :: k < j < |ops| ==> !Touches(ops[j], id)
  }

  /** The record found after a history is the effect of the last operation that touched the id. */
  lemma {:induction false} FoundByLastTouch(ops: seq<Op>, id: string, k: nat)
    requires LastTouch(ops, id, k)
    ensures Find(Run([], ops), id) == Effect(Find(Run([], ops[..k]), id), ops[k])
  {
    hide Next, Find, Effect, Touches;
    var n := |ops| - 1;
    var before := ops[..n];
    if k == n {
      TouchEffect(Run([], before), ops[n], id);
    } else {
      assert LastTouch(before, id, k);
      FoundByLastTouch(before, id, k);
      assert before[..k] == ops[..k];
      UntouchedByOthers(Run([], before), ops[n], id);
    }
  }

  lemma {:induction false} NeverTouchedNeverFound(ops: seq<Op>, id: string)
    requires forall k :: 0 <= k < |ops| ==> !Touches(ops[k], id)
    ensures Find(Run([], ops), id) == None
  {
    if ops != [] {
      NeverTouchedNeverFound(ops[..|ops| - 1], id);
      UntouchedByOthers(Run([], ops[..|ops| - 1]), ops[|ops| - 1], id);
    }
  }

  lemma {:induction false} LastTouchExists(ops: seq<Op>, id: string, k: nat) returns (last: nat)
    requires k < |ops| && Touches(ops[k], id)
    ensures LastTouch(ops, id, last) && last >= k
    decreases |ops| - k
  {
    if j :| k < j < |ops| && Touches(ops[j], id) {
      last := LastTouchExists(ops, id, j);
    } else {
      last := k;
    }
  }

  predicate Covers(held: Scope, required: Scope) {
    held.connector == required.connector && forall v | v in required.verbs :: v in held.verbs
  }

  /** Operation k gives the lease a validity that still holds at the given time for the given scope. */
  predicate Grants(op: Op, id: string, required: Scope, now: real) {
    Seals(op, id) && !op.lease.revoked && now <= op.now + op.lease.ttl && Covers(op.lease.scope, required)
  }

  /**
   The whole history of a lease in one line: it validates exactly when the last operation touching
   its id is a sealed activation, of a lease not marked revoked, that is unexpired and covers the scope.
   */
  lemma {:induction false} ValidExactly(ops: seq<Op>, id: string, required: Scope, now: real)
    ensures Validate(Run([], ops), id, required, now).Ok?
        <==> exists k: nat :: LastTouch(ops, id, k) && Grants(ops[k], id, required, now)
  {
    if k :| 0 <= k < |ops| && Touches(ops[k], id) {
      var last := LastTouchExists(ops, id, k);
      FoundByLastTouch(ops, id, last);
      if ops[last].Activate? {
        CoveredExactly(required.verbs, ops[last].lease.scope.verbs);
      }
      assert forall j: nat :: LastTouch(ops, id, j) ==> j == last;
    } else {
      NeverTouchedNeverFound(ops, id);
    }
  }

  /** The id is in the log exactly when some operation sealed it; revoking alone writes nothing. */
  lemma {:induction false} FoundExactly(ops: seq<Op>, id: string)
    ensures Find(Run([], ops), id).Some? <==> exists j :: 0 <= j < |ops| && Seals(ops[j], id)
  {
    hide Find, Next;
    FindInEmpty(id);
    if ops != [] {
      var before, op := ops[..|ops| - 1], ops[|ops| - 1];
      FoundExactly(before, id);
      assert ops == before + [op];
      SealedBy(before, op, id);
      if Touches(op, id) {
        TouchEffect(Run([], before), op, id);
      } else {
        UntouchedByOthers(Run([], before), op, id);
      }
    }
  }

  lemma FindInEmpty(id: string)
    ensures Find([], id) == None
  {}

  lemma SealedBy(before: seq<Op>, op: Op, id: string)
    ensures (exists j :: 0 <= j < |before + [op]| && Seals((before + [op])[j], id))
        <==> Seals(op, id) || exists j :: 0 <= j < |before| && Seals(before[j], id)
  {
    var more := before + [op];
    assert more[|before|] == op && forall j :: 0 <= j < |before| ==> more[j] == before[j];
  }

  /** v is the first verb asked for that is not offered. */
  ghost predicate FirstLacking(asked: seq<string>, offered: seq<string>, v: string) {
    exists m :: 0 <= m < |asked| && asked[m] == v && v !in offered && forall j :: 0 <= j < m ==> asked[j] in offered
  }

  lemma {:induction false} FirstMissingExactly(asked: seq<string>, offered: seq<string>)
    ensures FirstMissing(asked, offered) == None ==> forall v :: v in asked ==> v in offered
    ensures FirstMissing(asked, offered).Some? ==> FirstLacking(asked, offered, FirstMissing(asked, offered).value)
  {
    CoveredExactly(asked, offered);
    if asked != [] && asked[0] in offered {
      FirstMissingExactly(asked[1..], offered);
      if FirstMissing(asked[1..], offered).Some? {
        var v := FirstMissing(asked[1..], offered).value;
        var m :| 0 <= m < |asked[1..]| && asked[1..][m] == v && v !in offered
                 && forall j :: 0 <= j < m ==> asked[1..][j] in offered;
        assert asked[m + 1] == v;
        forall j | 0 <= j < m + 1 ensures asked[j] in offered {
          assert j > 0 ==> asked[1..][j - 1] == asked[j];
        }
      }
    }
  }

  /** What a sealed activation of a lease answers, test by test in order. */
  ghost predicate Answers(lease: Record, sealed: real, required: Scope, now: real, answer: Result<Record, Reason>) {
    if lease.revoked then answer == Err(LeaseRevoked)
    else if now > sealed + lease.ttl then answer == Err(LeaseExpired)
    else if lease.scope.connector != required.connector then answer == Err(ScopeConnectorMismatch)
    else if forall v :: v in required.verbs ==> v in lease.scope.verbs then
      answer == Ok(Record(lease.id, lease.actor, lease.scope, lease.ttl, Some(sealed + lease.ttl), ACTIVE, false))
    else
      answer.Err? && answer.error.ScopeVerbMissing?
      && FirstLacking(required.verbs, lease.scope.verbs, answer.error.verb)
  }

  /** The last operation on the id revoked it, when some earlier one had sealed it. */
  ghost predicate RevokedLast(ops: seq<Op>, id: string, k: nat) {
    LastTouch(ops, id, k) && ops[k] == Revoke(id) && exists j :: 0 <= j < k && Seals(ops[j], id)
  }

  /**
   Every answer, exactly, by the history of the id: not found while nothing sealed it; revoked when the
   last operation on it revoked it; otherwise what its last sealed activation answers.
   */
  lemma {:induction false} AnsweredExactly(ops: seq<Op>, id: string, required: Scope, now: real)
    ensures var answer := Validate(Run([], ops), id, required, now);
            && ((forall j :: 0 <= j < |ops| ==> !Seals(ops[j], id)) ==> answer == Err(LeaseNotFound))
            && (forall k: nat :: LastTouch(ops, id, k) && Seals(ops[k], id) ==>
                  Answers(ops[k].lease, ops[k].now, required, now, answer))
            && (forall k: nat :: RevokedLast(ops, id, k) ==> answer == Err(LeaseRevoked))
  {
    FoundExactly(ops, id);
    forall k: nat | LastTouch(ops, id, k)
      ensures Seals(ops[k], id) ==>
                Answers(ops[k].lease, ops[k].now, required, now, Validate(Run([], ops), id, required, now))
      ensures RevokedLast(ops, id, k) ==> Validate(Run([], ops), id, required, now) == Err(LeaseRevoked)
    {
      FoundByLastTouch(ops, id, k);
      if Seals(ops[k], id) {
        SealAnswers(ops[k], required, now);
      } else {
        FoundExactly(ops[..k], id);
        assert forall j :: 0 <= j < k ==> ops[..k][j] == ops[j];
      }
    }
  }

  lemma SealAnswers(op: Op, required: Scope, now: real)
    requires op.Activate?
    ensures Answers(op.lease, op.now, required, now, Judge(Some(Activated(op.lease, op.now)), required, now))
  {
    CoveredExactly(required.verbs, op.lease.scope.verbs);
    FirstMissingExactly(required.verbs, op.lease.scope.verbs);
  }

  /**
   A lease activated once, at operation k, and not marked revoked when it was: it validates exactly
   until its time is up, while no later operation revokes it, for a scope it covers. Revocations
   before the activation find nothing and do not count.
   */
  lemma {:induction false} ActivatedOnce(ops: seq<Op>, k: nat, id: string, required: Scope, now: real)
    requires k < |ops| && Seals(ops[k], id) && !ops[k].lease.revoked
    requires forall j :: 0 <= j < |ops| && j != k ==> !Seals(ops[j], id)
    ensures Validate(Run([], ops), id, required, now).Ok?
        <==> && now <= ops[k].now + ops[k].lease.ttl
             && Covers(ops[k].lease.scope, required)
             && forall j :: k < j < |ops| ==> ops[j] != Revoke(id)
  {
    ValidExactly(ops, id, required, now);
    var last := LastTouchExists(ops, id, k);
    assert last == k || ops[last] == Revoke(id);
    assert forall j: nat :: LastTouch(ops, id, j) ==> j == last;
  }

  /**
   Revocation lasts exactly until the id is activated again: with the lease known when it is revoked
   at operation k, every question is answered "revoked" while no later operation seals the id.
   */
  lemma {:induction false} RevokedUntilReactivated(ops: seq<Op>, k: nat, id: string, required: Scope, now: real)
    requires k < |ops| && ops[k] == Revoke(id) && Find(Run([], ops[..k]), id).Some?
    requires forall j :: k < j < |ops| ==> !Seals(ops[j], id)
    ensures Validate(Run([], ops), id, required, now) == Err(LeaseRevoked)
  {
    if |ops| == k + 1 {
      TouchEffect(Run([], ops[..k]), ops[k], id);
    } else {
      var n := |ops| - 1;
      assert ops[..n][..k] == ops[..k];
      RevokedUntilReactivated(ops[..n], k, id, required, now);
      var found := Find(Run([], ops[..n]), id);
      if Touches(ops[n], id) {
        TouchEffect(Run([], ops[..n]), ops[n], id);
      } else {
        UntouchedByOthers(Run([], ops[..n]), ops[n], id);
      }
    }
  }

  /**
   The exception is real: whatever the history, sealing once more the lease that its requester still
   holds (never marked revoked there) makes the lease valid again after a revocation.
   */
  lemma {:induction false} ReactivationRevives(ops: seq<Op>, lease: Record, t: real)
    requires !lease.revoked && lease.ttl >= 0.0
    ensures Validate(Run([], ops + [Revoke(lease.id), Activate(lease, SEAL, t)]), lease.id, lease.scope, t)
            == Ok(Activated(lease, t))
  {
    var seal := Activate(lease, SEAL, t);
    assert ops + [Revoke(lease.id), seal] == (ops + [Revoke(lease.id)]) + [seal];
    RunStep([], ops + [Revoke(lease.id)], seal);
    TouchEffect(Run([], ops + [Revoke(lease.id)]), seal, lease.id);
    CoveredExactly(lease.scope.verbs, lease.scope.verbs);
  }

  /** The log only grows, and every record in it is an activation or a revocation with an expiry. */
  lemma {:induction false} LogOnlyGrows(ops: seq<Op>, k: nat)
    requires k <= |ops|
    ensures Run([], ops[..k]) <= Run([], ops)
    ensures forall r :: r in Run([], ops) ==>
              && r.expires.Some?
              && ((r.status == ACTIVE) || (r.status == REVOKED && r.revoked))
  {
    if ops == [] {
    } else {
      var n := |ops| - 1;
      LogOnlyGrows(ops[..n], if k <= n then k else n);
      var log := Run([], ops[..n]);
      if k <= n {
        assert ops[..n][..k] == ops[..k];
      } else {
        assert ops[..k] == ops;
      }
      if ops[n].Revoke? {
        FindIn(log, ops[n].id);
      }
    }
  }

  lemma {:induction false} FindIn(log: seq<Record>, id: string)
    ensures Find(log, id).Some? ==> Find(log, id).value in log
  {
    if log != [] {
      FindIn(log[..|log| - 1], id);
    }
  }

  // ----- The engine -----

  /** A lease as its requester holds it; activation changes it in place. */
  class Lease {
    const id: string
    const actor: string
    const scope: Scope
    const ttl: real
    var expires: Option<real>
    var status: Status
    var revoked: bool

    constructor (id: string, actor: string, scope: Scope, ttl: real)
      ensures Snapshot() == Record(id, actor, scope, ttl, None, REQUESTED, false)
    {
      this.id, this.actor, this.scope, this.ttl := id, actor, scope, ttl;
      expires, status, revoked := None, REQUESTED, false;
    }

    function Snapshot(): Record
      reads this
    {
      Record(id, actor, scope, ttl, expires, status, revoked)
    }
  }

  class LeaseEngine {
    var log: seq<Record>

    constructor ()
      ensures log == []
    {
      log := [];
    }

    /** A request only builds the lease; nothing is logged until it is activated. */
    method Request(uuid: string, actor: string, scope: Scope, ttl: real) returns (lease: Lease)
      ensures fresh(lease)
      ensures lease.Snapshot() == Record("lease_" + uuid, actor, scope, ttl, None, REQUESTED, false)
    {
      lease := new Lease("lease_" + uuid, actor, scope, ttl);
    }

    method Activate(lease: Lease, verdict: string, now: real)
      modifies this, lease
      ensures log == Next(old(log), Op.Activate(old(lease.Snapshot()), verdict, now))
      ensures lease.Snapshot() == if verdict == SEAL then Activated(old(lease.Snapshot()), now)
                                  else old(lease.Snapshot()).(status := REJECTED)
      ensures verdict == SEAL ==> Find(log, lease.id) == Some(lease.Snapshot())
    {
      if verdict != SEAL {
        lease.status := REJECTED;
        return;
      }
      lease.status := ACTIVE;
      lease.expires := Some(now + lease.ttl);
      Write(lease.Snapshot());
    }

    method Write(r: Record)
      modifies this
      ensures log == old(log) + [r]
    {
      log := log + [r];
    }

    /** The scan from the newest record backwards. */
    method Scan(id: string) returns (found: Option<Record>)
      ensures found == Find(log, id)
    {
      var i := |log|;
      assert log[..i] == log;
      while i > 0
        invariant 0 <= i <= |log|
        invariant Find(log, id) == Find(log[..i], id)
      {
        i := i - 1;
        assert log[..i + 1][..i] == log[..i];
        if log[i].id == id {
          return Some(log[i]);
        }
      }
      return None;
    }

    /** Reads only: an expired lease is reported as such, and neither the log nor the requester's copy changes. */
    method Check(id: string, required: Scope, now: real) returns (answer: Result<Record, Reason>)
      ensures answer == Validate(log, id, required, now)
      ensures answer.Ok? ==> answer.value.id == id && answer.value in log && Covers(answer.value.scope, required)
    {
      var found := Scan(id);
      if found == None {
        return Err(LeaseNotFound);
      }
      var r := found.value;
      if r.revoked {
        return Err(LeaseRevoked);
      }
      if r.status != ACTIVE {
        return Err(LeaseNotActive(r.status));
      }
      if now > (match r.expires case Some(t) => t case None => 0.0) {
        return Err(LeaseExpired);
      }
      if r.scope.connector != required.connector {
        return Err(ScopeConnectorMismatch);
      }
      var i := 0;
      while i < |required.verbs|
        invariant 0 <= i <= |required.verbs|
        invariant FirstMissing(required.verbs, r.scope.verbs) == FirstMissing(required.verbs[i..], r.scope.verbs)
      {
        if required.verbs[i] !in r.scope.verbs {
          return Err(ScopeVerbMissing(required.verbs[i]));
        }
        i := i + 1;
      }
      FoundIsNamed(log, id);
      FindIn(log, id);
      CoveredExactly(required.verbs, r.scope.verbs);
      return Ok(r);
    }

    method Revoke(id: string) returns (revoked: bool)
      modifies this
      ensures log == Next(old(log), Op.Revoke(id))
      ensures revoked <==> Find(old(log), id).Some?
      ensures revoked ==> forall required, now :: Validate(log, id, required, now) == Err(LeaseRevoked)
    {
      var found := Scan(id);
      if found == None {
        return false;
      }
      TouchEffect(log, Op.Revoke(id), id);
      Write(found.value.(revoked := true, status := REVOKED));
      return true;
    }
  }
}
