/**
 The guard in front of every tool call (a_think/mcp_guard.py, affordance.py, router.py): sessions
 with the budget of the mode that opened them, the stop rules of the mode of the current call, and
 the affordance cards that say what a tool may do.
 */
module McpGuard {
  import opened Wrappers

  datatype Mode = FAST | THINK | GOVERN

  datatype Budget = Budget(maxSteps: int, maxTools: int)

  /** A card; a field that a registration left undeclared is None. */
  datatype Card = Card(
    name: string,
    purpose: string,
    inputs: seq<string>,
    outputs: seq<string>,
    externalSideEffect: Option<bool>,
    destructive: Option<bool>,
    reversible: Option<bool>,
    requiresHumanApproval: Option<bool>,
    minMode: string)

  datatype Status = ALLOW | HOLD | DENY | STOP

  /** What calling the tool does: there is no function to call, it returns, or it raises. */
  datatype Exec = DryRun | Succeeds | Raises

  datatype ResultStatus = Blocked | Held | Success | Error | DryRunStatus

  datatype Request = Request(session: string, mode: Mode, tool: string, exec: Exec)

  datatype Call = Call(mode: Mode, tool: string, decision: Status, result: ResultStatus,
                       toolsShown: int, stepsShown: int)

  datatype Session = Session(mode: Mode, budget: Budget, toolsUsed: int, stepsUsed: int, calls: seq<Call>)

  datatype Config = Config(cards: map<string, Card>, budgets: Mode -> Budget)

  type State = map<string, Session>

  function ModeName(mode: Mode): string {
    match mode case FAST => "FAST" case THINK => "THINK" case GOVERN => "GOVERN"
  }

  function ShippedBudgets(mode: Mode): Budget {
    match mode case FAST => Budget(1, 0) case THINK => Budget(12, 10) case GOVERN => Budget(20, 40)
  }

  // ----- Affordance cards -----

  predicate Blank(s: string) {
    forall c | c in s :: c in " \t\n\r"
  }

  predicate IsKnown(card: Card) {
    && !Blank(card.purpose)
    && (card.inputs != [] || card.outputs != [])
    && card.externalSideEffect.Some?
    && card.destructive.Some?
    && card.reversible.Some?
    && card.requiresHumanApproval.Some?
    && card.minMode != ""
  }

  function RequestLevel(mode: Mode): int {
    match mode case FAST => 0 case THINK => 1 case GOVERN => 2
  }

  function MinLevel(minMode: string): int {
    if minMode == "FAST" then 0 else if minMode == "THINK" then 1 else if minMode == "GOVERN" then 2 else 99
  }

  const TOOL_TEXT := "HARAM: tool "
  const UNKNOWN := "UNKNOWN"

  function Reason(tool: string, rest: string): string {
    TOOL_TEXT + ['\''] + tool + ['\''] + rest
  }

  /** What follows the tool's name in the reason of each refusal. */
  function NoCardText(text: string): string {
    text + UNKNOWN + " = HOLD)"
  }

  function ModeText(minMode: string, mode: Mode): string {
    " requires min_mode" + ['='] + minMode + [','] + (" requested=" + ModeName(mode))
  }

  const APPROVAL_TEXT := " is destructive" + " but does not" + " require human approval"

  function CheckExecution(cards: map<string, Card>, tool: string, mode: Mode): (bool, string) {
    if tool !in cards then
      (false, Reason(tool, NoCardText(" has no affordance card (")))
    else
      var card := cards[tool];
      if !IsKnown(card) then
        (false, Reason(tool, NoCardText(" has incomplete affordance card (")))
      else if RequestLevel(mode) < MinLevel(card.minMode) then
        (false, Reason(tool, ModeText(card.minMode, mode)))
      else if card.destructive.value && !card.requiresHumanApproval.value then
        (false, Reason(tool, APPROVAL_TEXT))
      else
        (true, "ALLOWED")
  }

  // ----- Stop rules -----

  datatype AgentState = AgentState(mode: Mode, stepCount: int, toolCount: int, answerSufficient: bool,
                                   riskUnresolved: bool, gain: string, repeatedReasoning: int)

  function ShouldStop(a: AgentState, budget: Budget): bool {
    || (a.answerSufficient && !a.riskUnresolved)
    || a.stepCount >= budget.maxSteps
    || a.toolCount >= budget.maxTools
    || a.gain == "low"
    || a.repeatedReasoning >= 2
  }

  // ----- Specification of one call -----

  predicate Contains(s: string, part: string) {
    exists i :: 0 <= i <= |s| && part <= s[i..]
  }

  /** The markers whose presence in a reason turns a refusal into a hold. */
  predicate Marked(s: string) {
    Contains(s, UNKNOWN) || Contains(s, "no affordance card")
  }

  datatype Permission = Permission(status: Status, requiresHumanApproval: bool)

  /** session is the caller's session when it has a non-empty id and is known. */
  function PermissionFor(cards: map<string, Card>, tool: string, mode: Mode, session: Option<Session>): Permission {
    var (allowed, reason) := CheckExecution(cards, tool, mode);
    if !allowed then
      Permission(if Marked(reason) then HOLD else DENY, false)
    else if session.Some? && session.value.toolsUsed >= session.value.budget.maxTools then
      Permission(DENY, false)
    else
      Permission(ALLOW, tool in cards && cards[tool].requiresHumanApproval == Some(true))
  }

  /** Only a tool without permission to run is held by the permission check. */
  lemma PermissionStatus(cards: map<string, Card>, tool: string, mode: Mode, session: Option<Session>)
    ensures var p := PermissionFor(cards, tool, mode, session);
            && p.status != STOP
            && (p.status == HOLD ==> !CheckExecution(cards, tool, mode).0)
            && (p.status == ALLOW ==> CheckExecution(cards, tool, mode).0)
  {}

  function Decide(c: Config, s: Session, req: Request): Status {
    if ShouldStop(AgentState(req.mode, s.stepsUsed, s.toolsUsed, false, false, "unknown", 0), c.budgets(req.mode)) then
      STOP
    else
      var p := PermissionFor(c.cards, req.tool, req.mode, if req.session != "" then Some(s) else None);
      if p.status != ALLOW then p.status
      else if req.mode == GOVERN && p.requiresHumanApproval then HOLD
      else ALLOW
  }

  /** The state of a session before a call; an unknown id opens one with the budget of the call's mode. */
  function SessionFor(c: Config, st: State, id: string, mode: Mode): Session {
    if id in st then st[id] else Session(mode, c.budgets(mode), 0, 0, [])
  }

  function ResultOf(c: Config, s: Session, req: Request): ResultStatus {
    match Decide(c, s, req)
    case ALLOW => (match req.exec case DryRun => DryRunStatus case Succeeds => Success case Raises => Error)
    case HOLD => if CheckExecution(c.cards, req.tool, req.mode).0 then Held else Blocked
    case _ => Blocked
  }

  /** Every call uses a tool; only an executed one takes a step. */
  function Logged(s: Session, call: Call): Session {
    s.(toolsUsed := s.toolsUsed + 1,
       stepsUsed := s.stepsUsed + (if call.decision == ALLOW then 1 else 0),
       calls := s.calls + [call])
  }

  function CallOf(c: Config, s: Session, req: Request): Call {
    var d := Decide(c, s, req);
    Call(req.mode, req.tool, d, ResultOf(c, s, req), s.toolsUsed + (if d == ALLOW then 1 else 0), s.stepsUsed)
  }

  function Next(c: Config, st: State, req: Request): State {
    var s := SessionFor(c, st, req.session, req.mode);
    st[req.session := Logged(s, CallOf(c, s, req))]
  }

  lemma {:induction false} OpenThenLog(c: Config, st: State, req: Request, s: Session)
    requires s == SessionFor(c, st, req.session, req.mode)
    ensures st[req.session := s][req.session := Logged(s, CallOf(c, s, req))] == Next(c, st, req)
  {}

  // ----- Runs -----

  function Run(c: Config, reqs: seq<Request>): State {
    if reqs == [] then map[] else Next(c, Run(c, reqs[..|reqs| - 1]), reqs[|reqs| - 1])
  }

  /** The decision on a request that follows a history. */
  function Decision(c: Config, reqs: seq<Request>, req: Request): Status {
    Decide(c, SessionFor(c, Run(c, reqs), req.session, req.mode), req)
  }

  function Calls(reqs: seq<Request>, id: string): nat {
    if reqs == [] then 0
    else Calls(reqs[..|reqs| - 1], id) + if reqs[|reqs| - 1].session == id then 1 else 0
  }

  function Allows(c: Config, reqs: seq<Request>, id: string): nat {
    if reqs == [] then 0
    else
      var before, last := reqs[..|reqs| - 1], reqs[|reqs| - 1];
      Allows(c, before, id) + if last.session == id && Decision(c, before, last) == ALLOW then 1 else 0
  }

  /** The mode of the request that opened a session. */
  function Opening(reqs: seq<Request>, id: string): Option<Mode> {
    if reqs == [] then None
    else
      var earlier := Opening(reqs[..|reqs| - 1], id);
      if earlier == None && reqs[|reqs| - 1].session == id then Some(reqs[|reqs| - 1].mode) else earlier
  }

  /**
   The books balance over every run: a session exists once a call named it, keeps the mode and budget of
   the call that opened it, has used one tool per call whatever was decided, and one step per ALLOW.
   */
  lemma {:induction false} Accounting(c: Config, reqs: seq<Request>, id: string)
    ensures id in Run(c, reqs) <==> Opening(reqs, id).Some?
    ensures id in Run(c, reqs) <==> Calls(reqs, id) > 0
    ensures id in Run(c, reqs) ==>
              && var s := Run(c, reqs)[id];
              && s.mode == Opening(reqs, id).value && s.budget == c.budgets(s.mode)
              && s.toolsUsed == Calls(reqs, id) && s.stepsUsed == Allows(c, reqs, id)
    ensures id !in Run(c, reqs) ==> Allows(c, reqs, id) == 0
  {
    hide Decide, ResultOf;
    if reqs != [] {
      Accounting(c, reqs[..|reqs| - 1], id);
    }
  }

  ghost predicate Faithful(calls: seq<Call>) {
    forall i :: 0 <= i < |calls| ==>
      && calls[i].toolsShown == i + (if calls[i].decision == ALLOW then 1 else 0)
      && calls[i].stepsShown == AllowCalls(calls[..i])
  }

  function AllowCalls(calls: seq<Call>): nat {
    if calls == [] then 0
    else AllowCalls(calls[..|calls| - 1]) + if calls[|calls| - 1].decision == ALLOW then 1 else 0
  }

  lemma {:induction false} FaithfulAppend(calls: seq<Call>, call: Call)
    requires Faithful(calls)
    requires call.toolsShown == |calls| + (if call.decision == ALLOW then 1 else 0)
    requires call.stepsShown == AllowCalls(calls)
    ensures Faithful(calls + [call])
    ensures AllowCalls(calls + [call]) == AllowCalls(calls) + if call.decision == ALLOW then 1 else 0
  {
    var more := calls + [call];
    assert more[..|calls|] == calls;
    forall i | 0 <= i < |more|
      ensures more[i].toolsShown == i + (if more[i].decision == ALLOW then 1 else 0)
      ensures more[i].stepsShown == AllowCalls(more[..i])
    {
      assert i < |calls| ==> more[..i] == calls[..i];
    }
  }

  /**
   The session's own trace agrees with its counters: one record per call, in order, each showing the
   number of calls before it (itself included when allowed) and the number of ALLOW records before it.
   */
  lemma {:induction false} TraceIsFaithful(c: Config, reqs: seq<Request>, id: string)
    ensures id in Run(c, reqs) ==>
              && var s := Run(c, reqs)[id];
              && |s.calls| == s.toolsUsed && AllowCalls(s.calls) == s.stepsUsed && Faithful(s.calls)
  {
    hide Decide, ResultOf, Faithful, AllowCalls;
    FaithfulStart();
    if reqs != [] {
      var before, last := reqs[..|reqs| - 1], reqs[|reqs| - 1];
      TraceIsFaithful(c, before, id);
      if last.session == id {
        var s := SessionFor(c, Run(c, before), last.session, last.mode);
        FaithfulAppend(s.calls, CallOf(c, s, last));
      }
    }
  }

  lemma FaithfulStart()
    ensures Faithful([]) && AllowCalls([]) == 0
  {}

  // ----- The texts of refusals -----

  lemma {:induction false} ContainsWithin(before: string, s: string, after: string, part: string)
    requires Contains(s, part)
    ensures Contains(before + s + after, part)
  {
    var i :| 0 <= i <= |s| && part <= s[i..];
    assert (before + s + after)[|before| + i..] == s[i..] + after;
  }

  lemma LettersOf(s: string, i: nat, part: string, k: nat)
    requires i <= |s| && part <= s[i..] && i <= k < i + |part|
    ensures k < |s| && s[k] == part[k - i] && s[k] in part
  {}

  /** A string without some letter of the part does not contain the part. */
  lemma MissesLetter(s: string, part: string, k: nat)
    requires k < |part| && part[k] !in s
    ensures !Contains(s, part)
  {
    if i :| 0 <= i <= |s| && part <= s[i..] {
      LettersOf(s, i, part, i + k);
    }
  }

  /** A part without the separating character lies wholly on one side of it. */
  lemma {:induction false} SplitsAt(left: string, separator: char, right: string, part: string)
    requires separator !in part
    ensures Contains(left + [separator] + right, part) <==> Contains(left, part) || Contains(right, part)
  {
    var s := left + [separator] + right;
    assert s[|left|] == separator;
    if Contains(left, part) {
      ContainsWithin("", left, [separator] + right, part);
      assert "" + left + ([separator] + right) == s;
    }
    if Contains(right, part) {
      ContainsWithin(left + [separator], right, "", part);
      assert left + [separator] + right + "" == s;
    }
    if i :| 0 <= i <= |s| && part <= s[i..] {
      if i + |part| <= |left| {
        assert part <= left[i..];
      } else if i > |left| {
        assert s[i..] == right[i - |left| - 1..];
      } else {
        LettersOf(s, i, part, |left|);
      }
    }
  }

  lemma MarkSplits(left: string, separator: char, right: string)
    requires separator in ['\'', '=', ',']
    ensures Marked(left + [separator] + right) <==> Marked(left) || Marked(right)
  {
    hide Contains;
    SplitsAt(left, separator, right, UNKNOWN);
    SplitsAt(left, separator, right, "no affordance card");
  }

  /** Text without a U and an f holds neither marker. */
  lemma Unmarked(s: string)
    requires 'U' !in s && 'f' !in s
    ensures !Marked(s)
  {
    hide Contains;
    MissesLetter(s, UNKNOWN, 0);
    MissesLetter(s, "no affordance card", 4);
  }

  lemma ToolTextUnmarked()
    ensures !Marked(TOOL_TEXT)
  {
    Unmarked(TOOL_TEXT);
  }

  lemma ApprovalTextUnmarked()
    ensures !Marked(APPROVAL_TEXT)
  {
    var head, middle, tail := " is destructive", " but does not", " require human approval";
    assert 'U' !in head && 'f' !in head;
    assert 'U' !in middle && 'f' !in middle;
    assert 'U' !in tail && 'f' !in tail;
    Unmarked(head + middle + tail);
  }

  lemma ModesUnmarked(minMode: string)
    requires MinLevel(minMode) < 99
    ensures !Marked(minMode)
  {
    Unmarked(minMode);
  }

  lemma NoCardTextMarked(text: string)
    ensures Marked(NoCardText(text))
  {
    assert UNKNOWN <= UNKNOWN[0..];
    ContainsWithin(text, UNKNOWN, " = HOLD)", UNKNOWN);
  }

  lemma ReasonMarkedExactly(tool: string, rest: string)
    ensures Marked(Reason(tool, rest)) <==> Marked(tool) || Marked(rest)
  {
    hide Marked;
    ToolTextUnmarked();
    MarkSplits(TOOL_TEXT, '\'', tool);
    MarkSplits(TOOL_TEXT + ['\''] + tool, '\'', rest);
  }

  lemma ModeTextMarkedExactly(minMode: string, mode: Mode)
    ensures Marked(ModeText(minMode, mode)) <==> Marked(minMode)
  {
    hide Marked;
    Unmarked(" requires min_mode");
    Unmarked(" requested=" + ModeName(mode));
    MarkSplits(" requires min_mode", '=', minMode);
    MarkSplits(" requires min_mode" + ['='] + minMode, ',', " requested=" + ModeName(mode));
  }

  // ----- Which calls are executed -----

  /** The card lets the tool run unattended in the mode. */
  predicate Permits(cards: map<string, Card>, tool: string, mode: Mode) {
    && tool in cards && IsKnown(cards[tool])
    && MinLevel(cards[tool].minMode) <= RequestLevel(mode)
    && (cards[tool].destructive.value ==> cards[tool].requiresHumanApproval.value)
    && !(mode == GOVERN && cards[tool].requiresHumanApproval.value)
  }

  /**
   A call is executed exactly when it is among the first calls of its session allowed by the budget of
   its own mode, and, if the session has a name, by the budget of the mode that opened it; the steps
   executed so far are below its own mode's limit; and the card permits the tool unattended.
   */
  lemma {:induction false} AllowedExactly(c: Config, reqs: seq<Request>, req: Request)
    ensures var id := req.session;
            var openedIn := if Opening(reqs, id).Some? then Opening(reqs, id).value else req.mode;
            Decision(c, reqs, req) == ALLOW
            <==> && Calls(reqs, id) < c.budgets(req.mode).maxTools
                 && Allows(c, reqs, id) < c.budgets(req.mode).maxSteps
                 && (id != "" ==> Calls(reqs, id) < c.budgets(openedIn).maxTools)
                 && Permits(c.cards, req.tool, req.mode)
  {
    hide Contains;
    Accounting(c, reqs, req.session);
  }

  /** However modes change later, a named session executes at most what its opening budget allows. */
  lemma {:induction false} AllowsWithinOpeningBudget(c: Config, reqs: seq<Request>, id: string)
    requires id != "" && Opening(reqs, id).Some?
    ensures var cap := c.budgets(Opening(reqs, id).value).maxTools;
            Allows(c, reqs, id) <= (if cap < Calls(reqs, id) then if cap > 0 then cap else 0 else Calls(reqs, id))
  {
    var before, last := reqs[..|reqs| - 1], reqs[|reqs| - 1];
    hide Decision, Permits;
    AllowedExactly(c, before, last);
    if Opening(before, id).Some? {
      AllowsWithinOpeningBudget(c, before, id);
    } else {
      Accounting(c, before, id);
    }
  }

  /** A named session opened in a mode without tools never executes anything, whatever comes later. */
  lemma {:induction false} NoToolsNeverExecutes(c: Config, reqs: seq<Request>, req: Request)
    requires req.session != ""
    requires var openedIn := if Opening(reqs, req.session).Some? then Opening(reqs, req.session).value else req.mode;
             c.budgets(openedIn).maxTools <= 0
    ensures Decision(c, reqs, req) != ALLOW
  {
    AllowedExactly(c, reqs, req);
  }

  /** The empty id is the exception: opened in FAST, which has no tools, it still executes in THINK. */
  lemma {:induction false} EmptyIdSkipsOpeningBudget(cards: map<string, Card>, tool: string, exec: Exec)
    requires Permits(cards, tool, THINK)
    ensures var c := Config(cards, ShippedBudgets);
            && Decision(c, [Request("", FAST, tool, exec)], Request("", THINK, tool, exec)) == ALLOW
            && forall id :: id != "" ==>
                 Decision(c, [Request(id, FAST, tool, exec)], Request(id, THINK, tool, exec)) != ALLOW
  {
    var c := Config(cards, ShippedBudgets);
    forall id: string
      ensures Decision(c, [Request(id, FAST, tool, exec)], Request(id, THINK, tool, exec)) == ALLOW <==> id == ""
    {
      var opening := Request(id, FAST, tool, exec);
      AllowedExactly(c, [opening], Request(id, THINK, tool, exec));
      AllowedExactly(c, [], opening);
      assert [opening][..0] == [];
    }
  }

  /**
   A tool can be executed in some run exactly when some mode with a positive budget permits it: the very
   first call of a session in that mode is then allowed.
   */
  lemma {:induction false} ExecutableExactly(c: Config, tool: string)
    ensures (exists reqs: seq<Request>, req: Request :: req.tool == tool && Decision(c, reqs, req) == ALLOW)
        <==> (exists mode :: Permits(c.cards, tool, mode)
                             && c.budgets(mode).maxTools > 0 && c.budgets(mode).maxSteps > 0)
  {
    hide Decision, Permits;
    if reqs: seq<Request>, req: Request :| req.tool == tool && Decision(c, reqs, req) == ALLOW {
      AllowedExactly(c, reqs, req);
      assert Permits(c.cards, tool, req.mode);
    }
    if mode :| Permits(c.cards, tool, mode) && c.budgets(mode).maxTools > 0 && c.budgets(mode).maxSteps > 0 {
      var first := Request("s", mode, tool, DryRun);
      AllowedExactly(c, [], first);
      assert Decision(c, [], first) == ALLOW;
    }
  }

  lemma {:induction false} UnknownReason(cards: map<string, Card>, tool: string, mode: Mode)
    requires tool !in cards || !IsKnown(cards[tool])
    ensures var (allowed, reason) := CheckExecution(cards, tool, mode); !allowed && Marked(reason)
  {
    hide Marked, Reason, NoCardText;
    var text := if tool !in cards then " has no affordance card (" else " has incomplete affordance card (";
    NoCardTextMarked(text);
    ReasonMarkedExactly(tool, NoCardText(text));
  }

  /** A tool that has no card, or whose card leaves a field undeclared, is never executed; it is held. */
  lemma {:induction false} UnknownIsHeld(c: Config, reqs: seq<Request>, req: Request)
    requires req.tool !in c.cards || !IsKnown(c.cards[req.tool])
    ensures Decision(c, reqs, req) ==
            if Calls(reqs, req.session) >= c.budgets(req.mode).maxTools
              || Allows(c, reqs, req.session) >= c.budgets(req.mode).maxSteps then STOP else HOLD
  {
    hide Marked, CheckExecution, IsKnown;
    Accounting(c, reqs, req.session);
    UnknownReason(c.cards, req.tool, req.mode);
  }

  lemma KnownDeclares(card: Card)
    requires IsKnown(card)
    ensures card.destructive.Some? && card.requiresHumanApproval.Some?
  {}

  /**
   If every destructive card demands GOVERN, no run executes a destructive, an unregistered or an
   incompletely declared tool: in GOVERN the destructive ones wait for their human.
   */
  lemma {:induction false} DestructiveNeverUnattended(c: Config, reqs: seq<Request>, req: Request)
    requires forall t :: t in c.cards && c.cards[t].destructive == Some(true) ==> c.cards[t].minMode == "GOVERN"
    requires Decision(c, reqs, req) == ALLOW
    ensures req.tool in c.cards && IsKnown(c.cards[req.tool]) && c.cards[req.tool].destructive == Some(false)
  {
    hide Decision, IsKnown;
    AllowedExactly(c, reqs, req);
    assert Permits(c.cards, req.tool, req.mode);
    var card := c.cards[req.tool];
    KnownDeclares(card);
    assert RequestLevel(req.mode) >= MinLevel("GOVERN") ==> req.mode == GOVERN;
    assert card.destructive.value ==> card.destructive == Some(true);
  }

  /**
   With the shipped budgets the exact danger: a destructive tool is executed without a human in some run
   exactly when its card is complete, asks for approval, and has a minimum mode of FAST or THINK.
   */
  lemma {:induction false} DestructiveRunsExactly(cards: map<string, Card>, tool: string)
    requires tool in cards && cards[tool].destructive == Some(true)
    ensures (exists reqs: seq<Request>, req: Request ::
               req.tool == tool && Decision(Config(cards, ShippedBudgets), reqs, req) == ALLOW)
        <==> && IsKnown(cards[tool]) && cards[tool].requiresHumanApproval == Some(true)
             && cards[tool].minMode in ["FAST", "THINK"]
  {
    hide Decision;
    var c := Config(cards, ShippedBudgets);
    ExecutableExactly(c, tool);
    assert Permits(cards, tool, THINK) <==>
             && IsKnown(cards[tool]) && cards[tool].requiresHumanApproval == Some(true)
             && cards[tool].minMode in ["FAST", "THINK"];
    assert ShippedBudgets(THINK).maxTools > 0 && ShippedBudgets(FAST).maxTools == 0;
    assert !Permits(cards, tool, GOVERN);
  }

  /** Any refusal is a HOLD, never a DENY, when the tool's own name contains UNKNOWN. */
  lemma NameTurnsDenyIntoHold(cards: map<string, Card>, tool: string, mode: Mode, session: Option<Session>)
    requires Contains(tool, UNKNOWN) && !CheckExecution(cards, tool, mode).0
    ensures PermissionFor(cards, tool, mode, session).status == HOLD
  {
    assert Marked(tool);
    hide Marked, Reason, NoCardText, ModeText, IsKnown, Contains;
    forall rest ensures Marked(Reason(tool, rest)) {
      ReasonMarkedExactly(tool, rest);
    }
  }

  /**
   Exactly when the refusal of a tool with a complete card is reported as HOLD rather than DENY: when the
   tool's name or its declared minimum mode happens to contain one of the two markers searched for.
   */
  lemma {:induction false} HeldExactlyWhenMarked(cards: map<string, Card>, tool: string, mode: Mode,
                                                 session: Option<Session>)
    requires tool in cards && IsKnown(cards[tool]) && !CheckExecution(cards, tool, mode).0
    ensures PermissionFor(cards, tool, mode, session).status
            == if Marked(tool) || Marked(cards[tool].minMode) then HOLD else DENY
  {
    hide Marked, IsKnown, Reason, ModeText;
    var minMode := cards[tool].minMode;
    if RequestLevel(mode) < MinLevel(minMode) {
      ModeTextMarkedExactly(minMode, mode);
      ReasonMarkedExactly(tool, ModeText(minMode, mode));
    } else {
      ApprovalTextUnmarked();
      ReasonMarkedExactly(tool, APPROVAL_TEXT);
      ModesUnmarked(minMode);
    }
  }

  // ----- Every decision classified -----

  /** The card, or its absence, forbids the tool in the mode. */
  predicate Refuses(cards: map<string, Card>, tool: string, mode: Mode) {
    || tool !in cards || !IsKnown(cards[tool])
    || RequestLevel(mode) < MinLevel(cards[tool].minMode)
    || (cards[tool].destructive.value && !cards[tool].requiresHumanApproval.value)
  }

  /** The reason of a refusal contains one of the two markers. */
  predicate RefusalMarked(cards: map<string, Card>, tool: string) {
    tool !in cards || !IsKnown(cards[tool]) || Marked(tool) || Marked(cards[tool].minMode)
  }

  lemma PermissionClassified(cards: map<string, Card>, tool: string, mode: Mode, session: Option<Session>)
    ensures PermissionFor(cards, tool, mode, session).status
            == if Refuses(cards, tool, mode) then (if RefusalMarked(cards, tool) then HOLD else DENY)
               else if session.Some? && session.value.toolsUsed >= session.value.budget.maxTools then DENY
               else ALLOW
    ensures CheckExecution(cards, tool, mode).0 <==> !Refuses(cards, tool, mode)
  {
    hide Marked, IsKnown, Reason, NoCardText, ModeText;
    if tool !in cards || !IsKnown(cards[tool]) {
      UnknownReason(cards, tool, mode);
    } else if Refuses(cards, tool, mode) {
      KnownDeclares(cards[tool]);
      HeldExactlyWhenMarked(cards, tool, mode, session);
    }
  }

  /** The limits of the call's own mode are reached. */
  predicate Spent(c: Config, reqs: seq<Request>, req: Request) {
    || Calls(reqs, req.session) >= c.budgets(req.mode).maxTools
    || Allows(c, reqs, req.session) >= c.budgets(req.mode).maxSteps
  }

  /** A named session has made as many calls as the budget of the mode that opened it has tools. */
  predicate OpeningUsed(c: Config, reqs: seq<Request>, req: Request) {
    var openedIn := if Opening(reqs, req.session).Some? then Opening(reqs, req.session).value else req.mode;
    req.session != "" && Calls(reqs, req.session) >= c.budgets(openedIn).maxTools
  }

  /** A permitted tool in GOVERN whose card asks for a human. */
  predicate Awaits(cards: map<string, Card>, req: Request) {
    req.mode == GOVERN && req.tool in cards && cards[req.tool].requiresHumanApproval == Some(true)
  }

  /**
   Every decision, exactly: STOP when the limits of the call's mode are reached; otherwise HOLD when the
   card refuses with a marked reason, or when it permits in GOVERN but asks for a human and the opening
   budget is not used up; DENY when the card refuses unmarked or the opening budget is used up; ALLOW else.
   */
  lemma {:induction false} DecidedExactly(c: Config, reqs: seq<Request>, req: Request)
    ensures var d := Decision(c, reqs, req);
            var refused := Refuses(c.cards, req.tool, req.mode);
            && (d == STOP <==> Spent(c, reqs, req))
            && (d == HOLD <==>
                  && !Spent(c, reqs, req)
                  && ((refused && RefusalMarked(c.cards, req.tool))
                      || (!refused && !OpeningUsed(c, reqs, req) && Awaits(c.cards, req))))
            && (d == DENY <==>
                  && !Spent(c, reqs, req)
                  && ((refused && !RefusalMarked(c.cards, req.tool)) || (!refused && OpeningUsed(c, reqs, req))))
            && (d == ALLOW <==>
                  !Spent(c, reqs, req) && !refused && !OpeningUsed(c, reqs, req) && !Awaits(c.cards, req))
  {
    hide PermissionFor, Refuses, RefusalMarked, CheckExecution;
    Accounting(c, reqs, req.session);
    var s := SessionFor(c, Run(c, reqs), req.session, req.mode);
    PermissionClassified(c.cards, req.tool, req.mode, if req.session != "" then Some(s) else None);
    ApprovalAsked(c.cards, req.tool, req.mode, if req.session != "" then Some(s) else None);
  }

  lemma ApprovalAsked(cards: map<string, Card>, tool: string, mode: Mode, session: Option<Session>)
    ensures PermissionFor(cards, tool, mode, session).status == ALLOW ==>
              (PermissionFor(cards, tool, mode, session).requiresHumanApproval
               <==> tool in cards && cards[tool].requiresHumanApproval == Some(true))
  {}

  /**
   What a call leaves in its session's trace: one more record, with its mode, tool and decision, "held" when
   a permitted tool waits for a human, the outcome of the tool when it was executed, "blocked" otherwise.
   */
  lemma {:induction false} TraceExactly(c: Config, reqs: seq<Request>, req: Request)
    ensures var id, d := req.session, Decision(c, reqs, req);
            var before := if id in Run(c, reqs) then Run(c, reqs)[id].calls else [];
            var result := if d == ALLOW then
                (match req.exec case DryRun => DryRunStatus case Succeeds => Success case Raises => Error)
              else if d == HOLD && !Refuses(c.cards, req.tool, req.mode) then Held
              else Blocked;
            && id in Run(c, reqs + [req])
            && Run(c, reqs + [req])[id].calls
               == before + [Call(req.mode, req.tool, d, result,
                                 Calls(reqs, id) + (if d == ALLOW then 1 else 0), Allows(c, reqs, id))]
  {
    hide Decide, Refuses, CheckExecution;
    assert (reqs + [req])[..|reqs|] == reqs;
    Accounting(c, reqs, req.session);
    PermissionClassified(c.cards, req.tool, req.mode, None);
  }

  // ----- Cards, modes and limits -----

  lemma MarkedExactly(s: string)
    ensures Marked(s) <==> exists i :: 0 <= i <= |s| && ("UNKNOWN" <= s[i..] || "no affordance card" <= s[i..])
  {}

  /** A card is complete exactly when no field is left undeclared. */
  lemma KnownExactly(card: Card)
    ensures IsKnown(card)
        <==> && (exists c :: c in card.purpose && c != ' ' && c != '\t' && c != '\n' && c != '\r')
             && (|card.inputs| > 0 || |card.outputs| > 0)
             && card.externalSideEffect != None && card.destructive != None
             && card.reversible != None && card.requiresHumanApproval != None && |card.minMode| > 0
  {
    assert forall c: char :: c in " \t\n\r" <==> c == ' ' || c == '\t' || c == '\n' || c == '\r';
  }

  /** Modes are ordered, a minimum mode means the mode of that name, and no mode reaches an unknown one. */
  lemma LevelsExactly(minMode: string, mode: Mode)
    ensures RequestLevel(FAST) < RequestLevel(THINK) < RequestLevel(GOVERN)
    ensures MinLevel(ModeName(mode)) == RequestLevel(mode)
    ensures (forall m: Mode :: minMode != ModeName(m)) ==> MinLevel(minMode) > RequestLevel(mode)
  {
    assert ModeName(FAST) == "FAST" && ModeName(THINK) == "THINK" && ModeName(GOVERN) == "GOVERN";
  }

  /** The stop rules: an agent goes on exactly when none of the five applies. */
  lemma GoesOnExactly(a: AgentState, budget: Budget)
    ensures !ShouldStop(a, budget)
        <==> && (a.answerSufficient ==> a.riskUnresolved)
             && a.stepCount < budget.maxSteps && a.toolCount < budget.maxTools
             && a.gain != "low" && a.repeatedReasoning <= 1
  {}

  /** With the shipped budgets a named session executes nothing, ten or twenty tools by its opening mode. */
  lemma {:induction false} ShippedCaps(cards: map<string, Card>, reqs: seq<Request>, id: string)
    requires id != "" && Opening(reqs, id).Some?
    ensures var allows := Allows(Config(cards, ShippedBudgets), reqs, id);
            && (Opening(reqs, id).value == FAST ==> allows == 0)
            && (Opening(reqs, id).value == THINK ==> allows <= 10)
            && allows <= 20
  {
    hide Decision, Permits;
    var c := Config(cards, ShippedBudgets);
    AllowsWithinOpeningBudget(c, reqs, id);
    TwentySteps(cards, reqs, id);
  }

  lemma {:induction false} TwentySteps(cards: map<string, Card>, reqs: seq<Request>, id: string)
    ensures Allows(Config(cards, ShippedBudgets), reqs, id) <= 20
  {
    hide Decision, Permits;
    var c := Config(cards, ShippedBudgets);
    if reqs != [] {
      var before, last := reqs[..|reqs| - 1], reqs[|reqs| - 1];
      TwentySteps(cards, before, id);
      AllowedExactly(c, before, last);
    }
  }

  // ----- The guard -----

  class SessionState {
    const mode: Mode
    const budget: Budget
    var toolsUsed: int
    var stepsUsed: int
    var toolCalls: seq<Call>

    constructor (mode: Mode, budget: Budget)
      ensures Value() == Session(mode, budget, 0, 0, [])
    {
      this.mode, this.budget := mode, budget;
      toolsUsed, stepsUsed, toolCalls := 0, 0, [];
    }

    function Value(): Session
      reads this
    {
      Session(mode, budget, toolsUsed, stepsUsed, toolCalls)
    }

    method RecordToolCall(call: Call)
      modifies this
      ensures Value() == old(Value()).(toolsUsed := old(toolsUsed) + 1, calls := old(toolCalls) + [call])
    {
      toolCalls := toolCalls + [call];
      toolsUsed := toolsUsed + 1;
    }

    method RecordStep()
      modifies this
      ensures Value() == old(Value()).(stepsUsed := old(stepsUsed) + 1)
    {
      stepsUsed := stepsUsed + 1;
    }
  }

  class MCPGuard {
    const c: Config
    var sessions: map<string, SessionState>

    /** No two ids share a session object. */
    ghost predicate Valid()
      reads this
    {
      forall i, j :: i in sessions && j in sessions && i != j ==> sessions[i] != sessions[j]
    }

    function Model(): State
      reads this, sessions.Values
    {
      map id | id in sessions :: sessions[id].Value()
    }

    constructor (c: Config)
      ensures Valid() && this.c == c && Model() == map[] && sessions == map[]
    {
      this.c := c;
      sessions := map[];
    }

    method Open(id: string, mode: Mode) returns (session: SessionState)
      requires Valid()
      modifies this
      ensures Valid() && id in sessions && sessions[id] == session
      ensures session.Value() == SessionFor(c, old(Model()), id, mode)
      ensures Model() == old(Model())[id := session.Value()]
      ensures id in old(sessions) ==> sessions == old(sessions)
      ensures id !in old(sessions) ==> fresh(session) && sessions == old(sessions)[id := session]
    {
      if id !in sessions {
        session := new SessionState(mode, c.budgets(mode));
        sessions := sessions[id := session];
      }
      session := sessions[id];
    }

    method CheckPermission(tool: string, mode: Mode, id: string) returns (p: Permission)
      ensures p == PermissionFor(c.cards, tool, mode,
                     if id != "" && id in sessions then Some(sessions[id].Value()) else None)
    {
      var (allowed, reason) := CheckExecution(c.cards, tool, mode);
      if !allowed {
        return Permission(if Marked(reason) then HOLD else DENY,
                          false);
      }
      if id != "" && id in sessions && sessions[id].toolsUsed >= sessions[id].budget.maxTools {
        return Permission(DENY, false);
      }
      return Permission(ALLOW, tool in c.cards && c.cards[tool].requiresHumanApproval == Some(true));
    }

    /** Appends a trace record to a session, and takes a step when the tool was allowed. */
    method Record(id: string, call: Call)
      requires Valid() && id in sessions
      modifies sessions[id]
      ensures Model() == old(Model())[id := Logged(old(sessions[id].Value()), call)]
    {
      sessions[id].RecordToolCall(call);
      if call.decision == ALLOW {
        sessions[id].RecordStep();
      }
    }

    /** One call through the guard; executed says whether the tool function is reached. */
    method GuardedCall(req: Request) returns (status: Status, executed: bool)
      requires Valid()
      modifies this, sessions.Values
      ensures Valid()
      ensures Model() == Next(c, old(Model()), req)
      ensures status == Decide(c, SessionFor(c, old(Model()), req.session, req.mode), req)
      ensures executed <==> status == ALLOW && req.exec != DryRun
    {
      hide PermissionFor, CheckExecution, Logged, Model, SessionFor, Next;
      var budget := c.budgets(req.mode);
      var session := Open(req.session, req.mode);
      ghost var was := session.Value();
      OpenThenLog(c, old(Model()), req, was);
      PermissionStatus(c.cards, req.tool, req.mode, if req.session != "" then Some(was) else None);
      var toolsUsed, stepsUsed := session.toolsUsed, session.stepsUsed;
      if ShouldStop(AgentState(req.mode, stepsUsed, toolsUsed, false, false, "unknown", 0), budget) {
        Record(req.session, Call(req.mode, req.tool, STOP, Blocked, toolsUsed, stepsUsed));
        return STOP, false;
      }
      var decision := CheckPermission(req.tool, req.mode, req.session);
      if decision.status != ALLOW {
        Record(req.session, Call(req.mode, req.tool, decision.status, Blocked, toolsUsed, stepsUsed));
        return decision.status, false;
      }
      if req.mode == GOVERN && decision.requiresHumanApproval {
        Record(req.session, Call(req.mode, req.tool, HOLD, Held, toolsUsed, stepsUsed));
        return HOLD, false;
      }
      var result := match req.exec case DryRun => DryRunStatus case Succeeds => Success case Raises => Error;
      Record(req.session, Call(req.mode, req.tool, ALLOW, result, toolsUsed + 1, stepsUsed));
      return ALLOW, req.exec != DryRun;
    }
  }
}
