/**
 The web exploration loop (forge_explore/graph.ts, guardrails.ts and state.ts): nine nodes dispatched
 in a fixed cycle over a frontier of scored URLs, a set of visited ones and a depth counter, with
 guardrails in front of every fetch and every follow.
 */
module Exploration {
  import opened ExplorationTypes
  import opened Wrappers

  datatype Entry = Entry(url: string, score: real, source: Option<string>)

  datatype StopReason = FRONTIER_EMPTY | DEPTH_LIMIT

  datatype State = State(
    query: string,
    frontier: seq<Entry>,
    visited: set<string>,
    depth: int,
    max: int,
    evidence: seq<string>,
    hypotheses: seq<Hypothesis>,
    reason: Option<StopReason>,
    epoch: int)

  datatype Node = SEED | SEARCH | FETCH | EXTRACT_LINKS | SCORE | SELECT | FOLLOW | SYNTHESIZE | CHECK_STOP

  datatype Hit = Hit(url: string, score: real)

  /** What the fetch adapter does; extracted is None when no link extractor is configured. */
  datatype Fetched = NoFetcher | FetchFailed | Page(links: seq<string>, extracted: Option<seq<string>>)

  /** What the outside world answers during one iteration; results is None without a search adapter. */
  datatype Answer = Answer(results: Option<seq<Hit>>, page: Fetched)

  const NODE_SEQUENCE: seq<Node> :=
    [SEED, SEARCH, FETCH, EXTRACT_LINKS, SCORE, SELECT, FOLLOW, SYNTHESIZE, CHECK_STOP]

  function NodeAt(iteration: nat): Node {
    NODE_SEQUENCE[iteration % 9]
  }

  function SeedState(query: string, maxDepth: int): State {
    State(query, [], {}, 0, maxDepth, [], [], None, 0)
  }

  // ----- Guardrails -----

  datatype Rule = DepthGate | CyclePrevention | CitationGate | GateBypass | SovereignVeto

  datatype Tool = ForgeFetch | Navigate | Synthesis

  const GUARD_RULES: seq<Rule> := [DepthGate, CyclePrevention, CitationGate, GateBypass, SovereignVeto]

  predicate Unresolved(h: Hypothesis) {
    |h.contradicting| > 0 && |h.supporting| == 0
  }

  predicate Passes(rule: Rule, tool: Tool, url: string, s: State) {
    match rule
    case DepthGate => s.depth < s.max
    case CyclePrevention => !(tool == Navigate && url != "" && url in s.visited)
    case CitationGate => !(tool == Synthesis && |s.evidence| == 0)
    case GateBypass => true
    case SovereignVeto => s.depth < 3 && |Filter(s.hypotheses, Unresolved)| <= 2
  }

  function Failures(tool: Tool, url: string, s: State): seq<Rule> {
    Filter(GUARD_RULES, r => !Passes(r, tool, url, s))
  }

  /** The guardrails are open to a fetch or a follow: depth is below both caps and few hypotheses dispute. */
  predicate Open(s: State) {
    s.depth < s.max && s.depth < 3 && |Filter(s.hypotheses, Unresolved)| <= 2
  }

  /** Every rule runs, in registry order, whether or not an earlier one failed. */
  method EvaluateGuardrails(tool: Tool, url: string, s: State) returns (passed: bool, failures: seq<Rule>)
    ensures failures == Failures(tool, url, s)
    ensures passed <==> forall r :: r in GUARD_RULES ==> Passes(r, tool, url, s)
  {
    hide Passes, Filter;
    FilterStart(GUARD_RULES, r => !Passes(r, tool, url, s));
    failures := [];
    var i := 0;
    while i < |GUARD_RULES|
      invariant 0 <= i <= |GUARD_RULES|
      invariant failures == Filter(GUARD_RULES[..i], r => !Passes(r, tool, url, s))
    {
      FilterNext(GUARD_RULES, i, r => !Passes(r, tool, url, s));
      if !Passes(GUARD_RULES[i], tool, url, s) {
        failures := failures + [GUARD_RULES[i]];
      }
      i := i + 1;
    }
    assert GUARD_RULES[..i] == GUARD_RULES;
    HeadIn(failures);
    return failures == [], failures;
  }

  /** For a URL not visited yet the cycle rule is idle, so both tools are let through exactly when Open. */
  lemma {:induction false} UnvisitedPassExactlyWhenOpen(tool: Tool, url: string, s: State)
    requires tool != Synthesis && url !in s.visited
    ensures Failures(tool, url, s) == [] <==> Open(s)
  {
    var failing := Failures(tool, url, s);
    HeadIn(failing);
    if Open(s) {
      assert forall r :: r in GUARD_RULES ==> Passes(r, tool, url, s);
    } else {
      assert GUARD_RULES[0] == DepthGate && GUARD_RULES[4] == SovereignVeto;
      assert DepthGate in failing || SovereignVeto in failing;
    }
  }

  // ----- Ranking -----

  function Insert(ranked: seq<Entry>, e: Entry): seq<Entry> {
    if ranked == [] || ranked[|ranked| - 1].score >= e.score then ranked + [e]
    else Insert(ranked[..|ranked| - 1], e) + [ranked[|ranked| - 1]]
  }

  /** The stable sort by descending score. */
  function Ranked(s: seq<Entry>): seq<Entry> {
    if s == [] then [] else Insert(Ranked(s[..|s| - 1]), s[|s| - 1])
  }

  ghost predicate Descending(s: seq<Entry>) {
    forall i, j :: 0 <= i < j < |s| ==> s[i].score >= s[j].score
  }

  lemma {:induction false} InsertPermutes(ranked: seq<Entry>, e: Entry)
    ensures multiset(Insert(ranked, e)) == multiset(ranked) + multiset{e}
  {
    if ranked != [] && ranked[|ranked| - 1].score < e.score {
      assert ranked == ranked[..|ranked| - 1] + [ranked[|ranked| - 1]];
      InsertPermutes(ranked[..|ranked| - 1], e);
    }
  }

  lemma {:induction false} InsertDescends(ranked: seq<Entry>, e: Entry)
    requires Descending(ranked)
    ensures Descending(Insert(ranked, e))
    ensures forall x :: x in Insert(ranked, e) ==> x in ranked || x == e
  {
    if ranked != [] && ranked[|ranked| - 1].score < e.score {
      InsertDescends(ranked[..|ranked| - 1], e);
      var rest := Insert(ranked[..|ranked| - 1], e);
      assert forall i :: 0 <= i < |rest| ==> rest[i] in rest;
    }
  }

  lemma {:induction false} InsertIsStable(ranked: seq<Entry>, e: Entry, p: Entry -> bool)
    requires Descending(ranked)
    requires forall x, y :: p(x) && p(y) ==> x.score == y.score
    ensures Filter(Insert(ranked, e), p) == Filter(ranked + [e], p)
  {
    if ranked != [] && ranked[|ranked| - 1].score < e.score {
      var front, last := ranked[..|ranked| - 1], ranked[|ranked| - 1];
      assert ranked == front + [last];
      InsertIsStable(front, e, p);
      FilterAppend(Insert(front, e), last, p);
      FilterAppend(front, e, p);
      FilterAppend(front, last, p);
      FilterAppend(ranked, e, p);
    }
  }

  /** Ranking loses and adds nothing, puts higher scores first and leaves equal scores in their order. */
  lemma {:induction false} RankedIsStableSort(s: seq<Entry>, score: real)
    ensures Descending(Ranked(s))
    ensures multiset(Ranked(s)) == multiset(s)
    ensures Filter(Ranked(s), (x: Entry) => x.score == score) == Filter(s, (x: Entry) => x.score == score)
  {
    if s != [] {
      var front, last := s[..|s| - 1], s[|s| - 1];
      assert s == front + [last];
      RankedIsStableSort(front, score);
      InsertPermutes(Ranked(front), last);
      InsertDescends(Ranked(front), last);
      InsertIsStable(Ranked(front), last, (x: Entry) => x.score == score);
      FilterAppend(Ranked(front), last, (x: Entry) => x.score == score);
      FilterAppend(front, last, (x: Entry) => x.score == score);
    }
  }

  /** The entry fetched or followed next. */
  function Pick(s: State): Option<Entry> {
    var ranked := Ranked(Filter(s.frontier, (e: Entry) => e.url !in s.visited));
    if ranked == [] then None else Some(ranked[0])
  }

  lemma {:induction false} FirstOfScore(s: seq<Entry>, p: Entry -> bool)
    requires s != [] && p(s[0])
    ensures Filter(s, p) != [] && Filter(s, p)[0] == s[0]
  {
    if |s| > 1 {
      FirstOfScore(s[..|s| - 1], p);
    }
  }

  /**
   The pick is an unvisited frontier entry of the highest score, and of those the one listed first; there
   is none exactly when the whole frontier has been visited.
   */
  lemma {:induction false} PickIsBest(s: State)
    ensures Pick(s) == None <==> forall e :: e in s.frontier ==> e.url in s.visited
    ensures Pick(s).Some? ==>
              && var best := Pick(s).value;
              && best in s.frontier && best.url !in s.visited
              && (forall e :: e in s.frontier && e.url !in s.visited ==> e.score <= best.score)
              && var unvisited := Filter(s.frontier, (e: Entry) => e.url !in s.visited);
              && var top := Filter(unvisited, (e: Entry) => e.score == best.score);
              && top != [] && top[0] == best
  {
    var unvisited := Filter(s.frontier, (e: Entry) => e.url !in s.visited);
    var ranked := Ranked(unvisited);
    RankedIsStableSort(unvisited, 0.0);
    assert forall e :: e in unvisited <==> e in multiset(unvisited);
    assert forall e :: e in ranked <==> e in multiset(ranked);
    if ranked == [] {
      assert |multiset(ranked)| == |multiset(unvisited)|;
      assert unvisited == [];
      assert forall e :: e in s.frontier ==> e.url in s.visited by {
        forall e | e in s.frontier ensures e.url in s.visited {
          assert e in unvisited || e.url in s.visited;
        }
      }
    } else {
      var best := ranked[0];
      assert best in ranked;
      forall e | e in s.frontier && e.url !in s.visited ensures e.score <= best.score {
        assert e in ranked;
      }
      var p := (e: Entry) => e.score == best.score;
      RankedIsStableSort(unvisited, best.score);
      FirstOfScore(ranked, p);
    }
  }

  // ----- The nodes -----

  function Without(frontier: seq<Entry>, url: string): (r: seq<Entry>)
    ensures forall e :: e in r <==> e in frontier && e.url != url
  {
    Filter(frontier, (e: Entry) => e.url != url)
  }

  function LinksOf(page: Fetched): seq<string>
    requires page.Page?
  {
    if page.links == [] && page.extracted.Some? then page.extracted.value else page.links
  }

  /** Frontier entries for links, in page order, each scored 0.5 until ranked. */
  function LinkEntries(links: seq<string>, source: string): seq<Entry> {
    seq(|links|, i requires 0 <= i < |links| => Entry(links[i], 0.5, Some(source)))
  }

  function HitEntries(hits: seq<Hit>): seq<Entry> {
    seq(|hits|, i requires 0 <= i < |hits| => Entry(hits[i].url, hits[i].score, None))
  }

  function Search(s: State, results: Option<seq<Hit>>): State {
    s.(frontier := if results.Some? then HitEntries(results.value) else [])
  }

  function Fetch(s: State, page: Fetched): State {
    match Pick(s)
    case None => s
    case Some(e) =>
      var remaining := Without(s.frontier, e.url);
      if Failures(ForgeFetch, e.url, s) != [] then s.(frontier := remaining)
      else match page
        case NoFetcher => s
        case FetchFailed => s.(frontier := remaining, visited := s.visited + {e.url})
        case Page(_, _) =>
          var links := Filter(LinksOf(page), l => l !in s.visited);
          s.(frontier := remaining + LinkEntries(links, e.url), visited := s.visited + {e.url})
  }

  function Follow(s: State): State {
    match Pick(s)
    case None => s
    case Some(e) =>
      var remaining := Without(s.frontier, e.url);
      if Failures(Navigate, e.url, s) != [] then s.(frontier := remaining)
      else s.(frontier := remaining, visited := s.visited + {e.url}, depth := s.depth + 1)
  }

  function CheckStop(s: State): State {
    s.(reason :=
         if s.frontier == [] then Some(FRONTIER_EMPTY)
         else if s.depth >= s.max then Some(DEPTH_LIMIT)
         else None)
  }

  function Dispatch(node: Node, s: State, a: Answer): State {
    match node
    case SEED => s.(epoch := s.epoch + 1)
    case SEARCH => Search(s, a.results)
    case FETCH => Fetch(s, a.page)
    case EXTRACT_LINKS => s
    case SCORE => s.(frontier := Ranked(s.frontier))
    case SELECT => s
    case FOLLOW => Follow(s)
    case SYNTHESIZE => s
    case CHECK_STOP => CheckStop(s)
  }

  /** The state after n iterations; after CHECK_STOP the cycle starts over at SEED. */
  function After(s: State, env: nat -> Answer, n: nat): State {
    if n == 0 then s else Dispatch(NodeAt(n - 1), After(s, env, n - 1), env(n - 1))
  }

  lemma AfterStep(s: State, env: nat -> Answer, n: nat)
    ensures After(s, env, 0) == s
    ensures After(s, env, n + 1) == Dispatch(NodeAt(n), After(s, env, n), env(n))
  {}

  /** The run ends after n iterations because CHECK_STOP, the last of them, named a reason. */
  predicate Stopped(s: State, env: nat -> Answer, n: nat) {
    n > 0 && NodeAt(n - 1) == CHECK_STOP && After(s, env, n).reason.Some?
  }

  /** The runner: it ends at the first CHECK_STOP that names a reason, or after maxIterations. */
  method RunGraph(initial: State, env: nat -> Answer, maxIterations: int) returns (state: State, n: nat)
    ensures state == After(initial, env, n)
    ensures forall k :: 0 <= k < n ==> !Stopped(initial, env, k)
    ensures n >= maxIterations || Stopped(initial, env, n)
    ensures n <= (if maxIterations > 0 then maxIterations else 0)
  {
    hide Dispatch;
    state := initial;
    n := 0;
    while n < maxIterations
      invariant n == 0 || n <= maxIterations
      invariant state == After(initial, env, n)
      invariant forall k :: 0 <= k <= n ==> !Stopped(initial, env, k)
    {
      var node := NodeAt(n);
      state := Dispatch(node, state, env(n));
      n := n + 1;
      if node == CHECK_STOP && state.reason.Some? {
        return;
      }
    }
  }

  // ----- Fetched and followed URLs -----

  /** The URL that an iteration hands to the fetcher or follows. */
  function Attempt(node: Node, s: State, a: Answer): Option<string> {
    if ((node == FETCH && a.page != NoFetcher) || node == FOLLOW) && Open(s) && Pick(s).Some?
    then Some(Pick(s).value.url) else None
  }

  function Trace(s: State, env: nat -> Answer, n: nat): seq<string> {
    if n == 0 then []
    else match Attempt(NodeAt(n - 1), After(s, env, n - 1), env(n - 1))
      case None => Trace(s, env, n - 1)
      case Some(url) => Trace(s, env, n - 1) + [url]
  }

  function Follows(s: State, env: nat -> Answer, n: nat): nat {
    if n == 0 then 0
    else if NodeAt(n - 1) == FOLLOW && Attempt(FOLLOW, After(s, env, n - 1), env(n - 1)).Some?
    then Follows(s, env, n - 1) + 1
    else Follows(s, env, n - 1)
  }

  /** One iteration visits what it attempts, which was never visited before, and counts follows in depth. */
  lemma {:induction false} DispatchVisits(node: Node, s: State, a: Answer)
    ensures var attempt, t := Attempt(node, s, a), Dispatch(node, s, a);
            && (attempt.Some? ==> attempt.value !in s.visited)
            && t.visited == s.visited + (if attempt.Some? then {attempt.value} else {})
            && t.depth == s.depth + (if node == FOLLOW && attempt.Some? then 1 else 0)
            && t.max == s.max && t.hypotheses == s.hypotheses
  {
    hide Ranked, Filter;
    PickIsBest(s);
    if Pick(s).Some? {
      UnvisitedPassExactlyWhenOpen(ForgeFetch, Pick(s).value.url, s);
      UnvisitedPassExactlyWhenOpen(Navigate, Pick(s).value.url, s);
    }
    hide Pick;
    hide Failures;
    match node
    case FETCH =>
      match Pick(s) {
        case None =>
        case Some(e) => match a.page { case NoFetcher => case FetchFailed => case Page(_, _) => }
      }
    case FOLLOW =>
    case _ =>
  }

  function Elements(s: seq<string>): set<string> {
    set x | x in s
  }

  /** Appending a new element to a sequence of distinct ones that together with a set make up another. */
  lemma {:induction false} VisitOneMore(start: set<string>, trace: seq<string>, url: string)
    requires Distinct(trace) && Elements(trace) !! start && url !in start + Elements(trace)
    requires |start + Elements(trace)| == |start| + |trace|
    ensures Distinct(trace + [url]) && Elements(trace + [url]) !! start
    ensures start + Elements(trace + [url]) == start + Elements(trace) + {url}
    ensures |start + Elements(trace + [url])| == |start| + |trace + [url]|
  {
    assert Elements(trace + [url]) == Elements(trace) + {url};
  }

  /**
   No URL is fetched or followed twice, whatever the searches and pages keep listing: the attempts of a
   run are distinct, none was visited at the start, and visited is exactly the initial set plus them.
   */
  lemma {:induction false} EachUrlAtMostOnce(s: State, env: nat -> Answer, n: nat)
    ensures Distinct(Trace(s, env, n)) && Elements(Trace(s, env, n)) !! s.visited
    ensures After(s, env, n).visited == s.visited + Elements(Trace(s, env, n))
    ensures |After(s, env, n).visited| == |s.visited| + |Trace(s, env, n)|
  {
    hide Dispatch, Attempt, After, NodeAt, Trace, Elements, Distinct;
    TraceNext(s, env, if n > 0 then n - 1 else 0);
    if n > 0 {
      EachUrlAtMostOnce(s, env, n - 1);
      AfterStep(s, env, n - 1);
      var before := After(s, env, n - 1);
      DispatchVisits(NodeAt(n - 1), before, env(n - 1));
      var attempt := Attempt(NodeAt(n - 1), before, env(n - 1));
      if attempt.Some? {
        VisitOneMore(s.visited, Trace(s, env, n - 1), attempt.value);
      }
    } else {
      AfterStep(s, env, 0);
      assert s.visited + {} == s.visited;
    }
  }

  lemma TraceNext(s: State, env: nat -> Answer, n: nat)
    ensures Trace(s, env, 0) == [] && Distinct(Trace(s, env, 0)) && Elements(Trace(s, env, 0)) == {}
    ensures var attempt := Attempt(NodeAt(n), After(s, env, n), env(n));
            Trace(s, env, n + 1)
            == if attempt.Some? then Trace(s, env, n) + [attempt.value] else Trace(s, env, n)
  {}

  // ----- Depth -----

  function Cap(m: int): int {
    if m < 3 then m else 3
  }

  /** Depth counts the follows and, from a start within it, never passes the lower of the two caps. */
  lemma {:induction false} DepthCountsFollows(s: State, env: nat -> Answer, n: nat)
    ensures After(s, env, n).depth == s.depth + Follows(s, env, n)
    ensures After(s, env, n).max == s.max
    ensures s.depth <= Cap(s.max) ==> After(s, env, n).depth <= Cap(s.max)
  {
    hide Dispatch, Pick, Filter;
    if n > 0 {
      DepthCountsFollows(s, env, n - 1);
      DispatchVisits(NodeAt(n - 1), After(s, env, n - 1), env(n - 1));
    }
  }

  /** Reaching the cap is final: from there on nothing is fetched, followed or visited again. */
  lemma {:induction false} DepthIsAbsorbing(s: State, env: nat -> Answer, k: nat, n: nat)
    requires k <= n && After(s, env, k).depth >= Cap(s.max)
    ensures After(s, env, n).depth == After(s, env, k).depth
    ensures After(s, env, n).visited == After(s, env, k).visited
    ensures Trace(s, env, n) == Trace(s, env, k)
  {
    hide Dispatch, Pick, Filter, After, NodeAt, Trace, Follows;
    if n > k {
      var before := After(s, env, n - 1);
      DepthIsAbsorbing(s, env, k, n - 1);
      DepthCountsFollows(s, env, n - 1);
      AfterStep(s, env, n - 1);
      TraceNext(s, env, n - 1);
      DispatchVisits(NodeAt(n - 1), before, env(n - 1));
      assert before.visited + {} == before.visited;
    }
  }

  /**
   A run from a seed state can only ever stop with DEPTH_LIMIT when its maximum is at most 3: above that
   the veto at depth 3 comes first, and the depth limit is never the reason.
   */
  lemma {:induction false} DepthLimitReasonExactly(query: string, m: int, env: nat -> Answer, n: nat)
    requires m >= 0
    ensures var t := After(SeedState(query, m), env, n);
            t.reason == Some(DEPTH_LIMIT) ==> m <= 3 && t.depth == m
    ensures var t := After(SeedState(query, m), env, n);
            n > 0 && NodeAt(n - 1) == CHECK_STOP ==>
              (t.reason == Some(DEPTH_LIMIT) <==> t.frontier != [] && t.depth == m)
  {
    hide Pick, Filter, Failures, Ranked, After, NodeAt, Follows, Attempt;
    var s := SeedState(query, m);
    AfterStep(s, env, if n > 0 then n - 1 else 0);
    if n > 0 {
      DepthLimitReasonExactly(query, m, env, n - 1);
      DepthCountsFollows(s, env, n - 1);
      DispatchVisits(NodeAt(n - 1), After(s, env, n - 1), env(n - 1));
      var before := After(s, env, n - 1);
      if NodeAt(n - 1) != CHECK_STOP {
        ReasonOnlyAtCheckStop(NodeAt(n - 1), before, env(n - 1));
        if before.reason == Some(DEPTH_LIMIT) {
          DepthCountsFollows(s, env, n);
        }
      }
    }
  }

  lemma {:induction false} ReasonOnlyAtCheckStop(node: Node, s: State, a: Answer)
    requires node != CHECK_STOP
    ensures Dispatch(node, s, a).reason == s.reason
  {
    hide Pick, Filter, Failures, Ranked;
    if node == FETCH && Pick(s).Some? {
      match a.page { case NoFetcher => case FetchFailed => case Page(_, _) => }
    }
  }

  // ----- Where URLs come from -----

  /** One iteration lists an entry because a search returned it or because it links from a fetched page. */
  predicate Lists(node: Node, s: State, a: Answer, e: Entry) {
    match node
    case SEARCH => e.source == None && a.results.Some? && Hit(e.url, e.score) in a.results.value
    case FETCH =>
      && e.source.Some? && e.source == Attempt(FETCH, s, a) && e.score == 0.5
      && a.page.Page? && e.url in LinksOf(a.page) && e.url !in s.visited
    case _ => false
  }

  lemma {:induction false} DispatchLists(node: Node, s: State, a: Answer, e: Entry)
    requires e in Dispatch(node, s, a).frontier
    ensures e in s.frontier || Lists(node, s, a, e)
  {
    match node
    case SEARCH =>
    case SCORE =>
      RankedIsStableSort(s.frontier, 0.0);
      assert e in multiset(Ranked(s.frontier));
    case FETCH => PickedLists(FETCH, s, a, e);
    case FOLLOW => PickedLists(FOLLOW, s, a, e);
    case _ =>
  }

  lemma {:induction false} PickedLists(node: Node, s: State, a: Answer, e: Entry)
    requires (node == FETCH || node == FOLLOW) && e in Dispatch(node, s, a).frontier
    ensures e in s.frontier || Lists(node, s, a, e)
  {
    hide Pick, Lists, Failures, Filter, Open;
    if Pick(s).Some? {
      FrontierExactly(node, s, a);
    }
  }

  ghost predicate Listed(s: State, env: nat -> Answer, n: nat, e: Entry) {
    e in s.frontier || exists k: nat :: k < n && Lists(NodeAt(k), After(s, env, k), env(k), e)
  }

  ghost predicate ListedUrl(s: State, env: nat -> Answer, n: nat, url: string) {
    exists e: Entry :: e.url == url && Listed(s, env, n, e)
  }

  /**
   No URL is made up: every frontier entry was there at the start, is a search hit with the score the
   search gave it, or links from a page that this run fetched.
   */
  lemma {:induction false} Provenance(s: State, env: nat -> Answer, n: nat, e: Entry)
    requires e in After(s, env, n).frontier
    ensures Listed(s, env, n, e)
  {
    hide Dispatch, Lists, After, NodeAt, Listed;
    AfterStep(s, env, if n > 0 then n - 1 else 0);
    if n > 0 {
      var before := After(s, env, n - 1);
      DispatchLists(NodeAt(n - 1), before, env(n - 1), e);
      if e in before.frontier {
        Provenance(s, env, n - 1, e);
        ListedStays(s, env, n - 1, e);
      } else {
        ListedNow(s, env, n - 1, e);
      }
    } else {
      ListedAtStart(s, env, e);
    }
  }

  /** Every URL visited was visited at the start or was on the frontier for one of those reasons. */
  lemma {:induction false} VisitedProvenance(s: State, env: nat -> Answer, n: nat, url: string)
    requires url in After(s, env, n).visited
    ensures url in s.visited || ListedUrl(s, env, n, url)
  {
    hide Dispatch, Listed, After, NodeAt;
    AfterStep(s, env, if n > 0 then n - 1 else 0);
    if n > 0 {
      var before := After(s, env, n - 1);
      var e := VisitedWasListed(NodeAt(n - 1), before, env(n - 1), url);
      if url !in before.visited {
        Provenance(s, env, n - 1, e);
        ListedStays(s, env, n - 1, e);
      } else {
        VisitedProvenance(s, env, n - 1, url);
        if url !in s.visited {
          e :| e.url == url && Listed(s, env, n - 1, e);
          ListedStays(s, env, n - 1, e);
        }
      }
    }
  }

  lemma ListedAtStart(s: State, env: nat -> Answer, e: Entry)
    requires e in s.frontier
    ensures Listed(s, env, 0, e)
  {}

  lemma ListedNow(s: State, env: nat -> Answer, n: nat, e: Entry)
    requires Lists(NodeAt(n), After(s, env, n), env(n), e)
    ensures Listed(s, env, n + 1, e)
  {}

  lemma ListedStays(s: State, env: nat -> Answer, n: nat, e: Entry)
    requires Listed(s, env, n, e)
    ensures Listed(s, env, n + 1, e)
  {}

  lemma {:induction false} VisitedWasListed(node: Node, s: State, a: Answer, url: string) returns (e: Entry)
    requires url in Dispatch(node, s, a).visited
    ensures url in s.visited || (e in s.frontier && e.url == url)
  {
    e := Entry(url, 0.0, None);
    DispatchVisits(node, s, a);
    PickIsBest(s);
    hide Dispatch, Filter, Ranked;
    if url !in s.visited {
      e := Pick(s).value;
    }
  }

  /**
   What a fetch or a follow with something to pick makes of the frontier, blocked or not: it loses every
   entry of the picked URL, keeps all others, and gains just the unvisited links of a page fetched. Only
   a fetch let through without a configured fetcher leaves everything as it was.
   */
  lemma {:induction false} FrontierExactly(node: Node, s: State, a: Answer)
    requires (node == FETCH || node == FOLLOW) && Pick(s).Some?
    ensures var t := Dispatch(node, s, a);
            if node == FETCH && a.page == NoFetcher && Open(s) then t == s
            else forall e :: e in t.frontier <==>
                   (e in s.frontier && e.url != Pick(s).value.url) || Lists(node, s, a, e)
  {
    hide Ranked, Filter;
    PickIsBest(s);
    var url := Pick(s).value.url;
    UnvisitedPassExactlyWhenOpen(ForgeFetch, url, s);
    UnvisitedPassExactlyWhenOpen(Navigate, url, s);
    hide Pick, Failures;
    if node == FETCH && Open(s) && a.page.Page? {
      var links := Filter(LinksOf(a.page), l => l !in s.visited);
      LinkEntriesExactly(links, url);
    }
  }

  lemma LinkEntriesExactly(links: seq<string>, source: string)
    ensures forall e :: e in LinkEntries(links, source) <==>
              e.url in links && e.score == 0.5 && e.source == Some(source)
  {
    forall e: Entry | e.url in links && e.score == 0.5 && e.source == Some(source)
      ensures e in LinkEntries(links, source)
    {
      var i :| 0 <= i < |links| && links[i] == e.url;
      assert LinkEntries(links, source)[i] == e;
    }
  }

  /** A fetched page's URL is back on the frontier, although visited, exactly when the page links to itself. */
  lemma {:induction false} SelfLinkComesBack(s: State, a: Answer)
    requires Attempt(FETCH, s, a).Some? && a.page.Page?
    ensures var url, t := Attempt(FETCH, s, a).value, Fetch(s, a.page);
            && url in t.visited
            && ((exists e :: e in t.frontier && e.url == url) <==> url in LinksOf(a.page))
  {
    hide Ranked, Filter;
    PickIsBest(s);
    var url := Pick(s).value.url;
    UnvisitedPassExactlyWhenOpen(ForgeFetch, url, s);
    hide Pick, Failures;
    var links := Filter(LinksOf(a.page), l => l !in s.visited);
    if url in LinksOf(a.page) {
      assert url in links;
      var i :| 0 <= i < |links| && links[i] == url;
      assert LinkEntries(links, url)[i] in Fetch(s, a.page).frontier;
    }
  }

  // ----- The order of the frontier -----

  /** A page's own links, or the extractor's when it lists none and an extractor is configured. */
  predicate LinksAre(page: Fetched, links: seq<string>) {
    && page.Page?
    && (page.links != [] ==> links == page.links)
    && (page.links == [] && page.extracted.Some? ==> links == page.extracted.value)
    && (page.links == [] && page.extracted == None ==> links == [])
  }

  function Rest(s: State, url: string): seq<Entry> {
    Filter(s.frontier, (e: Entry) => e.url != url)
  }

  /** A fetched page appends its unvisited links in page order to what is left of the frontier. */
  lemma {:induction false} FetchInOrder(s: State, a: Answer, links: seq<string>)
    requires Attempt(FETCH, s, a).Some? && LinksAre(a.page, links)
    ensures var url, t := Attempt(FETCH, s, a).value, Dispatch(FETCH, s, a);
            var rest, unseen := Rest(s, url), Filter(links, l => l !in s.visited);
            && |t.frontier| == |rest| + |unseen| && t.frontier[..|rest|] == rest
            && (forall k :: 0 <= k < |unseen| ==> t.frontier[|rest| + k] == Entry(unseen[k], 0.5, Some(url)))
  {
    hide Ranked, Filter, Pick, Failures;
    PickIsBest(s);
    UnvisitedPassExactlyWhenOpen(ForgeFetch, Pick(s).value.url, s);
  }

  /** Whatever is dropped by a block, a failed fetch or a follow, the others stay in their order. */
  lemma {:induction false} DropsInOrder(node: Node, s: State, a: Answer)
    requires Pick(s).Some? && (node == FOLLOW || (node == FETCH && (!Open(s) || a.page == FetchFailed)))
    ensures Dispatch(node, s, a).frontier == Rest(s, Pick(s).value.url)
  {
    hide Ranked, Filter, Pick, Failures;
    PickIsBest(s);
    UnvisitedPassExactlyWhenOpen(ForgeFetch, Pick(s).value.url, s);
  }

  /** SCORE sorts the frontier: same entries, higher scores first, equal scores as they were. */
  lemma ScoreRanks(s: State, a: Answer, score: real)
    ensures var t := Dispatch(SCORE, s, a).frontier;
            && Descending(t) && multiset(t) == multiset(s.frontier)
            && Filter(t, (e: Entry) => e.score == score) == Filter(s.frontier, (e: Entry) => e.score == score)
    ensures Dispatch(SCORE, s, a) == s.(frontier := Dispatch(SCORE, s, a).frontier)
  {
    RankedIsStableSort(s.frontier, score);
  }

  /** Three nodes are not wired up yet and change nothing. */
  lemma IdleNodes(s: State, a: Answer)
    ensures Dispatch(EXTRACT_LINKS, s, a) == Dispatch(SELECT, s, a) == Dispatch(SYNTHESIZE, s, a) == s
  {}

  /** A search lists its hits in order, with their scores and no source. */
  lemma SearchInOrder(s: State, a: Answer)
    ensures var t := Dispatch(SEARCH, s, a);
            && (a.results == None ==> t.frontier == [])
            && (a.results.Some? ==>
                  && |t.frontier| == |a.results.value|
                  && forall k :: 0 <= k < |t.frontier| ==>
                       && t.frontier[k].url == a.results.value[k].url
                       && t.frontier[k].score == a.results.value[k].score && t.frontier[k].source == None)
  {}

  lemma {:induction false} LinkEntriesFiltered(links: seq<string>, source: string, visited: set<string>)
    ensures Filter(LinkEntries(links, source), (e: Entry) => e.url !in visited && e.score == 0.5)
         == LinkEntries(Filter(links, l => l !in visited), source)
  {
    if links != [] {
      var front, last := links[..|links| - 1], links[|links| - 1];
      LinkEntriesFiltered(front, source, visited);
      assert links == front + [last];
      assert LinkEntries(links, source) == LinkEntries(front, source) + [Entry(last, 0.5, Some(source))];
      FilterAppend(LinkEntries(front, source), Entry(last, 0.5, Some(source)),
                   (e: Entry) => e.url !in visited && e.score == 0.5);
      FilterAppend(front, last, l => l !in visited);
    }
  }

  lemma {:induction false} NoneOf(s: seq<Entry>, p: Entry -> bool)
    requires forall e :: e in s ==> !p(e)
    ensures Filter(s, p) == []
  {
    HeadIn(Filter(s, p));
  }

  /** The unvisited entries of score 0.5 are in the same order before and after ranking. */
  lemma {:induction false} RankingKeepsHalves(frontier: seq<Entry>, visited: set<string>)
    ensures Filter(Filter(Ranked(frontier), (e: Entry) => e.url !in visited), (e: Entry) => e.score == 0.5)
         == Filter(frontier, (e: Entry) => e.url !in visited && e.score == 0.5)
  {
    hide Ranked, Filter;
    var ranked := Ranked(frontier);
    var u, q := (e: Entry) => e.url !in visited, (e: Entry) => e.score == 0.5;
    var both := (e: Entry) => e.url !in visited && e.score == 0.5;
    RankedIsStableSort(frontier, 0.5);
    FilterSame(ranked, (x: Entry) => x.score == 0.5, q);
    FilterSame(frontier, (x: Entry) => x.score == 0.5, q);
    FilterBoth(ranked, u, q, both);
    FilterBoth(ranked, q, u, both);
    FilterBoth(frontier, q, u, both);
  }

  /**
   Which URL a round follows: when every other unvisited hit scores below 0.5, the first link of the page
   fetched that is unvisited and not the page itself, in page order. The guardrails are still open.
   */
  lemma {:induction false} FollowTakesFirstLink(s: State, env: nat -> Answer, n: nat, links: seq<string>)
    requires NodeAt(n) == FETCH && Attempt(FETCH, After(s, env, n), env(n)).Some? && LinksAre(env(n).page, links)
    requires var before := After(s, env, n);
             var url := Attempt(FETCH, before, env(n)).value;
             && Filter(links, l => l !in before.visited + {url}) != []
             && forall e :: e in before.frontier && e.url != url && e.url !in before.visited ==> e.score < 0.5
    ensures var before := After(s, env, n);
            var url := Attempt(FETCH, before, env(n)).value;
            Attempt(FOLLOW, After(s, env, n + 4), env(n + 4))
            == Some(Filter(links, l => l !in before.visited + {url})[0])
  {
    hide NodeAt, After, Ranked, Filter, Pick, Failures, Fetch, Follow;
    Cycle(n);
    NodesOfRound(n);
    AfterStep(s, env, n);
    AfterStep(s, env, n + 1);
    AfterStep(s, env, n + 2);
    AfterStep(s, env, n + 3);
    var before, fetched, follows := After(s, env, n), After(s, env, n + 1), After(s, env, n + 4);
    DispatchVisits(FETCH, before, env(n));
    var url := Attempt(FETCH, before, env(n)).value;
    FirstHalf(before, env(n), links, url, fetched);
    assert follows == fetched.(frontier := Ranked(fetched.frontier));
    FirstHalfIsPicked(fetched, follows, Filter(links, l => l !in before.visited + {url}), url);
  }

  /** The unvisited entries of score 0.5 after the fetch are the page's unvisited links. */
  lemma {:induction false} FirstHalf(s: State, a: Answer, links: seq<string>, url: string, t: State)
    requires Attempt(FETCH, s, a) == Some(url) && LinksAre(a.page, links) && t == Dispatch(FETCH, s, a)
    requires forall e :: e in s.frontier && e.url != url && e.url !in s.visited ==> e.score < 0.5
    requires t.visited == s.visited + {url}
    ensures Filter(t.frontier, (e: Entry) => e.url !in t.visited && e.score == 0.5)
         == LinkEntries(Filter(links, l => l !in s.visited + {url}), url)
    ensures forall e :: e in t.frontier && e.url !in t.visited ==> e.score <= 0.5
  {
    hide Dispatch, Attempt, Filter, LinksAre;
    FetchInOrder(s, a, links);
    var rest, unseen := Rest(s, url), Filter(links, l => l !in s.visited);
    var p := (e: Entry) => e.url !in t.visited && e.score == 0.5;
    assert t.frontier == rest + LinkEntries(unseen, url);
    FilterConcat(rest, LinkEntries(unseen, url), p);
    NoneOf(rest, p);
    LinkEntriesFiltered(unseen, url, t.visited);
    FilterSame(LinkEntries(unseen, url), p, (e: Entry) => e.url !in t.visited && e.score == 0.5);
    FilterBoth(links, l => l !in s.visited, l => l !in t.visited, l => l !in s.visited + {url});
  }

  lemma {:induction false} FirstHalfIsPicked(t: State, ranked: State, links: seq<string>, url: string)
    requires ranked == t.(frontier := Ranked(t.frontier)) && links != [] && Open(t)
    requires Filter(t.frontier, (e: Entry) => e.url !in t.visited && e.score == 0.5) == LinkEntries(links, url)
    requires forall e :: e in t.frontier && e.url !in t.visited ==> e.score <= 0.5
    ensures forall a :: Attempt(FOLLOW, ranked, a) == Some(links[0])
  {
    hide Filter, Ranked;
    RankingKeepsHalves(t.frontier, t.visited);
    RankedIsStableSort(t.frontier, 0.5);
    assert forall e :: e in Ranked(t.frontier) <==> e in multiset(Ranked(t.frontier));
    assert forall e :: e in t.frontier <==> e in multiset(t.frontier);
    PickIsBest(ranked);
    var first := LinkEntries(links, url)[0];
    assert first in Filter(t.frontier, (e: Entry) => e.url !in t.visited && e.score == 0.5);
    assert first in ranked.frontier && first.url !in ranked.visited && first.score == 0.5;
    hide Pick;
    var best := Pick(ranked).value;
    assert best.score == 0.5;
  }

  // ----- Guardrails rule by rule -----

  /** Which rules fail, and that they are listed in registry order. */
  lemma {:induction false} GuardrailsExactly(tool: Tool, url: string, s: State)
    ensures var failing := Failures(tool, url, s);
            && (DepthGate in failing <==> s.depth >= s.max)
            && (CyclePrevention in failing <==> tool == Navigate && url != "" && url in s.visited)
            && (CitationGate in failing <==> tool == Synthesis && s.evidence == [])
            && GateBypass !in failing
            && (SovereignVeto in failing <==>
                  s.depth >= 3
                  || |Filter(s.hypotheses, (h: Hypothesis) => h.contradicting != [] && h.supporting == [])| > 2)
            && failing == Filter([DepthGate, CyclePrevention, CitationGate, GateBypass, SovereignVeto],
                                 (r: Rule) => r in failing)
  {
    FilterSame(s.hypotheses, Unresolved, (h: Hypothesis) => h.contradicting != [] && h.supporting == []);
    hide Filter;
    var failing := Failures(tool, url, s);
    FilterSame(GUARD_RULES, r => !Passes(r, tool, url, s), (r: Rule) => r in failing);
    assert GUARD_RULES[0] == DepthGate && GUARD_RULES[1] == CyclePrevention && GUARD_RULES[2] == CitationGate;
    assert GUARD_RULES[3] == GateBypass && GUARD_RULES[4] == SovereignVeto;
  }

  // ----- Rounds -----

  /**
   Because the cycle restarts at SEED, SEARCH replaces the frontier just before every FETCH: only search
   hits are ever fetched, and a link found on a page can be followed in its own round but never fetched.
   */
  lemma {:induction false} OnlyHitsAreFetched(s: State, env: nat -> Answer, n: nat)
    requires NodeAt(n) == FETCH && Attempt(FETCH, After(s, env, n), env(n)).Some?
    ensures n > 0 && env(n - 1).results.Some?
    ensures exists hit :: hit in env(n - 1).results.value
                     && hit.url == Attempt(FETCH, After(s, env, n), env(n)).value
  {
    hide Pick, Ranked, Filter;
    assert NodeAt(n - 1) == SEARCH;
    PickIsBest(After(s, env, n));
    var e := Pick(After(s, env, n)).value;
    var hits := env(n - 1).results;
    assert After(s, env, n).frontier == if hits.Some? then HitEntries(hits.value) else [];
    var i :| 0 <= i < |hits.value| && HitEntries(hits.value)[i] == e;
    assert hits.value[i] in hits.value;
  }

  lemma {:induction false} Cycle(n: nat)
    ensures NodeAt(n) == SEED <==> n % 9 == 0
    ensures NodeAt(n) == SEARCH <==> n % 9 == 1
    ensures NodeAt(n) == FETCH <==> n % 9 == 2
    ensures NodeAt(n) == FOLLOW <==> n % 9 == 6
    ensures NodeAt(n) == CHECK_STOP <==> n % 9 == 8
  {
    assert NODE_SEQUENCE[n % 9] == NodeAt(n);
  }

  /** The epoch counts the rounds begun. */
  lemma {:induction false} EpochCountsRounds(s: State, env: nat -> Answer, n: nat)
    ensures After(s, env, n).epoch == s.epoch + (n + 8) / 9
  {
    hide After, NodeAt, Dispatch;
    AfterStep(s, env, if n > 0 then n - 1 else 0);
    if n > 0 {
      EpochCountsRounds(s, env, n - 1);
      Cycle(n - 1);
      EpochStep(NodeAt(n - 1), After(s, env, n - 1), env(n - 1));
      EpochSum(n - 1);
    }
  }

  lemma EpochStep(node: Node, s: State, a: Answer)
    ensures Dispatch(node, s, a).epoch == s.epoch + if node == SEED then 1 else 0
  {
    hide Pick, Failures, Filter, Ranked;
    if node == FETCH && Pick(s).Some? {
      match a.page { case NoFetcher => case FetchFailed => case Page(_, _) => }
    }
  }

  lemma EpochSum(n: nat)
    ensures (n + 9) / 9 == (n + 8) / 9 + if n % 9 == 0 then 1 else 0
  {}

  /** A run makes at most one fetch and one follow per round of nine iterations. */
  lemma {:induction false} VisitsPerRound(s: State, env: nat -> Answer, n: nat)
    ensures |Trace(s, env, n)| <= (n + 6) / 9 + (n + 2) / 9
    ensures Follows(s, env, n) <= (n + 2) / 9
  {
    hide Trace, Follows;
    TraceStart(s, env);
    if n > 0 {
      VisitsPerRound(s, env, n - 1);
      TraceStep(s, env, n - 1);
      RoundCounts(n - 1);
    }
  }

  lemma RoundCounts(n: nat)
    ensures (n + 7) / 9 == (n + 6) / 9 + if n % 9 == 2 then 1 else 0
    ensures (n + 3) / 9 == (n + 2) / 9 + if n % 9 == 6 then 1 else 0
  {}

  lemma TraceStart(s: State, env: nat -> Answer)
    ensures Trace(s, env, 0) == [] && Follows(s, env, 0) == 0
  {}

  lemma {:induction false} TraceStep(s: State, env: nat -> Answer, n: nat)
    ensures |Trace(s, env, n + 1)| <= |Trace(s, env, n)| + (if n % 9 == 2 || n % 9 == 6 then 1 else 0)
    ensures Follows(s, env, n + 1) <= Follows(s, env, n) + (if n % 9 == 6 then 1 else 0)
  {
    Cycle(n);
    AttemptsOnlyThere(NodeAt(n), After(s, env, n), env(n));
    hide NodeAt, Attempt, After;
  }

  lemma AttemptsOnlyThere(node: Node, s: State, a: Answer)
    ensures Attempt(node, s, a).Some? ==> node == FETCH || node == FOLLOW
  {}

  function Urls(frontier: seq<Entry>): set<string> {
    set e | e in frontier :: e.url
  }

  /** Outside SEARCH an iteration drops at most the picked URL from the frontier. */
  lemma {:induction false} DropsAtMostThePick(node: Node, s: State, a: Answer)
    requires node != SEARCH
    ensures Urls(s.frontier) <= Urls(Dispatch(node, s, a).frontier)
              + (if (node == FETCH || node == FOLLOW) && Pick(s).Some? then {Pick(s).value.url} else {})
  {
    forall url | url in Urls(s.frontier)
      ensures url in Urls(Dispatch(node, s, a).frontier)
           || ((node == FETCH || node == FOLLOW) && Pick(s).Some? && Pick(s).value.url == url)
    {
      var e :| e in s.frontier && e.url == url;
      if node == SCORE {
        RankedIsStableSort(s.frontier, 0.0);
        assert e in multiset(s.frontier);
        assert e in multiset(Ranked(s.frontier));
      }
      hide Ranked, Filter, Failures, Pick;
      if node == FETCH {
        match a.page { case NoFetcher => case FetchFailed => case Page(_, _) => }
      }
      assert e in Dispatch(node, s, a).frontier
          || ((node == FETCH || node == FOLLOW) && Pick(s).Some? && Pick(s).value.url == url);
    }
  }

  lemma {:induction false} DropsOneAtMost(node: Node, s: State, a: Answer)
    requires node != SEARCH
    ensures |Urls(Dispatch(node, s, a).frontier)|
         >= |Urls(s.frontier)| - (if node == FETCH || node == FOLLOW then 1 else 0)
  {
    DropsAtMostThePick(node, s, a);
    hide Dispatch, Pick, Urls;
    var now := Urls(Dispatch(node, s, a).frontier);
    if (node == FETCH || node == FOLLOW) && Pick(s).Some? {
      SubsetSize(Urls(s.frontier), now + {Pick(s).value.url});
      assert |now + {Pick(s).value.url}| <= |now| + 1;
    } else {
      SubsetSize(Urls(s.frontier), now);
    }
  }

  lemma {:induction false} SubsetSize(a: set<string>, b: set<string>)
    requires a <= b
    ensures |a| <= |b|
  {
    assert |b| == |a| + |b - a| by { assert b == a + (b - a); }
  }

  function HitUrls(a: Answer): set<string> {
    if a.results.Some? then Urls(HitEntries(a.results.value)) else {}
  }

  /** From SEARCH to the end of its round the frontier keeps all but two of the URLs that the search listed. */
  lemma {:induction false} RoundKeepsHits(s: State, env: nat -> Answer, n: nat, k: nat)
    requires NodeAt(n) == SEARCH && k < 7
    ensures |Urls(After(s, env, n + 1 + k).frontier)|
         >= |HitUrls(env(n))| - (if k >= 5 then 2 else if k >= 1 then 1 else 0)
  {
    hide NodeAt, Urls, Dispatch, After, HitUrls;
    Cycle(n);
    Cycle(n + k);
    AfterStep(s, env, n + k);
    if k == 0 {
      SearchLists(After(s, env, n), env(n));
    } else {
      RoundKeepsHits(s, env, n, k - 1);
      Offset(n, k);
      DropsOneAtMost(NodeAt(n + k), After(s, env, n + k), env(n + k));
    }
  }

  lemma Offset(n: nat, k: nat)
    requires n % 9 == 1 && k < 8
    ensures (n + k) % 9 == 1 + k
  {}

  lemma SearchLists(s: State, a: Answer)
    ensures Urls(Dispatch(SEARCH, s, a).frontier) == HitUrls(a)
  {}

  // ----- When a round ends with an empty frontier -----

  function Unlinked(s: State, a: Answer): set<string> {
    if Open(s) && a.page.Page? then (set l | l in LinksOf(a.page) && l !in s.visited) else {}
  }

  /** The URLs on the frontier after a fetch: without the pick, with the unvisited links of a fetched page. */
  function FetchedUrls(s: State, a: Answer): set<string> {
    if Pick(s) == None || (a.page == NoFetcher && Open(s)) then Urls(s.frontier)
    else Urls(s.frontier) - {Pick(s).value.url} + Unlinked(s, a)
  }

  lemma {:induction false} FetchMakes(s: State, a: Answer)
    ensures Urls(Dispatch(FETCH, s, a).frontier) == FetchedUrls(s, a)
  {
    hide Pick, Filter, Failures;
    if Pick(s) == None {
      assert Dispatch(FETCH, s, a) == s;
    } else if a.page == NoFetcher && Open(s) {
      FrontierExactly(FETCH, s, a);
    } else {
      var t := Dispatch(FETCH, s, a);
      FrontierExactly(FETCH, s, a);
      hide Dispatch;
      forall url ensures url in Urls(t.frontier) <==> url in FetchedUrls(s, a) {
        var link := Entry(url, 0.5, Some(Pick(s).value.url));
        if url in Urls(t.frontier) {
          var e :| e in t.frontier && e.url == url;
        }
        if url in FetchedUrls(s, a) && url in Urls(s.frontier) && url != Pick(s).value.url {
          var e :| e in s.frontier && e.url == url;
          assert e in t.frontier;
        }
        if url in Unlinked(s, a) {
          assert Lists(FETCH, s, a, link) && link in t.frontier;
        }
      }
    }
  }

  /** Nothing is left, or a single URL that is not visited yet. */
  ghost predicate LastChance(left: set<string>, visited: set<string>) {
    left == {} || exists url :: url in left && url !in visited && left == {url}
  }

  /** A follow empties the frontier exactly when nothing but one unvisited URL, or nothing, was on it. */
  lemma {:induction false} FollowEmpties(s: State, a: Answer)
    ensures Dispatch(FOLLOW, s, a).frontier == []
        <==> LastChance(Urls(s.frontier), s.visited)
  {
    PickIsBest(s);
    NoUrls(s.frontier);
    hide Filter, Failures, Ranked;
    var t := Dispatch(FOLLOW, s, a);
    HeadIn(t.frontier);
    HeadIn(s.frontier);
    if Pick(s).Some? {
      var best := Pick(s).value;
      FrontierExactly(FOLLOW, s, a);
      hide Pick, Dispatch;
      if t.frontier == [] {
        assert forall e :: e in s.frontier ==> e.url == best.url;
        assert best.url in Urls(s.frontier) && Urls(s.frontier) == {best.url};
      } else {
        var e := t.frontier[0];
        assert e in s.frontier && e.url != best.url;
        assert e.url in Urls(s.frontier) && best.url in Urls(s.frontier);
      }
    } else {
      hide Pick;
      forall url | Urls(s.frontier) == {url} ensures url in s.visited {
        assert url in Urls(s.frontier);
      }
    }
  }

  /** Between FETCH and CHECK_STOP only SCORE and FOLLOW can touch the frontier; SCORE keeps its URLs. */
  lemma {:induction false} ScoreKeepsUrls(s: State)
    ensures Urls(Ranked(s.frontier)) == Urls(s.frontier) && (Ranked(s.frontier) == [] <==> s.frontier == [])
  {
    RankedIsStableSort(s.frontier, 0.0);
    assert forall e :: e in Ranked(s.frontier) <==> e in multiset(Ranked(s.frontier));
    assert forall e :: e in s.frontier <==> e in multiset(s.frontier);
    HeadIn(s.frontier);
    HeadIn(Ranked(s.frontier));
  }

  lemma {:induction false} UntilFollow(s: State, env: nat -> Answer, n: nat)
    requires NodeAt(n) == FETCH
    ensures var fetched, follows := After(s, env, n + 1), After(s, env, n + 4);
            && Urls(follows.frontier) == Urls(fetched.frontier)
            && (follows.frontier == [] <==> fetched.frontier == []) && follows.visited == fetched.visited
  {
    hide NodeAt, After, Urls, Ranked;
    Cycle(n);
    NodesOfRound(n);
    AfterStep(s, env, n + 1);
    AfterStep(s, env, n + 2);
    AfterStep(s, env, n + 3);
    ScoreKeepsUrls(After(s, env, n + 2));
  }

  /** The nodes after a FETCH. */
  lemma {:induction false} NodesOfRound(n: nat)
    requires n % 9 == 2
    ensures NodeAt(n + 1) == EXTRACT_LINKS && NodeAt(n + 2) == SCORE && NodeAt(n + 3) == SELECT
    ensures NodeAt(n + 4) == FOLLOW && NodeAt(n + 5) == SYNTHESIZE && NodeAt(n + 6) == CHECK_STOP
  {
    assert (n + 1) % 9 == 3 && (n + 2) % 9 == 4 && (n + 3) % 9 == 5;
    assert (n + 4) % 9 == 6 && (n + 5) % 9 == 7 && (n + 6) % 9 == 8;
  }

  /**
   Exactly when CHECK_STOP finds the frontier empty, in terms of its round: after the fetch nothing, or
   one unvisited URL only, was left of the search hits and the links of the page fetched.
   */
  lemma {:induction false} EmptyRoundExactly(s: State, env: nat -> Answer, n: nat)
    requires NodeAt(n) == FETCH
    ensures var left := FetchedUrls(After(s, env, n), env(n));
            After(s, env, n + 7).reason == Some(FRONTIER_EMPTY)
            <==> LastChance(left, After(s, env, n + 1).visited)
  {
    hide NodeAt, After, Urls, Ranked, FetchedUrls, Pick, Filter, Failures, Fetch, Follow, LastChance;
    Cycle(n);
    NodesOfRound(n);
    AfterStep(s, env, n);
    AfterStep(s, env, n + 4);
    AfterStep(s, env, n + 5);
    AfterStep(s, env, n + 6);
    UntilFollow(s, env, n);
    FetchMakes(After(s, env, n), env(n));
    FollowEmpties(After(s, env, n + 4), env(n + 4));
    NoUrls(After(s, env, n + 1).frontier);
  }

  /** And what the fetch of a round finds on the frontier is just the hits of its search. */
  lemma {:induction false} FetchSeesHits(s: State, env: nat -> Answer, n: nat)
    requires NodeAt(n) == FETCH
    ensures n > 0 && Urls(After(s, env, n).frontier) == HitUrls(env(n - 1))
  {
    hide NodeAt, After, Urls, HitUrls;
    Cycle(n);
    Cycle(n - 1);
    AfterStep(s, env, n - 1);
    SearchLists(After(s, env, n - 1), env(n - 1));
  }

  /**
   With a maximum above 3 that is the whole condition for a run from a seed state to stop by itself at
   the end of a round.
   */
  lemma {:induction false} StopsExactlyWhenRoundEmpty(query: string, m: int, env: nat -> Answer, n: nat)
    requires m > 3 && NodeAt(n) == FETCH
    ensures var s := SeedState(query, m);
            var left := FetchedUrls(After(s, env, n), env(n));
            Stopped(s, env, n + 7)
            <==> LastChance(left, After(s, env, n + 1).visited)
  {
    hide After, NodeAt, FetchedUrls, LastChance;
    EmptyRoundExactly(SeedState(query, m), env, n);
    DepthLimitReasonExactly(query, m, env, n + 7);
    Cycle(n);
    NodesOfRound(n);
    AllReasons(After(SeedState(query, m), env, n + 7).reason);
  }

  lemma AllReasons(reason: Option<StopReason>)
    ensures reason == None || reason == Some(FRONTIER_EMPTY) || reason == Some(DEPTH_LIMIT)
  {
    match reason
    case None =>
    case Some(r) => match r { case FRONTIER_EMPTY => case DEPTH_LIMIT => }
  }

  lemma NoUrls(frontier: seq<Entry>)
    ensures Urls(frontier) == {} <==> frontier == []
  {
    if frontier != [] {
      assert frontier[0].url in Urls(frontier);
    }
  }

  lemma EmptyUrls()
    ensures Urls([]) == {}
  {}

  /**
   The veto at depth 3 stops the fetching but not the run: with a maximum above 3, a run whose every
   search lists three URLs or more never stops by itself and ends only at its iteration limit.
   */
  lemma {:induction false} ThreeHitsKeepRunning(query: string, m: int, env: nat -> Answer, n: nat)
    requires m > 3
    requires forall k: nat :: NodeAt(k) == SEARCH ==> |HitUrls(env(k))| >= 3
    ensures !Stopped(SeedState(query, m), env, n)
  {
    var s := SeedState(query, m);
    hide NodeAt, After, HitUrls, Pick, Filter, Ranked, Failures;
    if n > 0 && NodeAt(n - 1) == CHECK_STOP {
      DepthLimitReasonExactly(query, m, env, n);
      Cycle(n - 1);
      Cycle(n - 8);
      AfterStep(s, env, n - 1);
      RoundKeepsHits(s, env, n - 8, 6);
      EmptyUrls();
    }
  }
}
