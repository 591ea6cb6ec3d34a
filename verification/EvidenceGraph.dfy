/**
 The evidence graph of an exploration (forge_explore/evidence_graph.ts, synthesize.ts): typed nodes,
 deduplicated weighted edges, and the statistics and contradictions that synthesis reads from it.
 */
module EvidenceGraph {
  import opened ExplorationTypes
  import opened Wrappers

  datatype NodeType = SOURCE | CLAIM | HYPOTHESIS

  datatype EdgeType = SUPPORTS | CONTRADICTS | REFERENCES

  datatype Metadata =
    | NoMetadata
    | ClaimMetadata(fullClaim: string, epistemicLabel: string, sourceNodeId: string)
    | HypothesisMetadata(fullStatement: string, confidence: real)

  datatype Node = Node(id: string, kind: NodeType, title: string, url: Option<string>, metadata: Metadata)

  /** What edges are deduplicated by. */
  datatype Key = Key(from: string, to: string, kind: EdgeType)

  datatype Edge = Edge(key: Key, weight: real)

  /** The graph with the id counter, which every exploration of the process shares. */
  datatype Graph = Graph(nodes: seq<Node>, edges: seq<Edge>, counter: nat)

  /** AddedElsewhere stands for ids drawn by other explorations. */
  datatype Op =
    | AddSource(url: string, title: Option<string>, now: nat)
    | AddClaim(claim: string, sourceNodeId: string, epistemicLabel: string, now: nat)
    | AddHypothesis(hypothesis: Hypothesis, now: nat)
    | AddEdge(key: Key, weight: real)
    | AddedElsewhere(drawn: nat)

  // ----- Node ids -----

  function Decimal(n: nat): (s: string)
    ensures s != "" && forall c :: c in s ==> '0' <= c <= '9'
  {
    var last := [('0' as int + n % 10) as char];
    if n < 10 then last else Decimal(n / 10) + last
  }

  function Id(prefix: string, now: nat, serial: nat): string {
    prefix + "-" + Decimal(now) + "-" + Decimal(serial)
  }

  function Digit(c: char): nat {
    if '0' <= c <= '9' then c as int - '0' as int else 0
  }

  /** The number written after the last dash. */
  function Serial(id: string): nat {
    if id == "" || id[|id| - 1] == '-' then 0 else 10 * Serial(id[..|id| - 1]) + Digit(id[|id| - 1])
  }

  lemma {:induction false} SerialOfDecimal(head: string, n: nat)
    requires head == "" || head[|head| - 1] == '-'
    ensures Serial(head + Decimal(n)) == n
  {
    var s := head + Decimal(n);
    var last := ('0' as int + n % 10) as char;
    if n < 10 {
      assert s == head + [last] && s[..|s| - 1] == head;
    } else {
      assert s == head + Decimal(n / 10) + [last] && s[..|s| - 1] == head + Decimal(n / 10);
      SerialOfDecimal(head, n / 10);
    }
  }

  lemma SerialOfId(prefix: string, now: nat, serial: nat)
    ensures Serial(Id(prefix, now, serial)) == serial
  {
    SerialOfDecimal(prefix + "-" + Decimal(now) + "-", serial);
  }

  // ----- Edges -----

  /** Adds to the weight of the first edge with the key, or appends one. */
  function Put(edges: seq<Edge>, e: Edge): seq<Edge> {
    if edges == [] then [e]
    else if edges[0].key == e.key then [Edge(e.key, edges[0].weight + e.weight)] + edges[1..]
    else [edges[0]] + Put(edges[1..], e)
  }

  function PutAll(edges: seq<Edge>, added: seq<Edge>): seq<Edge> {
    if added == [] then edges else Put(PutAll(edges, added[..|added| - 1]), added[|added| - 1])
  }

  function References(refs: seq<string>, to: string, kind: EdgeType): seq<Edge> {
    seq(|refs|, i requires 0 <= i < |refs| => Edge(Key(refs[i], to, kind), 1.0))
  }

  function Take(s: string, n: nat): string {
    if |s| <= n then s else s[..n]
  }

  /** The node an operation creates when the counter stands at a given value. */
  function Created(op: Op, counter: nat): Option<Node> {
    match op
    case AddSource(url, title, now) =>
      Some(Node(Id("src", now, counter + 1), SOURCE, if title.Some? then title.value else url, Some(url), NoMetadata))
    case AddClaim(claim, source, epistemic, now) =>
      Some(Node(Id("claim", now, counter + 1), CLAIM, Take(claim, 80), None, ClaimMetadata(claim, epistemic, source)))
    case AddHypothesis(h, now) =>
      Some(Node(Id("hyp", now, counter + 1), HYPOTHESIS, Take(h.statement, 80), None,
                HypothesisMetadata(h.statement, h.confidence)))
    case AddEdge(_, _) => None
    case AddedElsewhere(_) => None
  }

  /** The edge additions of an operation, in order. */
  function Added(op: Op, counter: nat): seq<Edge> {
    match op
    case AddSource(_, _, _) => []
    case AddClaim(_, source, _, now) => [Edge(Key(source, Id("claim", now, counter + 1), REFERENCES), 1.0)]
    case AddHypothesis(h, now) =>
      var id := Id("hyp", now, counter + 1);
      References(h.supporting, id, SUPPORTS) + References(h.contradicting, id, CONTRADICTS)
    case AddEdge(key, weight) => [Edge(key, weight)]
    case AddedElsewhere(_) => []
  }

  function Next(g: Graph, op: Op): Graph {
    var node := Created(op, g.counter);
    Graph(if node.Some? then g.nodes + [node.value] else g.nodes,
          PutAll(g.edges, Added(op, g.counter)),
          if op.AddedElsewhere? then g.counter + op.drawn else if node.Some? then g.counter + 1 else g.counter)
  }

  function Run(start: nat, ops: seq<Op>): Graph {
    if ops == [] then Graph([], [], start) else Next(Run(start, ops[..|ops| - 1]), ops[|ops| - 1])
  }

  /** Every edge addition of a run, in order. */
  function History(start: nat, ops: seq<Op>): seq<Edge> {
    if ops == [] then []
    else
      var before := ops[..|ops| - 1];
      History(start, before) + Added(ops[|ops| - 1], Run(start, before).counter)
  }

  // ----- The edges as a weighted map -----

  ghost predicate KeysUnique(edges: seq<Edge>) {
    forall i, j :: 0 <= i < j < |edges| ==> edges[i].key != edges[j].key
  }

  function Keys(edges: seq<Edge>): set<Key> {
    set e | e in edges :: e.key
  }

  /** The weight of the first edge with the key. */
  function WeightOf(edges: seq<Edge>, key: Key): real {
    if edges == [] then 0.0 else if edges[0].key == key then edges[0].weight else WeightOf(edges[1..], key)
  }

  /** The sum of the weights added for a key. */
  function Total(added: seq<Edge>, key: Key): real {
    if added == [] then 0.0
    else Total(added[..|added| - 1], key) + if added[|added| - 1].key == key then added[|added| - 1].weight else 0.0
  }

  lemma {:induction false} PutExact(edges: seq<Edge>, e: Edge)
    ensures Keys(Put(edges, e)) == Keys(edges) + {e.key}
    ensures KeysUnique(edges) ==> KeysUnique(Put(edges, e))
    ensures forall key :: WeightOf(Put(edges, e), key) == WeightOf(edges, key) + if key == e.key then e.weight else 0.0
  {
    if edges != [] {
      assert edges == [edges[0]] + edges[1..];
      if edges[0].key != e.key {
        PutExact(edges[1..], e);
        assert Keys(edges) == {edges[0].key} + Keys(edges[1..]);
        assert Keys(Put(edges, e)) == {edges[0].key} + Keys(Put(edges[1..], e));
        PutUnique(edges, e);
      }
    }
  }

  lemma {:induction false} PutUnique(edges: seq<Edge>, e: Edge)
    requires edges != [] && edges[0].key != e.key
    requires Keys(Put(edges[1..], e)) == Keys(edges[1..]) + {e.key}
    requires KeysUnique(edges[1..]) ==> KeysUnique(Put(edges[1..], e))
    ensures KeysUnique(edges) ==> KeysUnique(Put(edges, e))
  {
    if KeysUnique(edges) {
      var rest := Put(edges[1..], e);
      forall j | 0 <= j < |rest| ensures rest[j].key != edges[0].key {
        assert rest[j].key in Keys(rest);
      }
    }
  }

  lemma {:induction false} PutAllExact(added: seq<Edge>)
    ensures Keys(PutAll([], added)) == Keys(added)
    ensures KeysUnique(PutAll([], added))
    ensures forall key :: WeightOf(PutAll([], added), key) == Total(added, key)
  {
    hide Put, WeightOf, KeysUnique;
    if added != [] {
      var front, last := added[..|added| - 1], added[|added| - 1];
      assert added == front + [last];
      PutAllExact(front);
      PutExact(PutAll([], front), last);
    } else {
      EmptyEdges();
    }
  }

  lemma EmptyEdges()
    ensures KeysUnique([]) && forall key :: WeightOf([], key) == 0.0
  {}

  lemma {:induction false} PutAllAppend(edges: seq<Edge>, a: seq<Edge>, b: seq<Edge>)
    ensures PutAll(edges, a + b) == PutAll(PutAll(edges, a), b)
  {
    if b == [] {
      assert a + b == a;
    } else {
      assert (a + b)[..|a + b| - 1] == a + b[..|b| - 1];
      PutAllAppend(edges, a, b[..|b| - 1]);
    }
  }

  lemma {:induction false} EdgesFromHistory(start: nat, ops: seq<Op>)
    ensures Run(start, ops).edges == PutAll([], History(start, ops))
  {
    hide Added;
    if ops != [] {
      var before := ops[..|ops| - 1];
      EdgesFromHistory(start, before);
      PutAllAppend([], History(start, before), Added(ops[|ops| - 1], Run(start, before).counter));
    }
  }

  /**
   Over any run of additions the edges are a weighted map: one edge per (from, to, type) that was ever
   added, and its weight is the sum of all the weights added for it.
   */
  lemma {:induction false} EdgesAreWeightedMap(start: nat, ops: seq<Op>)
    ensures var g, h := Run(start, ops), History(start, ops);
            && KeysUnique(g.edges) && Keys(g.edges) == Keys(h)
            && forall key :: WeightOf(g.edges, key) == Total(h, key)
  {
    EdgesFromHistory(start, ops);
    PutAllExact(History(start, ops));
  }

  // ----- Nodes -----

  ghost predicate Numbered(g: Graph) {
    && (forall i :: 0 <= i < |g.nodes| ==> Serial(g.nodes[i].id) <= g.counter)
    && forall i, j :: 0 <= i < j < |g.nodes| ==> Serial(g.nodes[i].id) < Serial(g.nodes[j].id)
  }

  lemma CreatedSerial(op: Op, counter: nat)
    ensures var node := Created(op, counter); node.Some? ==> Serial(node.value.id) == counter + 1
    ensures Created(op, counter).Some? ==> !op.AddedElsewhere?
  {
    hide Serial, Id;
    match op
    case AddSource(_, _, now) => SerialOfId("src", now, counter + 1);
    case AddClaim(_, _, _, now) => SerialOfId("claim", now, counter + 1);
    case AddHypothesis(_, now) => SerialOfId("hyp", now, counter + 1);
    case _ =>
  }

  /** Node ids are distinct whatever clock readings and other explorations interleave; they even ascend. */
  lemma {:induction false} NodeIdsDistinct(start: nat, ops: seq<Op>)
    ensures Numbered(Run(start, ops))
    ensures forall i, j :: 0 <= i < j < |Run(start, ops).nodes| ==>
              Run(start, ops).nodes[i].id != Run(start, ops).nodes[j].id
  {
    hide Serial, Created, Added, PutAll;
    if ops != [] {
      NodeIdsDistinct(start, ops[..|ops| - 1]);
      CreatedSerial(ops[|ops| - 1], Run(start, ops[..|ops| - 1]).counter);
    }
  }

  predicate Touched(edges: seq<Edge>, id: string) {
    exists e :: e in edges && (e.key.from == id || e.key.to == id)
  }

  /** A claim is never an orphan: the edge from the source it names stays as long as the graph does. */
  lemma {:induction false} ClaimsAreReferenced(start: nat, ops: seq<Op>, node: Node)
    requires node in Run(start, ops).nodes && node.kind == CLAIM
    ensures node.metadata.ClaimMetadata?
    ensures Key(node.metadata.sourceNodeId, node.id, REFERENCES) in Keys(Run(start, ops).edges)
    ensures Touched(Run(start, ops).edges, node.id)
  {
    var before, op := ops[..|ops| - 1], ops[|ops| - 1];
    hide Id, Put;
    EdgesAreWeightedMap(start, before);
    EdgesAreWeightedMap(start, ops);
    if node in Run(start, before).nodes {
      ClaimsAreReferenced(start, before, node);
    } else {
      var added := Added(op, Run(start, before).counter);
      assert added[0] in History(start, ops);
    }
  }

  // ----- Statistics -----

  datatype Stats = Stats(totalNodes: nat, sourceCount: nat, claimCount: nat, hypothesisCount: nat,
                         supportEdgeCount: nat, contradictEdgeCount: nat, referenceEdgeCount: nat, orphanCount: nat)

  function NodesOf(nodes: seq<Node>, kind: NodeType): seq<Node> {
    Filter(nodes, (n: Node) => n.kind == kind)
  }

  function EdgesOf(edges: seq<Edge>, kind: EdgeType): seq<Edge> {
    Filter(edges, (e: Edge) => e.key.kind == kind)
  }

  function Endpoints(edges: seq<Edge>): set<string> {
    if edges == [] then {}
    else Endpoints(edges[..|edges| - 1]) + {edges[|edges| - 1].key.from, edges[|edges| - 1].key.to}
  }

  function Orphans(nodes: seq<Node>, edges: seq<Edge>): seq<Node> {
    Filter(nodes, (n: Node) => n.id !in Endpoints(edges))
  }

  lemma OrphansNext(nodes: seq<Node>, edges: seq<Edge>, i: nat)
    requires i < |nodes|
    ensures Orphans([], edges) == []
    ensures Orphans(nodes[..i + 1], edges)
            == Orphans(nodes[..i], edges) + if nodes[i].id !in Endpoints(edges) then [nodes[i]] else []
  {
    FilterNext(nodes, i, (n: Node) => n.id !in Endpoints(edges));
  }

  function StatsOf(g: Graph): Stats {
    Stats(|g.nodes|, |NodesOf(g.nodes, SOURCE)|, |NodesOf(g.nodes, CLAIM)|, |NodesOf(g.nodes, HYPOTHESIS)|,
          |EdgesOf(g.edges, SUPPORTS)|, |EdgesOf(g.edges, CONTRADICTS)|, |EdgesOf(g.edges, REFERENCES)|,
          |Orphans(g.nodes, g.edges)|)
  }

  lemma {:induction false} EndpointsTouch(edges: seq<Edge>, id: string)
    ensures id in Endpoints(edges) <==> Touched(edges, id)
  {
    if edges != [] {
      assert edges == edges[..|edges| - 1] + [edges[|edges| - 1]];
      EndpointsTouch(edges[..|edges| - 1], id);
    }
  }

  lemma {:induction false} FilterPartition<T(!new)>(s: seq<T>, p: T -> bool, q: T -> bool, r: T -> bool)
    requires forall x :: x in s ==> (p(x) && !q(x) && !r(x)) || (!p(x) && q(x) && !r(x)) || (!p(x) && !q(x) && r(x))
    ensures |Filter(s, p)| + |Filter(s, q)| + |Filter(s, r)| == |s|
  {
    if s != [] {
      FilterPartition(s[..|s| - 1], p, q, r);
    }
  }

  lemma {:induction false} FilterDisjoint<T(!new)>(s: seq<T>, p: T -> bool, q: T -> bool)
    requires forall x :: x in s ==> !(p(x) && q(x))
    ensures |Filter(s, p)| + |Filter(s, q)| <= |s|
  {
    if s != [] {
      FilterDisjoint(s[..|s| - 1], p, q);
    }
  }

  /** The counts of a run's graph add up: by type for nodes and edges, and no orphan is a claim. */
  lemma {:induction false} StatsPartition(start: nat, ops: seq<Op>)
    ensures var s := StatsOf(Run(start, ops));
            && s.sourceCount + s.claimCount + s.hypothesisCount == s.totalNodes == |Run(start, ops).nodes|
            && s.supportEdgeCount + s.contradictEdgeCount + s.referenceEdgeCount == |Run(start, ops).edges|
            && s.claimCount + s.orphanCount <= s.totalNodes
  {
    var g := Run(start, ops);
    FilterPartition(g.nodes, (n: Node) => n.kind == SOURCE, (n: Node) => n.kind == CLAIM,
                    (n: Node) => n.kind == HYPOTHESIS);
    FilterPartition(g.edges, (e: Edge) => e.key.kind == SUPPORTS, (e: Edge) => e.key.kind == CONTRADICTS,
                    (e: Edge) => e.key.kind == REFERENCES);
    forall n | n in g.nodes && n.kind == CLAIM ensures n.id in Endpoints(g.edges) {
      ClaimsAreReferenced(start, ops, n);
      EndpointsTouch(g.edges, n.id);
    }
    hide Run, Endpoints;
    FilterDisjoint(g.nodes, (n: Node) => n.kind == CLAIM, (n: Node) => n.id !in Endpoints(g.edges));
  }

  // ----- Contradictions -----

  datatype Contradiction = Contradiction(claimA: string, claimB: string, sourceA: string, sourceB: string)

  /** The first node with an id. */
  function NodeById(nodes: seq<Node>, id: string): Option<Node> {
    if nodes == [] then None else if nodes[0].id == id then Some(nodes[0]) else NodeById(nodes[1..], id)
  }

  function ClaimText(node: Option<Node>, id: string): string {
    if node == None then id
    else if node.value.metadata.ClaimMetadata? then node.value.metadata.fullClaim
    else node.value.title
  }

  function SourceText(node: Option<Node>, id: string): string {
    if node.Some? && node.value.url.Some? then node.value.url.value else id
  }

  function Render(nodes: seq<Node>, key: Key): Contradiction {
    var a, b := NodeById(nodes, key.from), NodeById(nodes, key.to);
    Contradiction(ClaimText(a, key.from), ClaimText(b, key.to), SourceText(a, key.from), SourceText(b, key.to))
  }

  /** The keys of the edges of a type, in edge order. */
  function KeysOf(edges: seq<Edge>, kind: EdgeType): seq<Key> {
    var found := EdgesOf(edges, kind);
    seq(|found|, i requires 0 <= i < |found| => found[i].key)
  }

  function ContradictionKeys(edges: seq<Edge>): seq<Key> {
    KeysOf(edges, CONTRADICTS)
  }

  function ContradictionsOf(g: Graph): seq<Contradiction> {
    var keys := ContradictionKeys(g.edges);
    seq(|keys|, i requires 0 <= i < |keys| => Render(g.nodes, keys[i]))
  }

  /** The ordered pairs that occur with a type. */
  function PairsOf(h: seq<Edge>, kind: EdgeType): set<Key> {
    set e | e in h && e.key.kind == kind :: e.key
  }

  function ContradictingPairs(h: seq<Edge>): set<Key> {
    PairsOf(h, CONTRADICTS)
  }

  lemma {:induction false} KeysListed(edges: seq<Edge>, kind: EdgeType)
    requires KeysUnique(edges)
    ensures Distinct(KeysOf(edges, kind))
    ensures forall key :: key in KeysOf(edges, kind) <==> key in PairsOf(edges, kind)
  {
    if edges != [] {
      var front, last := edges[..|edges| - 1], edges[|edges| - 1];
      assert edges == front + [last];
      KeysListed(front, kind);
      KeysAppend(front, last, kind);
      assert last.key !in PairsOf(front, kind);
    }
  }

  lemma KeysAppend(front: seq<Edge>, last: Edge, kind: EdgeType)
    ensures KeysOf(front + [last], kind)
         == KeysOf(front, kind) + if last.key.kind == kind then [last.key] else []
    ensures PairsOf(front + [last], kind)
         == PairsOf(front, kind) + if last.key.kind == kind then {last.key} else {}
  {
    FilterAppend(front, last, (e: Edge) => e.key.kind == kind);
  }

  lemma {:induction false} DistinctCount(keys: seq<Key>, pairs: set<Key>)
    requires Distinct(keys) && forall key :: key in keys <==> key in pairs
    ensures |keys| == |pairs|
  {
    if keys != [] {
      var front, last := keys[..|keys| - 1], keys[|keys| - 1];
      assert keys == front + [last];
      DistinctCount(front, pairs - {last});
    }
  }

  /**
   No disagreement is dropped or repeated: the list of synthesis renders, in order, a sequence of distinct
   keys that are exactly the ordered pairs any operation of the run declared contradicting, however often.
   */
  lemma {:induction false} OneContradictionPerPair(start: nat, ops: seq<Op>)
    ensures var g, h := Run(start, ops), History(start, ops);
            var keys := ContradictionKeys(g.edges);
            && Distinct(keys)
            && (forall key :: key in keys <==> key in ContradictingPairs(h))
            && |ContradictionsOf(g)| == |keys|
            && (forall i :: 0 <= i < |keys| ==> ContradictionsOf(g)[i] == Render(g.nodes, keys[i]))
  {
    var g, h := Run(start, ops), History(start, ops);
    EdgesAreWeightedMap(start, ops);
    hide Run, History, Render, WeightOf, Total, KeysUnique, KeysOf, PairsOf;
    KeysListed(g.edges, CONTRADICTS);
    PairsByKeys(g.edges, h, CONTRADICTS);
  }

  lemma PairsByKeys(a: seq<Edge>, b: seq<Edge>, kind: EdgeType)
    requires Keys(a) == Keys(b)
    ensures PairsOf(a, kind) == PairsOf(b, kind)
  {
    assert PairsOf(a, kind) == set k | k in Keys(a) && k.kind == kind;
    assert PairsOf(b, kind) == set k | k in Keys(b) && k.kind == kind;
  }

  // ----- What each operation adds -----

  lemma {:induction false} PutAllWeights(edges: seq<Edge>, added: seq<Edge>)
    ensures forall key :: WeightOf(PutAll(edges, added), key) == WeightOf(edges, key) + Total(added, key)
    ensures Keys(PutAll(edges, added)) == Keys(edges) + Keys(added)
  {
    hide Put, WeightOf;
    if added != [] {
      var front, last := added[..|added| - 1], added[|added| - 1];
      assert added == front + [last];
      PutAllWeights(edges, front);
      PutExact(PutAll(edges, front), last);
    }
  }

  lemma {:induction false} TotalAppend(a: seq<Edge>, b: seq<Edge>, key: Key)
    ensures Total(a + b, key) == Total(a, key) + Total(b, key)
  {
    if b == [] {
      assert a + b == a;
    } else {
      assert (a + b)[..|a + b| - 1] == a + b[..|b| - 1];
      TotalAppend(a, b[..|b| - 1], key);
    }
  }

  lemma {:induction false} TotalOfReferences(refs: seq<string>, to: string, kind: EdgeType, key: Key)
    ensures Total(References(refs, to, kind), key)
         == if key.to == to && key.kind == kind then multiset(refs)[key.from] as real else 0.0
  {
    if refs != [] {
      var front, last := refs[..|refs| - 1], refs[|refs| - 1];
      assert refs == front + [last];
      TotalOfReferences(front, to, kind, key);
      var all := References(refs, to, kind);
      assert all[..|all| - 1] == References(front, to, kind);
    }
  }

  /**
   A hypothesis gains support in proportion: the weight from each supporting reference to it grows by the
   number of times it is listed, likewise for contradicting ones, and no other edge changes.
   */
  lemma HypothesisWeights(g: Graph, h: Hypothesis, now: nat, key: Key)
    ensures var id := Id("hyp", now, g.counter + 1);
            WeightOf(Next(g, AddHypothesis(h, now)).edges, key)
            == WeightOf(g.edges, key)
               + (if key.to == id && key.kind == SUPPORTS then multiset(h.supporting)[key.from] as real
                  else if key.to == id && key.kind == CONTRADICTS then multiset(h.contradicting)[key.from] as real
                  else 0.0)
    ensures var id := Id("hyp", now, g.counter + 1);
            key in Keys(Next(g, AddHypothesis(h, now)).edges)
            <==> || key in Keys(g.edges)
                 || (key.to == id && key.kind == SUPPORTS && key.from in h.supporting)
                 || (key.to == id && key.kind == CONTRADICTS && key.from in h.contradicting)
  {
    hide Put, PutAll, WeightOf, Total, Id;
    var id := Id("hyp", now, g.counter + 1);
    var a, b := References(h.supporting, id, SUPPORTS), References(h.contradicting, id, CONTRADICTS);
    PutAllWeights(g.edges, a + b);
    TotalAppend(a, b, key);
    TotalOfReferences(h.supporting, id, SUPPORTS, key);
    TotalOfReferences(h.contradicting, id, CONTRADICTS, key);
    KeysOfReferences(h.supporting, id, SUPPORTS);
    KeysOfReferences(h.contradicting, id, CONTRADICTS);
    KeysOfBoth(a, b);
  }

  lemma KeysOfReferences(refs: seq<string>, to: string, kind: EdgeType)
    ensures forall key :: key in Keys(References(refs, to, kind)) <==>
              key.to == to && key.kind == kind && key.from in refs
  {
    var all := References(refs, to, kind);
    forall key ensures key in Keys(all) <==> key.to == to && key.kind == kind && key.from in refs {
      if key.to == to && key.kind == kind && key.from in refs {
        var i :| 0 <= i < |refs| && refs[i] == key.from;
        assert all[i] in all && all[i].key == key;
      }
    }
  }

  lemma KeysOfBoth(a: seq<Edge>, b: seq<Edge>)
    ensures Keys(a + b) == Keys(a) + Keys(b)
  {}

  /** A claim adds one to the weight of the references edge from its source to it, a source adds nothing. */
  lemma OtherWeights(g: Graph, key: Key, claim: string, source: string, epistemic: string, url: string,
                     title: Option<string>, weight: real, edge: Key, now: nat)
    ensures WeightOf(Next(g, AddClaim(claim, source, epistemic, now)).edges, key)
         == WeightOf(g.edges, key)
            + if key == Key(source, Id("claim", now, g.counter + 1), REFERENCES) then 1.0 else 0.0
    ensures Next(g, AddSource(url, title, now)).edges == g.edges
    ensures WeightOf(Next(g, AddEdge(edge, weight)).edges, key)
         == WeightOf(g.edges, key) + if key == edge then weight else 0.0
  {
    hide Put, WeightOf, Id;
    PutExact(g.edges, Edge(Key(source, Id("claim", now, g.counter + 1), REFERENCES), 1.0));
    PutExact(g.edges, Edge(edge, weight));
    PutOne(g.edges, Edge(Key(source, Id("claim", now, g.counter + 1), REFERENCES), 1.0));
    PutOne(g.edges, Edge(edge, weight));
  }

  lemma PutOne(edges: seq<Edge>, e: Edge)
    ensures PutAll(edges, [e]) == Put(edges, e)
  {
    assert [e][..0] == [];
  }

  predicate Digits(s: string) {
    s != "" && forall c :: c in s ==> '0' <= c <= '9'
  }

  /** An id reads prefix, dash, clock, dash, serial, both numbers in decimal. */
  lemma IdReads(prefix: string, now: nat, serial: nat) returns (clock: string, number: string)
    ensures Id(prefix, now, serial) == prefix + "-" + clock + "-" + number
    ensures Digits(clock) && Digits(number) && Serial(clock) == now && Serial(number) == serial
  {
    clock, number := Decimal(now), Decimal(serial);
    SerialOfDecimal("", now);
    SerialOfDecimal("", serial);
    assert "" + Decimal(now) == Decimal(now) && "" + Decimal(serial) == Decimal(serial);
  }

  /** A text cut to at most 80 characters. */
  predicate Cut(title: string, text: string) {
    title <= text && |title| == if |text| < 80 then |text| else 80
  }

  /** Each adding operation appends one node under the next serial, with its type, texts and URL. */
  lemma NodesCreated(g: Graph, url: string, title: Option<string>, claim: string, source: string,
                     epistemic: string, h: Hypothesis, now: nat)
    ensures var g' := Next(g, AddSource(url, title, now));
            && g'.counter == g.counter + 1 && |g'.nodes| == |g.nodes| + 1 && g.nodes <= g'.nodes
            && var node := g'.nodes[|g.nodes|];
            && node.id == Id("src", now, g.counter + 1) && node.kind == SOURCE && node.url == Some(url)
            && (title == None ==> node.title == url) && (title.Some? ==> node.title == title.value)
    ensures var g' := Next(g, AddClaim(claim, source, epistemic, now));
            && g'.counter == g.counter + 1 && |g'.nodes| == |g.nodes| + 1 && g.nodes <= g'.nodes
            && var node := g'.nodes[|g.nodes|];
            && node.id == Id("claim", now, g.counter + 1) && node.kind == CLAIM && node.url == None
            && Cut(node.title, claim) && node.metadata == ClaimMetadata(claim, epistemic, source)
    ensures var g' := Next(g, AddHypothesis(h, now));
            && g'.counter == g.counter + 1 && |g'.nodes| == |g.nodes| + 1 && g.nodes <= g'.nodes
            && var node := g'.nodes[|g.nodes|];
            && node.id == Id("hyp", now, g.counter + 1) && node.kind == HYPOTHESIS && node.url == None
            && Cut(node.title, h.statement) && node.metadata == HypothesisMetadata(h.statement, h.confidence)
  {
    hide Id, PutAll;
  }

  // ----- What the statistics count -----

  /** The nodes of each type are the operations that added one; the edges of each type are the pairs ever added. */
  lemma {:induction false} StatsCount(start: nat, ops: seq<Op>)
    ensures var s, h := StatsOf(Run(start, ops)), History(start, ops);
            && s.sourceCount == |Filter(ops, (o: Op) => o.AddSource?)|
            && s.claimCount == |Filter(ops, (o: Op) => o.AddClaim?)|
            && s.hypothesisCount == |Filter(ops, (o: Op) => o.AddHypothesis?)|
            && s.supportEdgeCount == |PairsOf(h, SUPPORTS)|
            && s.contradictEdgeCount == |PairsOf(h, CONTRADICTS)|
            && s.referenceEdgeCount == |PairsOf(h, REFERENCES)|
            && s.orphanCount == |Filter(Run(start, ops).nodes, (n: Node) => !Touched(Run(start, ops).edges, n.id))|
  {
    var g, h := Run(start, ops), History(start, ops);
    NodesCounted(start, ops);
    EdgesAreWeightedMap(start, ops);
    hide Run, History;
    EdgesCounted(g.edges, h, SUPPORTS);
    EdgesCounted(g.edges, h, CONTRADICTS);
    EdgesCounted(g.edges, h, REFERENCES);
    OrphansCounted(g.nodes, g.edges);
  }

  lemma EdgesCounted(edges: seq<Edge>, h: seq<Edge>, kind: EdgeType)
    requires KeysUnique(edges) && Keys(edges) == Keys(h)
    ensures |EdgesOf(edges, kind)| == |PairsOf(h, kind)|
  {
    KeysListed(edges, kind);
    PairsByKeys(edges, h, kind);
    DistinctCount(KeysOf(edges, kind), PairsOf(edges, kind));
  }

  lemma {:induction false} NodesCounted(start: nat, ops: seq<Op>)
    ensures var nodes := Run(start, ops).nodes;
            && |NodesOf(nodes, SOURCE)| == |Filter(ops, (o: Op) => o.AddSource?)|
            && |NodesOf(nodes, CLAIM)| == |Filter(ops, (o: Op) => o.AddClaim?)|
            && |NodesOf(nodes, HYPOTHESIS)| == |Filter(ops, (o: Op) => o.AddHypothesis?)|
  {
    if ops != [] {
      var before, op := ops[..|ops| - 1], ops[|ops| - 1];
      NodesCounted(start, before);
      assert ops == before + [op];
      FilterAppend(before, op, (o: Op) => o.AddSource?);
      FilterAppend(before, op, (o: Op) => o.AddClaim?);
      FilterAppend(before, op, (o: Op) => o.AddHypothesis?);
      NodesAppended(Run(start, before), op);
    }
  }

  lemma NodesAppended(g: Graph, op: Op)
    ensures var nodes := Next(g, op).nodes;
            && |NodesOf(nodes, SOURCE)| == |NodesOf(g.nodes, SOURCE)| + (if op.AddSource? then 1 else 0)
            && |NodesOf(nodes, CLAIM)| == |NodesOf(g.nodes, CLAIM)| + (if op.AddClaim? then 1 else 0)
            && |NodesOf(nodes, HYPOTHESIS)| == |NodesOf(g.nodes, HYPOTHESIS)| + (if op.AddHypothesis? then 1 else 0)
  {
    hide Id, PutAll, Filter;
    var created := Created(op, g.counter);
    if created.Some? {
      FilterAppend(g.nodes, created.value, (n: Node) => n.kind == SOURCE);
      FilterAppend(g.nodes, created.value, (n: Node) => n.kind == CLAIM);
      FilterAppend(g.nodes, created.value, (n: Node) => n.kind == HYPOTHESIS);
    }
  }

  lemma OrphansCounted(nodes: seq<Node>, edges: seq<Edge>)
    ensures Orphans(nodes, edges) == Filter(nodes, (n: Node) => !Touched(edges, n.id))
  {
    forall n | n in nodes ensures n.id !in Endpoints(edges) <==> !Touched(edges, n.id) {
      EndpointsTouch(edges, n.id);
    }
    FilterSame(nodes, (n: Node) => n.id !in Endpoints(edges), (n: Node) => !Touched(edges, n.id));
  }

  // ----- What a contradiction says -----

  predicate Shaped(node: Node) {
    (node.kind == CLAIM <==> node.metadata.ClaimMetadata?) && (node.kind == SOURCE <==> node.url.Some?)
  }

  lemma {:induction false} NodesShaped(start: nat, ops: seq<Op>)
    ensures forall node :: node in Run(start, ops).nodes ==> Shaped(node)
  {
    hide Id, PutAll;
    if ops != [] {
      NodesShaped(start, ops[..|ops| - 1]);
    }
  }

  lemma {:induction false} NodeByIdExactly(nodes: seq<Node>, id: string)
    requires forall i, j :: 0 <= i < j < |nodes| ==> nodes[i].id != nodes[j].id
    ensures forall node :: node in nodes && node.id == id ==> NodeById(nodes, id) == Some(node)
    ensures (forall node :: node in nodes ==> node.id != id) ==> NodeById(nodes, id) == None
  {
    if nodes != [] {
      assert nodes == [nodes[0]] + nodes[1..];
      NodeByIdExactly(nodes[1..], id);
    }
  }

  /** What is said of one side of a contradiction: the full claim and its URL, as far as there are any. */
  ghost predicate Says(nodes: seq<Node>, id: string, claim: string, source: string) {
    && (forall node :: node in nodes && node.id == id ==>
          && (node.kind == CLAIM ==> node.metadata.ClaimMetadata? && claim == node.metadata.fullClaim)
          && (node.kind != CLAIM ==> claim == node.title)
          && (node.kind == SOURCE ==> node.url == Some(source))
          && (node.kind != SOURCE ==> source == id))
    && ((forall node :: node in nodes ==> node.id != id) ==> claim == id && source == id)
  }

  /** In every run each contradiction names its two sides, first the edge's origin, then its target. */
  lemma ContradictionSays(start: nat, ops: seq<Op>, key: Key)
    ensures var nodes := Run(start, ops).nodes;
            var c := Render(nodes, key);
            Says(nodes, key.from, c.claimA, c.sourceA) && Says(nodes, key.to, c.claimB, c.sourceB)
  {
    NodeIdsDistinct(start, ops);
    NodesShaped(start, ops);
    hide Run;
    NodeByIdExactly(Run(start, ops).nodes, key.from);
    NodeByIdExactly(Run(start, ops).nodes, key.to);
  }

  // ----- The graph in place -----

  class EvidenceStore {
    var nodes: seq<Node>
    var edges: seq<Edge>
    var counter: nat

    constructor (counter: nat)
      ensures Model() == Graph([], [], counter)
    {
      nodes, edges, this.counter := [], [], counter;
    }

    function Model(): Graph
      reads this
    {
      Graph(nodes, edges, counter)
    }

    method NextNodeId(prefix: string, now: nat) returns (id: string)
      modifies this`counter
      ensures counter == old(counter) + 1 && id == Id(prefix, now, counter)
    {
      counter := counter + 1;
      id := Id(prefix, now, counter);
    }

    method AddSourceNode(url: string, title: Option<string>, now: nat) returns (node: Node)
      modifies this
      ensures Model() == Next(old(Model()), AddSource(url, title, now))
      ensures nodes == old(nodes) + [node]
    {
      var id := NextNodeId("src", now);
      node := Node(id, SOURCE, if title.Some? then title.value else url, Some(url), NoMetadata);
      nodes := nodes + [node];
    }

    method AddClaimNode(claim: string, sourceNodeId: string, epistemicLabel: string, now: nat) returns (node: Node)
      modifies this
      ensures Model() == Next(old(Model()), AddClaim(claim, sourceNodeId, epistemicLabel, now))
      ensures nodes == old(nodes) + [node]
    {
      hide Put, Id;
      var id := NextNodeId("claim", now);
      node := Node(id, CLAIM, Take(claim, 80), None, ClaimMetadata(claim, epistemicLabel, sourceNodeId));
      nodes := nodes + [node];
      InsertEdge(Key(sourceNodeId, id, REFERENCES), 1.0);
    }

    method AddHypothesisNode(hypothesis: Hypothesis, now: nat) returns (node: Node)
      modifies this
      ensures Model() == Next(old(Model()), AddHypothesis(hypothesis, now))
      ensures nodes == old(nodes) + [node]
    {
      hide Put, Id;
      var id := NextNodeId("hyp", now);
      node := Node(id, HYPOTHESIS, Take(hypothesis.statement, 80), None,
                   HypothesisMetadata(hypothesis.statement, hypothesis.confidence));
      nodes := nodes + [node];
      AddReferences(hypothesis.supporting, id, SUPPORTS);
      AddReferences(hypothesis.contradicting, id, CONTRADICTS);
      PutAllAppend(old(edges), References(hypothesis.supporting, id, SUPPORTS),
                   References(hypothesis.contradicting, id, CONTRADICTS));
    }

    method AddReferences(refs: seq<string>, to: string, kind: EdgeType)
      modifies this`edges
      ensures edges == PutAll(old(edges), References(refs, to, kind))
    {
      ghost var all := References(refs, to, kind);
      for i := 0 to |refs|
        invariant edges == PutAll(old(edges), all[..i])
      {
        assert all[..i + 1][..i] == all[..i];
        InsertEdge(Key(refs[i], to, kind), 1.0);
      }
      assert all[..|refs|] == all;
    }

    /** The search for an existing edge, whose weight grows in place, and else the append. */
    method InsertEdge(key: Key, weight: real)
      modifies this`edges
      ensures edges == Put(old(edges), Edge(key, weight))
      ensures edges == PutAll(old(edges), [Edge(key, weight)])
    {
      for i := 0 to |edges|
        invariant edges == old(edges)
        invariant Put(edges, Edge(key, weight)) == edges[..i] + Put(edges[i..], Edge(key, weight))
      {
        if edges[i].key == key {
          edges := edges[i := Edge(key, edges[i].weight + weight)];
          return;
        }
      }
      edges := edges + [Edge(key, weight)];
    }

    method GetGraphStats() returns (stats: Stats)
      ensures stats == StatsOf(Model())
    {
      var nodesWithEdges: set<string> := {};
      for i := 0 to |edges|
        invariant nodesWithEdges == Endpoints(edges[..i])
      {
        assert edges[..i + 1][..i] == edges[..i];
        nodesWithEdges := nodesWithEdges + {edges[i].key.from} + {edges[i].key.to};
      }
      assert edges[..|edges|] == edges;
      var orphans := 0;
      for i := 0 to |nodes|
        invariant orphans == |Orphans(nodes[..i], edges)|
      {
        OrphansNext(nodes, edges, i);
        if nodes[i].id !in nodesWithEdges {
          orphans := orphans + 1;
        }
      }
      assert nodes[..|nodes|] == nodes;
      return Stats(|nodes|, |NodesOf(nodes, SOURCE)|, |NodesOf(nodes, CLAIM)|, |NodesOf(nodes, HYPOTHESIS)|,
                   |EdgesOf(edges, SUPPORTS)|, |EdgesOf(edges, CONTRADICTS)|, |EdgesOf(edges, REFERENCES)|, orphans);
    }

    method BuildContradictionsList() returns (contradictions: seq<Contradiction>)
      ensures contradictions == ContradictionsOf(Model())
    {
      hide Render;
      var contradictEdges := EdgesOf(edges, CONTRADICTS);
      contradictions := [];
      for i := 0 to |contradictEdges|
        invariant contradictions == ContradictionsOf(Model())[..i]
      {
        contradictions := contradictions + [Render(nodes, contradictEdges[i].key)];
      }
    }
  }
}
