/**
 The motif registry (paradox-engine/registry.py): a taxonomy of motif templates and the rule
 that decides how two motifs relate. Vectors keep their sixteen components; the Euclidean norm
 is a parameter, so cosines are exact up to that norm.
 */
module Registry {
  import opened Wrappers

  const SOMATIC_DIM: nat := 16
  const CONTRADICTION_THRESHOLD: real := -0.3
  const EPSILON: real := 0.00000001

  type Vector = v: seq<real> | |v| == SOMATIC_DIM witness seq(SOMATIC_DIM, _ => 0.0)
  type Magnitude = r: real | r >= 0.0

  datatype Relation = Contradictory | Complementary | Neutral

  datatype Template = Template(
    contradicts: seq<string>,
    complementary: seq<string>,
    vector: Vector,
    decayRate: Magnitude)

  datatype MotifRegistry = MotifRegistry(
    taxonomy: map<string, Template>,
    overrides: set<(string, string)>,
    norm: Vector -> Magnitude)

  function Dot(u: seq<real>, v: seq<real>): real
    requires |u| == |v|
  {
    if |u| == 0 then 0.0 else u[0] * v[0] + Dot(u[1..], v[1..])
  }

  /** What the dot product is divided by. */
  function Scale(norm: Vector -> Magnitude, u: Vector, v: Vector): (r: real)
    ensures r == norm(u) * norm(v) + EPSILON && r > 0.0
  {
    var product := norm(u) * norm(v);
    assert product >= 0.0;
    product + EPSILON
  }

  function Cosine(norm: Vector -> Magnitude, u: Vector, v: Vector): real {
    Dot(u, v) / Scale(norm, u, v)
  }

  /** Code-point order on strings, the order in which sorted() arranges ids. */
  predicate AtMost(a: string, b: string) {
    a == [] || (b != [] && (a[0] < b[0] || (a[0] == b[0] && AtMost(a[1..], b[1..]))))
  }

  function SortedPair(a: string, b: string): (string, string) {
    if AtMost(a, b) then (a, b) else (b, a)
  }

  /** Both ids joined in sorted order: one name per unordered pair. */
  function PairId(a: string, b: string): string {
    var pair := SortedPair(a, b);
    pair.0 + "\U{00D7}" + pair.1
  }

  function GetRelation(registry: MotifRegistry, a: string, b: string): Relation
    requires a in registry.taxonomy && b in registry.taxonomy
  {
    var ta, tb := registry.taxonomy[a], registry.taxonomy[b];
    if SortedPair(a, b) in registry.overrides then Complementary
    else if b in ta.contradicts || a in tb.contradicts then Contradictory
    else if b in ta.complementary || a in tb.complementary then Complementary
    else
      var cosine := Cosine(registry.norm, ta.vector, tb.vector);
      if cosine < CONTRADICTION_THRESHOLD then Contradictory
      else if cosine > 0.5 then Complementary
      else Neutral
  }

  lemma {:induction false} AtMostTotal(a: string, b: string)
    ensures AtMost(a, b) || AtMost(b, a)
    ensures AtMost(a, b) && AtMost(b, a) ==> a == b
  {
    if a != [] && b != [] && a[0] == b[0] {
      AtMostTotal(a[1..], b[1..]);
      assert a == [a[0]] + a[1..] && b == [b[0]] + b[1..];
    }
  }

  lemma {:induction false} DotSymmetric(u: seq<real>, v: seq<real>)
    requires |u| == |v|
    ensures Dot(u, v) == Dot(v, u)
  {
    if |u| > 0 {
      DotSymmetric(u[1..], v[1..]);
    }
  }

  lemma PairIdSymmetric(a: string, b: string)
    ensures SortedPair(a, b) == SortedPair(b, a) && PairId(a, b) == PairId(b, a)
  {
    AtMostTotal(a, b);
  }

  /** Sorting keeps the two ids and puts them in order. */
  lemma SortedPairExactly(a: string, b: string)
    ensures var pair := SortedPair(a, b);
            (pair == (a, b) || pair == (b, a)) && AtMost(pair.0, pair.1)
  {
    AtMostTotal(a, b);
  }

  /** The order is that of the first character in which two ids differ; a prefix comes first. */
  lemma {:induction false} AtMostExactly(common: string, a: string, b: string)
    ensures AtMost(common, common + b)
    ensures a != [] && b != [] && a[0] != b[0] ==> (AtMost(common + a, common + b) <==> a[0] < b[0])
    ensures a != [] ==> !AtMost(common + a, common)
  {
    if common == [] {
      assert common + a == a && common + b == b;
    } else {
      AtMostExactly(common[1..], a, b);
      assert (common + a)[1..] == common[1..] + a && (common + b)[1..] == common[1..] + b;
    }
  }

  lemma {:induction false} DotExactly(u: seq<real>, v: seq<real>, x: real, y: real)
    requires |u| == |v|
    ensures Dot([], []) == 0.0 && Dot(u + [x], v + [y]) == Dot(u, v) + x * y
  {
    if u == [] {
      assert (u + [x])[1..] == [] && (v + [y])[1..] == [];
    } else {
      DotExactly(u[1..], v[1..], x, y);
      assert (u + [x])[1..] == u[1..] + [x] && (v + [y])[1..] == v[1..] + [y];
    }
  }

  /** Cosines are compared with a bound by multiplying out the norms and epsilon. */
  lemma CosineExactly(norm: Vector -> Magnitude, u: Vector, v: Vector, bound: real)
    ensures Cosine(norm, u, v) * Scale(norm, u, v) == Dot(u, v)
    ensures Cosine(norm, u, v) < bound <==> Dot(u, v) < bound * Scale(norm, u, v)
    ensures Cosine(norm, u, v) > bound <==> Dot(u, v) > bound * Scale(norm, u, v)
  {
    hide Scale, Dot;
    Multiplied(Dot(u, v), Scale(norm, u, v), bound);
  }

  lemma Multiplied(dot: real, scale: real, bound: real)
    requires scale > 0.0
    ensures (dot / scale) * scale == dot
    ensures dot / scale < bound <==> dot < bound * scale
    ensures dot / scale > bound <==> dot > bound * scale
  {
    var q := dot / scale;
    assert q * scale == dot;
    assert (q - bound) * scale == dot - bound * scale;
    if q > bound {
      assert (q - bound) * scale > 0.0;
    } else if q < bound {
      assert (bound - q) * scale > 0.0;
      assert (bound - q) * scale == bound * scale - dot;
    }
  }

  ghost predicate Declared(names: seq<string>, others: seq<string>, a: string, b: string) {
    b in names || a in others
  }

  /**
   The relation, exactly: a sorted override makes it complementary; else a declared contradiction by
   either decides, else a declared complement by either, else the cosine: below -0.3 contradictory, above
   0.5 complementary, neutral in between.
   */
  lemma RelationExactly(registry: MotifRegistry, a: string, b: string)
    requires a in registry.taxonomy && b in registry.taxonomy
    ensures var (ta, tb) := (registry.taxonomy[a], registry.taxonomy[b]);
            var scale := Scale(registry.norm, ta.vector, tb.vector);
            var overridden := SortedPair(a, b) in registry.overrides;
            var against := Declared(ta.contradicts, tb.contradicts, a, b);
            var along := Declared(ta.complementary, tb.complementary, a, b);
            var relation := GetRelation(registry, a, b);
            && (relation == Contradictory
                <==> !overridden && (against || (!along && Dot(ta.vector, tb.vector) < -0.3 * scale)))
            && (relation == Complementary
                <==> overridden || (!against && (along || Dot(ta.vector, tb.vector) > 0.5 * scale)))
  {
    hide Cosine, Dot, SortedPair, Scale;
    var ta, tb := registry.taxonomy[a], registry.taxonomy[b];
    CosineExactly(registry.norm, ta.vector, tb.vector, -0.3);
    CosineExactly(registry.norm, ta.vector, tb.vector, 0.5);
  }

  /** The relation does not depend on the order in which two motifs are named. */
  lemma RelationSymmetric(registry: MotifRegistry, a: string, b: string)
    requires a in registry.taxonomy && b in registry.taxonomy
    ensures GetRelation(registry, a, b) == GetRelation(registry, b, a)
  {
    PairIdSymmetric(a, b);
    DotSymmetric(registry.taxonomy[a].vector, registry.taxonomy[b].vector);
    assert registry.norm(registry.taxonomy[a].vector) * registry.norm(registry.taxonomy[b].vector)
      == registry.norm(registry.taxonomy[b].vector) * registry.norm(registry.taxonomy[a].vector);
  }

  /**
   Declaring one more cultural override changes the relation of a pair exactly when the entry is
   that pair in sorted order and the pair was not complementary already; an entry written
   unsorted never has an effect.
   */
  lemma OverrideTakesEffect(registry: MotifRegistry, entry: (string, string), a: string, b: string)
    requires a in registry.taxonomy && b in registry.taxonomy
    ensures var extended := registry.(overrides := registry.overrides + {entry});
            GetRelation(extended, a, b) != GetRelation(registry, a, b)
            <==> entry == SortedPair(a, b) && GetRelation(registry, a, b) != Complementary
    ensures var extended := registry.(overrides := registry.overrides + {entry});
            !AtMost(entry.0, entry.1) ==> GetRelation(extended, a, b) == GetRelation(registry, a, b)
  {
    AtMostTotal(a, b);
  }

  /** The listed motifs, other than the given one, that contradict it, in the order listed. */
  function Contradictions(registry: MotifRegistry, names: seq<string>, id: string): (r: seq<string>)
    requires id in registry.taxonomy && forall name <- names :: name in registry.taxonomy
    ensures forall other :: other in r <==>
              other in names && other != id && GetRelation(registry, id, other) == Contradictory
  {
    if names == [] then []
    else
      var last := names[|names| - 1];
      assert names == names[..|names| - 1] + [last];
      Contradictions(registry, names[..|names| - 1], id)
      + if last != id && GetRelation(registry, id, last) == Contradictory then [last] else []
  }

  /** The scan of the whole taxonomy, in its iteration order. */
  method FindContradictions(registry: MotifRegistry, names: seq<string>, id: string)
    returns (result: seq<string>)
    requires forall name :: name in names <==> name in registry.taxonomy
    requires id in registry.taxonomy
    ensures result == Contradictions(registry, names, id)
    ensures forall other :: other in result <==>
              other in registry.taxonomy && other != id && GetRelation(registry, other, id) == Contradictory
  {
    result := [];
    for i := 0 to |names|
      invariant result == Contradictions(registry, names[..i], id)
    {
      assert names[..i + 1][..i] == names[..i];
      if names[i] != id && GetRelation(registry, id, names[i]) == Contradictory {
        result := result + [names[i]];
      }
    }
    assert names[..|names|] == names;
    forall other | other in registry.taxonomy
      ensures GetRelation(registry, other, id) == GetRelation(registry, id, other)
    {
      RelationSymmetric(registry, other, id);
    }
  }
}
