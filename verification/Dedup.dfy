/**
 Near-duplicate removal (rag/asi_vision_gate.py): a greedy pass that flags every later chunk too
 similar to an earlier unflagged one, and the two policies that turn the flags into removals.
 */
module Dedup {
  import opened Wrappers

  /** The chunks with the parameters of a pass; words gives the lower-cased word set of a chunk. */
  datatype Pass = Pass(chunks: seq<string>, words: string -> set<string>, threshold: real, minChars: int)

  /** A flagged chunk, the earlier chunk it repeats and their similarity. */
  datatype Duplicate = Duplicate(dup: nat, orig: nat, similarity: real)

  datatype LogEntry = LogEntry(removed: nat, kept: nat, similarity: real, reason: string)

  const MIN_CHUNK_CHARS := 50

  /** The size of the intersection over the size of the union. */
  function Jaccard(a: set<string>, b: set<string>): real
    requires a + b != {}
  {
    |a * b| as real / |a + b| as real
  }

  lemma JaccardSymmetric(a: set<string>, b: set<string>)
    requires a + b != {}
    ensures Jaccard(a, b) == Jaccard(b, a)
  {
    assert a * b == b * a && a + b == b + a;
  }

  // ----- Specification -----

  /** Short fragments are never compared. */
  predicate Eligible(p: Pass, i: nat)
    requires i < |p.chunks|
  {
    |p.words(p.chunks[i])| >= 3 && |p.chunks[i]| >= p.minChars
  }

  function Similarity(p: Pass, i: nat, j: nat): real
    requires i < |p.chunks| && j < |p.chunks|
  {
    var a, b := p.words(p.chunks[i]), p.words(p.chunks[j]);
    if a + b == {} then 0.0 else Jaccard(a, b)
  }

  predicate Near(p: Pass, i: nat, j: nat)
    requires i < |p.chunks| && j < |p.chunks|
  {
    Eligible(p, i) && Eligible(p, j) && Similarity(p, i, j) >= p.threshold
  }

  function Flagged(ds: seq<Duplicate>): set<nat> {
    set d | d in ds :: d.dup
  }

  /** The chunks below m that chunk i flags, given those flagged before. */
  function Row(p: Pass, i: nat, seen: set<nat>, m: nat): seq<Duplicate>
    requires i < |p.chunks| && m <= |p.chunks|
  {
    if m <= i + 1 then []
    else if m - 1 in seen || !Near(p, i, m - 1) then Row(p, i, seen, m - 1)
    else Row(p, i, seen, m - 1) + [Duplicate(m - 1, i, Similarity(p, i, m - 1))]
  }

  /** The duplicates found once the first n chunks have been compared with all later ones. */
  function Found(p: Pass, n: nat): seq<Duplicate>
    requires n <= |p.chunks|
  {
    if n == 0 then []
    else
      var before := Found(p, n - 1);
      if n - 1 in Flagged(before) || !Eligible(p, n - 1) then before
      else before + Row(p, n - 1, Flagged(before), |p.chunks|)
  }

  function Duplicates(p: Pass): seq<Duplicate> {
    Found(p, |p.chunks|)
  }

  /** With keep = "longest" a longer duplicate ousts its original; otherwise the duplicate goes. */
  function Verdict(p: Pass, keep: string, d: Duplicate): LogEntry
    requires d.dup < |p.chunks| && d.orig < |p.chunks|
  {
    if keep == "longest" && |p.chunks[d.dup]| > |p.chunks[d.orig]|
    then LogEntry(d.orig, d.dup, d.similarity, "shorter_duplicate")
    else LogEntry(d.dup, d.orig, d.similarity, "near_duplicate")
  }

  predicate Indexed(p: Pass, ds: seq<Duplicate>) {
    forall d :: d in ds ==> d.dup < |p.chunks| && d.orig < |p.chunks|
  }

  function RemovalLog(p: Pass, keep: string, ds: seq<Duplicate>): seq<LogEntry>
    requires Indexed(p, ds)
  {
    seq(|ds|, k requires 0 <= k < |ds| => Verdict(p, keep, ds[k]))
  }

  function Removed(log: seq<LogEntry>): set<nat> {
    set e | e in log :: e.removed
  }

  /** The indices below n that are not removed, in order. */
  function Survivors(removed: set<nat>, n: nat): seq<nat> {
    if n == 0 then [] else Survivors(removed, n - 1) + if n - 1 in removed then [] else [n - 1]
  }

  function Kept(chunks: seq<string>, removed: set<nat>, n: nat): seq<string>
    requires n <= |chunks|
  {
    if n == 0 then [] else Kept(chunks, removed, n - 1) + if n - 1 in removed then [] else [chunks[n - 1]]
  }

  lemma NearSymmetric(p: Pass, i: nat, j: nat)
    requires i < |p.chunks| && j < |p.chunks|
    ensures Near(p, i, j) == Near(p, j, i)
  {
    hide Jaccard;
    var a, b := p.words(p.chunks[i]), p.words(p.chunks[j]);
    assert a + b == b + a;
    if a + b != {} {
      JaccardSymmetric(a, b);
    }
  }

  lemma JaccardExactly(a: set<string>, b: set<string>, t: real)
    requires a + b != {}
    ensures Jaccard(a, b) * |a + b| as real == |a * b| as real
    ensures Jaccard(a, b) >= t <==> |a * b| as real >= t * |a + b| as real
  {
    QuotientAtLeast(|a * b| as real, |a + b| as real, t);
  }

  lemma QuotientAtLeast(n: real, d: real, t: real)
    requires d > 0.0
    ensures (n / d) * d == n && (n / d >= t <==> n >= t * d)
  {
    var q := n / d;
    assert q * d == n;
    assert q * d - t * d == (q - t) * d;
    if q >= t {
      assert (q - t) * d >= 0.0;
    } else {
      assert (t - q) * d > 0.0;
    }
  }

  /**
   Two chunks are near exactly when both have at least three words and enough characters, and the words
   they share are at least the threshold's part of all their words.
   */
  lemma NearExactly(p: Pass, i: nat, j: nat)
    requires i < |p.chunks| && j < |p.chunks|
    ensures var a, b := p.words(p.chunks[i]), p.words(p.chunks[j]);
            Near(p, i, j)
            <==> && |a| >= 3 && |b| >= 3 && |p.chunks[i]| >= p.minChars && |p.chunks[j]| >= p.minChars
                 && |a * b| as real >= p.threshold * |a + b| as real
  {
    hide Jaccard;
    var a, b := p.words(p.chunks[i]), p.words(p.chunks[j]);
    if |a| >= 3 {
      var w :| w in a;
      assert w in a + b;
      JaccardExactly(a, b, p.threshold);
    }
  }

  // ----- What a pass finds -----

  ghost predicate Sound(p: Pass, d: Duplicate) {
    && d.orig < d.dup < |p.chunks|
    && Near(p, d.orig, d.dup) && d.similarity == Similarity(p, d.orig, d.dup)
  }

  lemma {:induction false} RowExact(p: Pass, i: nat, seen: set<nat>, m: nat)
    requires i < |p.chunks| && m <= |p.chunks|
    ensures forall d :: d in Row(p, i, seen, m) ==> Sound(p, d) && d.orig == i && d.dup < m && d.dup !in seen
    ensures forall j: nat :: i < j < m && j !in seen && Near(p, i, j) ==> j in Flagged(Row(p, i, seen, m))
    ensures forall a, b :: 0 <= a < b < |Row(p, i, seen, m)| ==> Row(p, i, seen, m)[a].dup < Row(p, i, seen, m)[b].dup
  {
    hide Near, Similarity;
    if m > i + 1 {
      RowExact(p, i, seen, m - 1);
      var row := Row(p, i, seen, m - 1);
      assert forall d :: d in row ==> d in Row(p, i, seen, m);
      if m - 1 !in seen && Near(p, i, m - 1) {
        assert Row(p, i, seen, m)[|row|] == Duplicate(m - 1, i, Similarity(p, i, m - 1));
      }
    }
  }

  /** Each entry is a real near pair, no chunk is flagged twice and no original is itself flagged. */
  lemma {:induction false} FoundSound(p: Pass, n: nat)
    requires n <= |p.chunks|
    ensures forall d :: d in Found(p, n) ==> Sound(p, d) && d.orig < n && d.orig !in Flagged(Found(p, n))
    ensures forall a, b :: 0 <= a < b < |Found(p, n)| ==> Found(p, n)[a].dup != Found(p, n)[b].dup
  {
    hide Sound, Row, Eligible;
    if n > 0 {
      FoundSound(p, n - 1);
      RowExact(p, n - 1, Flagged(Found(p, n - 1)), |p.chunks|);
      var before, after := Found(p, n - 1), Found(p, n);
      forall d | d in after ensures Sound(p, d) && d.orig < n && d.orig !in Flagged(after) {
        SoundOrder(p, d);
        forall e | e in after ensures e.dup != d.orig {
          SoundOrder(p, e);
        }
      }
      forall a, b | 0 <= a < b < |after| ensures after[a].dup != after[b].dup {
        if a < |before| <= b {
          assert before[a] in before && after[b] == Row(p, n - 1, Flagged(before), |p.chunks|)[b - |before|];
        }
      }
    }
  }

  /** The entries are ordered by original, then by duplicate. */
  lemma {:induction false} FoundOrdered(p: Pass, n: nat)
    requires n <= |p.chunks|
    ensures forall a, b :: 0 <= a < b < |Found(p, n)| ==>
              || Found(p, n)[a].orig < Found(p, n)[b].orig
              || (Found(p, n)[a].orig == Found(p, n)[b].orig && Found(p, n)[a].dup < Found(p, n)[b].dup)
  {
    hide Row, Eligible, Sound;
    if n > 0 {
      FoundOrdered(p, n - 1);
      FoundSound(p, n - 1);
      var before, after := Found(p, n - 1), Found(p, n);
      var row := Row(p, n - 1, Flagged(before), |p.chunks|);
      RowExact(p, n - 1, Flagged(before), |p.chunks|);
      forall a, b | 0 <= a < b < |after|
        ensures after[a].orig < after[b].orig || (after[a].orig == after[b].orig && after[a].dup < after[b].dup)
      {
        if b >= |before| {
          assert after[b] == row[b - |before|] && after[b] in row;
          if a < |before| {
            assert after[a] == before[a] && after[a] in before;
          } else {
            assert after[a] == row[a - |before|] && after[a] in row;
          }
        }
      }
    }
  }

  /** A chunk is flagged by the first unflagged chunk before it that is near it. */
  lemma {:induction false} FirstNearFlags(p: Pass, n: nat, d: Duplicate, i: nat)
    requires n <= |p.chunks| && d in Found(p, n) && i < d.orig && i !in Flagged(Found(p, n))
    ensures i < d.dup < |p.chunks| && !Near(p, i, d.dup)
  {
    hide Row, Near, Sound;
    FoundSound(p, n);
    SoundOrder(p, d);
    var before := Found(p, n - 1);
    assert forall e :: e in before ==> e in Found(p, n);
    if d in before {
      FirstNearFlags(p, n - 1, d, i);
    } else {
      RowExact(p, n - 1, Flagged(before), |p.chunks|);
      assert d in Row(p, n - 1, Flagged(before), |p.chunks|);
      FoundSeparates(p, n - 1, i, d.dup);
    }
  }

  lemma SoundOrder(p: Pass, d: Duplicate)
    requires Sound(p, d)
    ensures d.orig < d.dup < |p.chunks|
  {}

  /** Compared chunks that stay unflagged are far from every later chunk that stays unflagged. */
  lemma {:induction false} FoundSeparates(p: Pass, n: nat, i: nat, j: nat)
    requires i < n <= |p.chunks| && i < j < |p.chunks|
    requires i !in Flagged(Found(p, n)) && j !in Flagged(Found(p, n))
    ensures !Near(p, i, j)
  {
    hide Row, Similarity;
    var before := Found(p, n - 1);
    assert forall d :: d in before ==> d in Found(p, n);
    if i < n - 1 {
      FoundSeparates(p, n - 1, i, j);
    } else if Eligible(p, i) {
      RowExact(p, i, Flagged(before), |p.chunks|);
      assert forall d :: d in Row(p, i, Flagged(before), |p.chunks|) ==> d in Found(p, n);
    }
  }

  ghost predicate Separated(p: Pass) {
    forall i: nat, j: nat :: i < j < |p.chunks| ==> !Near(p, i, j)
  }

  /** Nothing is flagged exactly when the chunks are already pairwise far apart. */
  lemma {:induction false} NothingFoundExactly(p: Pass)
    ensures Duplicates(p) == [] <==> Separated(p)
  {
    hide Near;
    FoundSound(p, |p.chunks|);
    HeadIn(Duplicates(p));
    if Duplicates(p) == [] {
      forall i: nat, j: nat | i < j < |p.chunks| ensures !Near(p, i, j) {
        FoundSeparates(p, |p.chunks|, i, j);
      }
    }
  }

  // ----- What survives -----

  lemma {:induction false} SurvivorsExact(chunks: seq<string>, removed: set<nat>, n: nat)
    requires n <= |chunks|
    ensures forall i: nat :: i in Survivors(removed, n) <==> i < n && i !in removed
    ensures forall a, b :: 0 <= a < b < |Survivors(removed, n)| ==> Survivors(removed, n)[a] < Survivors(removed, n)[b]
    ensures |Kept(chunks, removed, n)| == |Survivors(removed, n)|
    ensures forall k :: 0 <= k < |Survivors(removed, n)| ==>
              Survivors(removed, n)[k] < n && Kept(chunks, removed, n)[k] == chunks[Survivors(removed, n)[k]]
  {
    if n > 0 {
      SurvivorsExact(chunks, removed, n - 1);
      var was := Survivors(removed, n - 1);
      forall a, b | 0 <= a < b < |Survivors(removed, n)|
        ensures Survivors(removed, n)[a] < Survivors(removed, n)[b]
      {
        assert was[a] in was;
      }
    }
  }

  function KeepFirst(p: Pass): seq<string> {
    Kept(p.chunks, Flagged(Duplicates(p)), |p.chunks|)
  }

  /**
   Keeping the first of each group keeps, in order, a maximal far-apart selection: the survivors are
   pairwise far apart, and every chunk dropped has an earlier survivor near it.
   */
  lemma {:induction false} KeepFirstIsMaximalSeparated(p: Pass)
    ensures Separated(p.(chunks := KeepFirst(p)))
    ensures var flagged := Flagged(Duplicates(p));
            forall j: nat :: j < |p.chunks| && j in flagged ==>
              exists i: nat :: i < j && i !in flagged && Near(p, i, j)
  {
    hide Similarity, Eligible, Found;
    var flagged, n := Flagged(Duplicates(p)), |p.chunks|;
    FoundSound(p, n);
    SurvivorsExact(p.chunks, flagged, n);
    var at, q := Survivors(flagged, n), p.(chunks := KeepFirst(p));
    forall i: nat, j: nat | i < j < |q.chunks| ensures !Near(q, i, j) {
      assert at[i] in at && at[j] in at;
      FoundSeparates(p, n, at[i], at[j]);
      NearByContent(p, at[i], at[j], q, i, j);
    }
    forall j: nat | j < n && j in flagged ensures exists i: nat :: i < j && i !in flagged && Near(p, i, j) {
      var d :| d in Duplicates(p) && d.dup == j;
      assert Near(p, d.orig, j);
    }
  }

  lemma NearByContent(p: Pass, i: nat, j: nat, q: Pass, k: nat, l: nat)
    requires p.words == q.words && p.threshold == q.threshold && p.minChars == q.minChars
    requires i < |p.chunks| && j < |p.chunks| && k < |q.chunks| && l < |q.chunks|
    requires p.chunks[i] == q.chunks[k] && p.chunks[j] == q.chunks[l]
    ensures Near(p, i, j) == Near(q, k, l)
  {}

  /** A second pass over the chunks kept first finds nothing and keeps them all. */
  lemma {:induction false} SecondPassDropsNothing(p: Pass)
    ensures var q := p.(chunks := KeepFirst(p));
            Duplicates(q) == [] && KeepFirst(q) == q.chunks
  {
    hide Found, Separated;
    var q := p.(chunks := KeepFirst(p));
    KeepFirstIsMaximalSeparated(p);
    NothingFoundExactly(q);
    KeptAll(q.chunks, |q.chunks|);
    assert Flagged([]) == {};
  }

  lemma {:induction false} KeptAll(chunks: seq<string>, n: nat)
    requires n <= |chunks|
    ensures Kept(chunks, {}, n) == chunks[..n]
  {
    if n > 0 {
      KeptAll(chunks, n - 1);
    }
  }

  // ----- Keeping the longest -----

  function RemovedBy(p: Pass, keep: string): set<nat>
  {
    FoundIndexed(p);
    Removed(RemovalLog(p, keep, Duplicates(p)))
  }

  lemma FoundIndexed(p: Pass)
    ensures Indexed(p, Duplicates(p))
  {
    FoundSound(p, |p.chunks|);
  }

  lemma {:induction false} RemovedExact(p: Pass, keep: string, i: nat)
    ensures i in RemovedBy(p, keep) <==>
            exists d :: d in Duplicates(p) && Sound(p, d) && Verdict(p, keep, d).removed == i
  {
    hide Found, Verdict;
    FoundIndexed(p);
    FoundSound(p, |p.chunks|);
    var ds := Duplicates(p);
    var log := RemovalLog(p, keep, ds);
    if d :| d in ds && Sound(p, d) && Verdict(p, keep, d).removed == i {
      var k :| 0 <= k < |ds| && ds[k] == d;
      assert log[k] in log;
    }
    if e :| e in log && e.removed == i {
      var k :| 0 <= k < |log| && log[k] == e;
      assert ds[k] in ds;
    }
  }

  /** What the log says of each duplicate found, in order. */
  lemma LogExactly(p: Pass, keep: string, k: nat)
    requires k < |Duplicates(p)|
    ensures var d := Duplicates(p)[k];
            && d.orig < d.dup < |p.chunks| && Indexed(p, Duplicates(p))
            && var log := RemovalLog(p, keep, Duplicates(p));
            && |log| == |Duplicates(p)| && log[k].similarity == d.similarity == Similarity(p, d.orig, d.dup)
            && if keep == "longest" && |p.chunks[d.dup]| > |p.chunks[d.orig]|
               then log[k].removed == d.orig && log[k].kept == d.dup && log[k].reason == "shorter_duplicate"
               else log[k].removed == d.dup && log[k].kept == d.orig && log[k].reason == "near_duplicate"
  {
    hide Found, Eligible, Similarity;
    FoundIndexed(p);
    FoundSound(p, |p.chunks|);
    assert Duplicates(p)[k] in Duplicates(p);
  }

  /** Any other policy removes just the flagged chunks. */
  lemma {:induction false} FirstRemovesFlagged(p: Pass, keep: string)
    requires keep != "longest"
    ensures RemovedBy(p, keep) == Flagged(Duplicates(p))
  {
    hide Found, Similarity, Eligible;
    FoundSound(p, |p.chunks|);
    forall i: nat ensures i in RemovedBy(p, keep) <==> i in Flagged(Duplicates(p)) {
      RemovedExact(p, keep, i);
    }
  }

  /** The chunk and the original that flagged it, if any, or itself. */
  ghost predicate InGroup(p: Pass, orig: nat, i: nat) {
    i == orig || exists d :: d in Duplicates(p) && d.orig == orig && d.dup == i
  }

  /**
   Keeping the longest, within the group of an original: the original stays exactly when no duplicate of
   it is longer, and a duplicate stays exactly when it is longer than its original.
   */
  lemma {:induction false} LongestKeepsExactly(p: Pass, d: Duplicate)
    requires d in Duplicates(p)
    ensures d.orig < d.dup < |p.chunks|
    ensures d.dup !in RemovedBy(p, "longest") <==> |p.chunks[d.dup]| > |p.chunks[d.orig]|
    ensures d.orig !in RemovedBy(p, "longest")
            <==> forall e :: e in Duplicates(p) && e.orig == d.orig && e.dup < |p.chunks| ==>
                   |p.chunks[e.dup]| <= |p.chunks[d.orig]|
  {
    hide Found, Similarity, Eligible, RemovedBy;
    FoundSound(p, |p.chunks|);
    RemovedExact(p, "longest", d.dup);
    RemovedExact(p, "longest", d.orig);
    FlaggedOnce(p, d);
  }

  lemma {:induction false} FlaggedOnce(p: Pass, d: Duplicate)
    requires d in Duplicates(p)
    ensures forall e :: e in Duplicates(p) && e.dup == d.dup ==> e == d
    ensures forall e :: e in Duplicates(p) ==> e.orig != d.dup && e.dup != d.orig
  {
    hide Found, Sound;
    FoundSound(p, |p.chunks|);
  }

  /** Keeping the longest always leaves a longest member of the group of every original. */
  lemma {:induction false} LongestSurvives(p: Pass, d: Duplicate) returns (best: nat)
    requires d in Duplicates(p)
    ensures best < |p.chunks| && InGroup(p, d.orig, best) && best !in RemovedBy(p, "longest")
    ensures forall i: nat :: i < |p.chunks| && InGroup(p, d.orig, i) ==> |p.chunks[i]| <= |p.chunks[best]|
  {
    hide Found, RemovedBy;
    LongestKeepsExactly(p, d);
    FoundIndexed(p);
    best := LongestIn(p, d.orig, Duplicates(p));
    if best != d.orig {
      var e :| e in Duplicates(p) && e.orig == d.orig && e.dup == best;
      LongestKeepsExactly(p, e);
    }
  }

  /** The original, or a duplicate of it longer than the original, of greatest length among some entries. */
  lemma {:induction false} LongestIn(p: Pass, orig: nat, ds: seq<Duplicate>) returns (best: nat)
    requires orig < |p.chunks| && Indexed(p, ds)
    ensures best < |p.chunks|
    ensures best == orig ||
            (|p.chunks[best]| > |p.chunks[orig]| && exists d :: d in ds && d.orig == orig && d.dup == best)
    ensures |p.chunks[best]| >= |p.chunks[orig]|
    ensures forall d :: d in ds && d.orig == orig ==> |p.chunks[d.dup]| <= |p.chunks[best]|
  {
    if ds == [] {
      best := orig;
    } else {
      var front, last := ds[..|ds| - 1], ds[|ds| - 1];
      assert ds == front + [last];
      best := LongestIn(p, orig, front);
      if last.orig == orig && |p.chunks[last.dup]| > |p.chunks[best]| {
        best := last.dup;
      }
    }
  }

  function KeepLongest(p: Pass): seq<string> {
    Kept(p.chunks, RemovedBy(p, "longest"), |p.chunks|)
  }

  /** A duplicate longer than its original. */
  predicate Grown(p: Pass, d: Duplicate) {
    d.dup < |p.chunks| && d.orig < |p.chunks| && |p.chunks[d.dup]| > |p.chunks[d.orig]|
  }

  /** Keeping the longest removes what keeping the first does exactly when no duplicate is longer than its original. */
  lemma {:induction false} LongestIsFirstExactly(p: Pass)
    ensures RemovedBy(p, "longest") == Flagged(Duplicates(p))
        <==> forall d :: d in Duplicates(p) ==> !Grown(p, d)
  {
    hide Found, Eligible, Similarity, RemovedBy;
    FoundSound(p, |p.chunks|);
    forall d | d in Duplicates(p)
      ensures d.dup in RemovedBy(p, "longest") <==> |p.chunks[d.dup]| <= |p.chunks[d.orig]|
    {
      LongestKeepsExactly(p, d);
    }
    if forall d :: d in Duplicates(p) ==> !Grown(p, d) {
      forall i: nat ensures i in RemovedBy(p, "longest") <==> i in Flagged(Duplicates(p)) {
        RemovedExact(p, "longest", i);
      }
    } else {
      var d :| d in Duplicates(p) && Grown(p, d);
      assert d.dup in Flagged(Duplicates(p));
    }
  }

  /** A guard on the chunks alone: when none is longer than an earlier one near it, the result is far apart. */
  lemma {:induction false} LongestSafeWhenNoneGrows(p: Pass)
    requires forall i: nat, j: nat :: i < j < |p.chunks| && Near(p, i, j) ==> |p.chunks[j]| <= |p.chunks[i]|
    ensures RemovedBy(p, "longest") == Flagged(Duplicates(p)) && KeepLongest(p) == KeepFirst(p)
    ensures Separated(p.(chunks := KeepLongest(p)))
  {
    hide Found, Near, RemovedBy;
    FoundSound(p, |p.chunks|);
    LongestIsFirstExactly(p);
    KeepFirstIsMaximalSeparated(p);
  }

  predicate Survives(p: Pass, i: nat) {
    i < |p.chunks| && i !in RemovedBy(p, "longest")
  }

  /** No duplicate longer than its original is near another chunk that stays. */
  ghost predicate GrownAreFar(p: Pass) {
    forall d, k: nat ::
      d in Duplicates(p) && Grown(p, d) && Survives(p, k) && k != d.dup ==> !Near(p, d.dup, k)
  }

  /**
   Exactly when keeping the longest leaves far-apart chunks: when no duplicate longer than its original
   is near another chunk that stays.
   */
  lemma {:induction false} LongestSeparatedExactly(p: Pass)
    ensures Separated(p.(chunks := KeepLongest(p)))
        <==> GrownAreFar(p)
  {
    hide Found, Near, RemovedBy;
    SurvivorsApart(p);
    if GrownAreFar(p) {
      forall i: nat, j: nat | i < j && Survives(p, i) && Survives(p, j) ensures !Near(p, i, j) {
        NearSymmetric(p, i, j);
        if i in Flagged(Duplicates(p)) {
          FlaggedSurvivor(p, i, j);
        } else if j in Flagged(Duplicates(p)) {
          FlaggedSurvivor(p, j, i);
        } else {
          FoundSeparates(p, |p.chunks|, i, j);
        }
      }
    } else {
      var d, k: nat :| d in Duplicates(p) && Grown(p, d) && Survives(p, k) && k != d.dup && Near(p, d.dup, k);
      LongestKeepsExactly(p, d);
      NearSymmetric(p, d.dup, k);
      assert Survives(p, d.dup);
    }
  }

  /** A flagged chunk that stays is longer than its original. */
  lemma {:induction false} FlaggedSurvivor(p: Pass, i: nat, j: nat)
    requires Survives(p, i) && Survives(p, j) && i != j && i in Flagged(Duplicates(p))
    ensures exists d :: d in Duplicates(p) && d.dup == i && Grown(p, d)
  {
    hide Found, RemovedBy;
    var d :| d in Duplicates(p) && d.dup == i;
    LongestKeepsExactly(p, d);
  }

  /** The kept list is far apart exactly when the surviving indices are. */
  lemma {:induction false} SurvivorsApart(p: Pass)
    ensures Separated(p.(chunks := KeepLongest(p)))
        <==> forall i: nat, j: nat :: i < j && Survives(p, i) && Survives(p, j) ==> !Near(p, i, j)
  {
    hide Near, RemovedBy;
    var removed, n := RemovedBy(p, "longest"), |p.chunks|;
    SurvivorsExact(p.chunks, removed, n);
    var at, q := Survivors(removed, n), p.(chunks := KeepLongest(p));
    forall k: nat, l: nat | k < l < |at| ensures Near(q, k, l) == Near(p, at[k], at[l]) {
      NearByContent(p, at[k], at[l], q, k, l);
    }
    if Separated(q) {
      forall i: nat, j: nat | i < j && Survives(p, i) && Survives(p, j) ensures !Near(p, i, j) {
        assert i in at && j in at;
        var k: nat :| k < |at| && at[k] == i;
        var l: nat :| l < |at| && at[l] == j;
        assert k < l;
        assert !Near(q, k, l);
      }
    } else {
      var k: nat, l: nat :| k < l < |q.chunks| && Near(q, k, l);
      assert at[k] in at && at[l] in at;
      assert Survives(p, at[k]) && Survives(p, at[l]);
    }
  }

  /**
   But it does not always leave a far-apart selection: of three chunks with the same words, each longer
   than the one before, only the first goes, and the two that stay are near each other.
   */
  lemma {:induction false} LongestNotSeparated(a: string, b: string, c: string, words: string -> set<string>,
                                               threshold: real)
    requires words(a) == words(b) == words(c) && |words(a)| >= 3
    requires MIN_CHUNK_CHARS <= |a| < |b| < |c| && threshold <= 1.0
    ensures var p := Pass([a, b, c], words, threshold, MIN_CHUNK_CHARS);
            && RemovedBy(p, "longest") == {0}
            && Near(p, 1, 2)
  {
    var p := Pass([a, b, c], words, threshold, MIN_CHUNK_CHARS);
    hide RemovedBy, Row, Found, Jaccard;
    AllNear(p);
    AllFlaggedByFirst(p);
    assert 1 in Flagged(Duplicates(p)) && 2 in Flagged(Duplicates(p));
    var d1 :| d1 in Duplicates(p) && d1.dup == 1;
    var d2 :| d2 in Duplicates(p) && d2.dup == 2;
    LongestKeepsExactly(p, d1);
    LongestKeepsExactly(p, d2);
    forall i: nat ensures i in RemovedBy(p, "longest") ==> i < 3 {
      RemovedExact(p, "longest", i);
    }
    assert d1.orig == 0;
  }

  lemma {:induction false} AllNear(p: Pass)
    requires |p.chunks| > 0 && |p.words(p.chunks[0])| >= 3 && p.threshold <= 1.0
    requires forall i: nat :: i < |p.chunks| ==>
               p.words(p.chunks[i]) == p.words(p.chunks[0]) && |p.chunks[i]| >= p.minChars
    ensures forall i: nat, j: nat :: i < |p.chunks| && j < |p.chunks| ==> Near(p, i, j)
  {
    var w := p.words(p.chunks[0]);
    assert w * w == w && w + w == w;
    assert Jaccard(w, w) == 1.0;
  }

  /** When everything is near everything, the first chunk flags all the others. */
  lemma {:induction false} AllFlaggedByFirst(p: Pass)
    requires |p.chunks| > 0
    requires forall i: nat, j: nat :: i < |p.chunks| && j < |p.chunks| ==> Near(p, i, j)
    ensures forall j: nat :: 0 < j < |p.chunks| ==> j in Flagged(Duplicates(p))
  {
    hide Found, Row;
    forall j: nat | 0 < j < |p.chunks| ensures j in Flagged(Duplicates(p)) {
      hide Near;
      if 0 in Flagged(Duplicates(p)) {
        NoneBelowFirst(p);
      }
      if j !in Flagged(Duplicates(p)) {
        FoundSeparates(p, |p.chunks|, 0, j);
      }
    }
  }

  lemma {:induction false} NoneBelowFirst(p: Pass)
    ensures 0 !in Flagged(Duplicates(p))
  {
    hide Found, Near;
    FoundSound(p, |p.chunks|);
  }

  lemma {:induction false} FlaggedAppend(ds: seq<Duplicate>, d: Duplicate)
    ensures Flagged(ds + [d]) == Flagged(ds) + {d.dup}
  {}

  // ----- The gate's methods -----

  lemma FlaggedNone()
    ensures Flagged([]) == {}
  {}

  lemma RowStart(p: Pass, i: nat, seen: set<nat>)
    requires i < |p.chunks|
    ensures Row(p, i, seen, i + 1) == []
  {}

  lemma RowNext(p: Pass, i: nat, seen: set<nat>, j: nat)
    requires i < j < |p.chunks|
    ensures Row(p, i, seen, j + 1) == if j in seen || !Near(p, i, j) then Row(p, i, seen, j)
                                      else Row(p, i, seen, j) + [Duplicate(j, i, Similarity(p, i, j))]
  {}

  method DetectDuplicates(p: Pass) returns (results: seq<Duplicate>)
    ensures results == Duplicates(p)
  {
    hide Row, Flagged, Jaccard;
    FlaggedNone();
    if |p.chunks| <= 1 {
      if |p.chunks| == 1 {
        RowStart(p, 0, {});
        assert Found(p, 0) == [] && Found(p, 1) == [];
      }
      return [];
    }
    results := [];
    var seen: set<nat> := {};
    for i := 0 to |p.chunks|
      invariant results == Found(p, i)
      invariant seen == Flagged(results)
    {
      if i in seen {
        continue;
      }
      var wordsI := p.words(p.chunks[i]);
      if |wordsI| < 3 || |p.chunks[i]| < p.minChars {
        continue;
      }
      ghost var before, was := results, seen;
      RowStart(p, i, was);
      for j := i + 1 to |p.chunks|
        invariant results == before + Row(p, i, was, j)
        invariant seen == Flagged(results)
        invariant forall k: nat :: j <= k ==> (k in seen <==> k in was)
      {
        RowNext(p, i, was, j);
        if j in seen {
          continue;
        }
        var wordsJ := p.words(p.chunks[j]);
        if |wordsJ| < 3 || |p.chunks[j]| < p.minChars {
          continue;
        }
        var union := wordsI + wordsJ;
        if union == {} {
          continue;
        }
        var similarity := Jaccard(wordsI, wordsJ);
        if similarity >= p.threshold {
          FlaggedAppend(results, Duplicate(j, i, similarity));
          results := results + [Duplicate(j, i, similarity)];
          seen := seen + {j};
        }
      }
    }
  }

  method DeduplicateChunks(chunks: seq<string>, words: string -> set<string>, threshold: real, keep: string)
      returns (kept: seq<string>, log: seq<LogEntry>)
    ensures var p := Pass(chunks, words, threshold, MIN_CHUNK_CHARS);
            && kept == Kept(chunks, RemovedBy(p, keep), |chunks|)
            && Indexed(p, Duplicates(p)) && log == RemovalLog(p, keep, Duplicates(p))
            && (keep != "longest" ==> kept == KeepFirst(p))
  {
    var p := Pass(chunks, words, threshold, MIN_CHUNK_CHARS);
    var duplicates := DetectDuplicates(p);
    FoundIndexed(p);
    log := [];
    var toRemove: set<nat> := {};
    for k := 0 to |duplicates|
      invariant log == RemovalLog(p, keep, duplicates)[..k]
      invariant toRemove == Removed(log)
    {
      var d := duplicates[k];
      assert d in duplicates;
      var entry;
      if keep == "longest" {
        if |chunks[d.dup]| > |chunks[d.orig]| {
          entry := LogEntry(d.orig, d.dup, d.similarity, "shorter_duplicate");
        } else {
          entry := LogEntry(d.dup, d.orig, d.similarity, "near_duplicate");
        }
      } else {
        entry := LogEntry(d.dup, d.orig, d.similarity, "near_duplicate");
      }
      toRemove := toRemove + {entry.removed};
      log := log + [entry];
    }
    assert log == RemovalLog(p, keep, duplicates);
    kept := [];
    for i := 0 to |chunks|
      invariant kept == Kept(chunks, toRemove, i)
    {
      if i !in toRemove {
        kept := kept + [chunks[i]];
      }
    }
    if keep != "longest" {
      FirstRemovesFlagged(p, keep);
    }
  }
}
