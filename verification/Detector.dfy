/** Architecture-mismatch detection over a module graph: copied layouts by Jaccard similarity,
    premature splits, and dependencies across tiers. */
module Detector {
  import opened Text

  datatype RuleType = PrematureSplit | CopiedLayout | CrossBoundary | Unknown

  datatype Module = Module(name: string, resourceTypes: seq<string>, tier: string, dependsOn: seq<string>)

  datatype Rule = Rule(id: string, typ: RuleType, threshold: real, severity: string, enabled: bool,
                       allowedTierEdges: seq<string>)

  datatype Finding = Finding(ruleId: string, typ: RuleType, modul: string, related: string, severity: string)

  // ----- similarity -----

  function Trimmed(xs: seq<string>): set<string> {
    set i | 0 <= i < |xs| :: TrimSpace(xs[i])
  }

  /** toSet, and the map filled by distinctCount. */
  method ToSet(xs: seq<string>) returns (m: set<string>)
    ensures m == Trimmed(xs)
  {
    m := {};
    for i := 0 to |xs|
      invariant m == set k | 0 <= k < i :: TrimSpace(xs[k])
    {
      m := m + {TrimSpace(xs[i])};
    }
  }

  method DistinctCount(xs: seq<string>) returns (n: nat)
    ensures n == |Trimmed(xs)|
  {
    var seen := ToSet(xs);
    n := |seen|;
  }

  /** |a ∩ b| / |a ∪ b|, and 1 for two empty sets. */
  function Jaccard(a: set<string>, b: set<string>): real {
    if a == {} && b == {} then 1.0
    else
      assert a + b != {};
      |a * b| as real / |a + b| as real
  }

  method JaccardSimilarity(a: seq<string>, b: seq<string>) returns (sim: real)
    ensures sim == Jaccard(Trimmed(a), Trimmed(b))
  {
    var setA := ToSet(a);
    var setB := ToSet(b);
    if |setA| == 0 && |setB| == 0 {
      return 1.0;
    }
    var intersection := CountCommon(setA, setB);
    var union := |setA| + |setB| - intersection;
    assert union == |setA + setB|;
    assert setA + setB != {};
    sim := intersection as real / union as real;
  }

  /** The loop over the keys of one map, in whatever order. */
  method CountCommon(setA: set<string>, setB: set<string>) returns (intersection: nat)
    ensures intersection == |setA * setB|
  {
    intersection := 0;
    var todo := setA;
    while todo != {}
      invariant todo <= setA
      invariant intersection == |(setA - todo) * setB|
      decreases |todo|
    {
      var k :| k in todo;
      CountOne(setA - todo, setB, k);
      assert setA - (todo - {k}) == (setA - todo) + {k};
      if k in setB {
        intersection := intersection + 1;
      }
      todo := todo - {k};
    }
    assert setA - todo == setA;
  }

  lemma {:induction false} CountOne(done: set<string>, b: set<string>, k: string)
    requires k !in done
    ensures |(done + {k}) * b| == |done * b| + if k in b then 1 else 0
  {
    assert (done + {k}) * b == done * b + if k in b then {k} else {};
  }

  // ----- fractions -----

  lemma {:induction false} PositiveProduct(x: real, y: real)
    requires x > 0.0 && y > 0.0
    ensures x * y > 0.0
  {
  }

  lemma {:induction false} MulCancel(q: real, r: real, k: real)
    requires k > 0.0 && q * k <= r * k
    ensures q <= r
  {
    if q > r {
      PositiveProduct(q - r, k);
    }
  }

  lemma {:induction false} DivIs(x: real, n: real, q: real)
    requires n != 0.0 && x == q * n
    ensures x / n == q
  {
  }

  lemma {:induction false} AddDiv(x: real, y: real, n: real)
    requires n != 0.0
    ensures (x + y) / n == x / n + y / n
  {
    var q, r := x / n, y / n;
    assert (q + r) * n == q * n + r * n;
    DivIs(x + y, n, q + r);
  }

  lemma {:induction false} CrossMultiply(a: real, b: real, c: real, d: real)
    requires b > 0.0 && d > 0.0 && a * d <= c * b
    ensures a / b <= c / d
  {
    var q, r := a / b, c / d;
    PositiveProduct(b, d);
    assert a * d == q * b * d == q * (b * d);
    assert c * b == r * d * b == r * (b * d);
    MulCancel(q, r, b * d);
  }

  lemma {:induction false} DivMono(x: real, y: real, n: real)
    requires x <= y && n > 0.0
    ensures x / n <= y / n
  {
    assert (y - x) * n >= 0.0;
    CrossMultiply(x, n, y, n);
  }

  /** Enlarging numerator and denominator of a fraction below one enlarges it. */
  lemma {:induction false} FractionGrows(x: real, y: real, p: real)
    requires 0.0 <= x <= y && y > 0.0 && p >= 0.0
    ensures x / y <= (x + p) / (y + p)
  {
    assert (y - x) * p >= 0.0;
    CrossMultiply(x, y, x + p, y + p);
  }

  lemma {:induction false} SmallerDenominator(x: real, y: real, z: real)
    requires x >= 0.0 && 0.0 < y <= z
    ensures x / z <= x / y
  {
    assert x * (z - y) >= 0.0;
    CrossMultiply(x, z, x, y);
  }

  lemma {:induction false} DivBounds(x: real, y: real)
    requires 0.0 <= x <= y && y > 0.0
    ensures 0.0 <= x / y <= 1.0 && (x / y == 1.0 <==> x == y)
  {
    DivMono(0.0, x, y);
    DivMono(x, y, y);
    assert x / y * y == x;
  }

  lemma {:induction false} SubsetSize<T>(a: set<T>, b: set<T>)
    requires a <= b
    ensures |a| <= |b| && (|a| == |b| ==> a == b)
  {
    assert b == a + (b - a);
    if |a| == |b| {
      assert |b - a| == 0;
    }
  }

  /** A similarity: between 0 and 1, symmetric, and 1 exactly for equal sets. */
  lemma {:induction false} JaccardIsSimilarity(a: set<string>, b: set<string>)
    ensures 0.0 <= Jaccard(a, b) <= 1.0
    ensures Jaccard(a, b) == Jaccard(b, a)
    ensures Jaccard(a, b) == 1.0 <==> a == b
  {
    assert a * b == b * a && a + b == b + a;
    if a != {} || b != {} {
      assert a + b != {};
      SubsetSize(a * b, a + b);
      DivBounds(|a * b| as real, |a + b| as real);
      if a * b == a + b {
        assert a == b;
      }
      if a == b {
        assert a * b == a && a + b == a;
      }
    }
  }

  /** The similarity times the size of the union is the size of the intersection. */
  lemma {:induction false} JaccardCounts(a: set<string>, b: set<string>)
    ensures Jaccard(a, b) * |a + b| as real == if a + b == {} then 0.0 else |a * b| as real
    ensures a + b == {} ==> Jaccard(a, b) == 1.0
  {
  }

  /** The Jaccard distance, as a fraction of the sets' symmetric difference. */
  lemma {:induction false} DistanceForm(a: set<string>, b: set<string>)
    requires a + b != {}
    ensures 1.0 - Jaccard(a, b) == |(a - b) + (b - a)| as real / |a + b| as real
  {
    assert a + b == a * b + ((a - b) + (b - a));
    AddDiv(|a * b| as real, |(a - b) + (b - a)| as real, |a + b| as real);
    DivIs(|a + b| as real, |a + b| as real, 1.0);
  }

  /** Symmetric difference. */
  function Diff(a: set<string>, b: set<string>): set<string> {
    (a - b) + (b - a)
  }

  /** What lies only in b counts in both differences through b. */
  lemma {:induction false} DifferencesCover(a: set<string>, b: set<string>, c: set<string>)
    ensures |Diff(a, c)| + |b - (a + c)| <= |Diff(a, b)| + |Diff(b, c)|
  {
    var only := b - (a + c);
    var left, right := Diff(a, b), Diff(b, c);
    assert Diff(a, c) + only <= left + right;
    assert only <= left * right;
    SubsetSize(Diff(a, c) + only, left + right);
    SubsetSize(only, left * right);
    assert Diff(a, c) !! only;
    assert |left + right| + |left * right| == |left| + |right|;
  }

  /** Similarity is transitive up to one: the Jaccard distance is a metric. */
  lemma {:induction false} JaccardTriangle(a: set<string>, b: set<string>, c: set<string>)
    ensures Jaccard(a, c) >= Jaccard(a, b) + Jaccard(b, c) - 1.0
  {
    JaccardIsSimilarity(a, b);
    JaccardIsSimilarity(b, c);
    if a + c != {} && a + b != {} && b + c != {} {
      TriangleOfSets(a, b, c);
    } else if a + c == {} {
      assert a == {} && c == {};
    } else if a + b == {} {
      assert a == b;
    } else {
      assert b == c;
    }
  }

  lemma {:induction false} TriangleOfSets(a: set<string>, b: set<string>, c: set<string>)
    requires a + c != {} && a + b != {} && b + c != {}
    ensures Jaccard(a, c) >= Jaccard(a, b) + Jaccard(b, c) - 1.0
  {
    hide Jaccard;
    var all := a + b + c;
    var p := |b - (a + c)|;
    assert all == (a + c) + (b - (a + c));
    assert |all| == |a + c| + p;
    DistanceForm(a, c);
    DistanceForm(a, b);
    DistanceForm(b, c);
    SubsetSize(Diff(a, c), a + c);
    SubsetSize(a + b, all);
    SubsetSize(b + c, all);
    DifferencesCover(a, b, c);
    TriangleOfSizes(|Diff(a, c)|, |a + c|, p, |Diff(a, b)|, |a + b|, |Diff(b, c)|, |b + c|, |all|);
  }

  lemma {:induction false} TriangleOfSizes(ac: nat, uac: nat, p: nat, ab: nat, uab: nat, bc: nat, ubc: nat, all: nat)
    requires uac > 0 && uab > 0 && ubc > 0
    requires ac <= uac && all == uac + p && uab <= all && ubc <= all && ac + p <= ab + bc
    ensures ac as real / uac as real <= ab as real / uab as real + bc as real / ubc as real
  {
    var n := all as real;
    FractionGrows(ac as real, uac as real, p as real);
    SmallerDenominator(ab as real, uab as real, n);
    SmallerDenominator(bc as real, ubc as real, n);
    DivMono((ac + p) as real, (ab + bc) as real, n);
    AddDiv(ab as real, bc as real, n);
  }

  // ----- copied layouts -----

  predicate Flagged(t: real, ms: seq<Module>, i: nat, j: nat)
    requires i < |ms| && j < |ms|
  {
    Jaccard(Trimmed(ms[i].resourceTypes), Trimmed(ms[j].resourceTypes)) >= t
  }

  /** Two flagged pairs that share a module bound the similarity of the third pair. */
  lemma {:induction false} FlaggedPairsBound(t: real, ms: seq<Module>, i: nat, j: nat, k: nat)
    requires i < |ms| && j < |ms| && k < |ms| && Flagged(t, ms, i, j) && Flagged(t, ms, j, k)
    ensures Flagged(2.0 * t - 1.0, ms, i, k)
  {
    JaccardTriangle(Trimmed(ms[i].resourceTypes), Trimmed(ms[j].resourceTypes), Trimmed(ms[k].resourceTypes));
  }

  datatype Pair = Pair(i: nat, j: nat)

  /** Which pairs of modules are at or above the threshold. */
  function Flags(t: real, ms: seq<Module>): Pair -> bool {
    (p: Pair) => p.i < |ms| && p.j < |ms| && Flagged(t, ms, p.i, p.j)
  }

  /** The flagged pairs (i, j) with i < j < bound. */
  function RowPairs(flags: Pair -> bool, i: nat, bound: nat): seq<Pair> {
    if bound <= i + 1 then []
    else RowPairs(flags, i, bound - 1) + if flags(Pair(i, bound - 1)) then [Pair(i, bound - 1)] else []
  }

  /** The flagged pairs of m modules whose first is among the first n. */
  function Pairs(flags: Pair -> bool, n: nat, m: nat): seq<Pair> {
    if n == 0 then [] else Pairs(flags, n - 1, m) + RowPairs(flags, n - 1, m)
  }

  function CopiedFinding(r: Rule, ms: seq<Module>, p: Pair): Finding {
    if p.i < |ms| && p.j < |ms| then Finding(r.id, r.typ, ms[p.i].name, ms[p.j].name, r.severity)
    else Finding(r.id, r.typ, "", "", r.severity)
  }

  function CopiedFindings(r: Rule, ms: seq<Module>, ps: seq<Pair>): seq<Finding> {
    seq(|ps|, k requires 0 <= k < |ps| => CopiedFinding(r, ms, ps[k]))
  }

  method EvalCopiedLayout(r: Rule, ms: seq<Module>) returns (findings: seq<Finding>)
    ensures findings == CopiedFindings(r, ms, Pairs(Flags(r.threshold, ms), |ms|, |ms|))
  {
    findings := [];
    ghost var flags := Flags(r.threshold, ms);
    for i := 0 to |ms|
      invariant findings == CopiedFindings(r, ms, Pairs(flags, i, |ms|))
    {
      var more := EvalRow(r, ms, i);
      CopiedConcat(r, ms, Pairs(flags, i, |ms|), RowPairs(flags, i, |ms|));
      findings := findings + more;
    }
  }

  /** The findings of one module against the later ones up to a bound, and of one pair. */
  function RowFindings(r: Rule, ms: seq<Module>, i: nat, bound: nat): seq<Finding> {
    CopiedFindings(r, ms, RowPairs(Flags(r.threshold, ms), i, bound))
  }

  function PairFindings(r: Rule, ms: seq<Module>, p: Pair): seq<Finding> {
    if Flags(r.threshold, ms)(p) then [CopiedFinding(r, ms, p)] else []
  }

  /** The inner loop, comparing one module with the later ones. */
  method EvalRow(r: Rule, ms: seq<Module>, i: nat) returns (findings: seq<Finding>)
    requires i < |ms|
    ensures findings == RowFindings(r, ms, i, |ms|)
  {
    hide RowFindings, PairFindings;
    RowStart(r, ms, i);
    findings := [];
    for j := i + 1 to |ms|
      invariant findings == RowFindings(r, ms, i, j)
    {
      RowStep(r, ms, i, j);
      var found := Compare(r, ms, i, j);
      findings := findings + found;
    }
  }

  lemma {:induction false} RowStart(r: Rule, ms: seq<Module>, i: nat)
    ensures RowFindings(r, ms, i, i + 1) == []
  {
  }

  lemma {:induction false} RowStep(r: Rule, ms: seq<Module>, i: nat, j: nat)
    requires i < j < |ms|
    ensures RowFindings(r, ms, i, j + 1) == RowFindings(r, ms, i, j) + PairFindings(r, ms, Pair(i, j))
  {
    var flags := Flags(r.threshold, ms);
    CopiedConcat(r, ms, RowPairs(flags, i, j), if flags(Pair(i, j)) then [Pair(i, j)] else []);
  }

  /** The body of the loop: the finding of one pair, if it is flagged. */
  method Compare(r: Rule, ms: seq<Module>, i: nat, j: nat) returns (found: seq<Finding>)
    requires i < |ms| && j < |ms|
    ensures found == PairFindings(r, ms, Pair(i, j))
  {
    var sim := JaccardSimilarity(ms[i].resourceTypes, ms[j].resourceTypes);
    found := [];
    if sim >= r.threshold {
      found := [Finding(r.id, r.typ, ms[i].name, ms[j].name, r.severity)];
    }
  }

  lemma {:induction false} CopiedConcat(r: Rule, ms: seq<Module>, ps: seq<Pair>, qs: seq<Pair>)
    ensures CopiedFindings(r, ms, ps + qs) == CopiedFindings(r, ms, ps) + CopiedFindings(r, ms, qs)
  {
  }

  predicate InOrder(p: Pair, q: Pair) {
    p.i < q.i || (p.i == q.i && p.j < q.j)
  }

  lemma {:induction false} RowPairsMembers(flags: Pair -> bool, i: nat, bound: nat, p: Pair)
    ensures p in RowPairs(flags, i, bound) <==> p.i == i && i < p.j < bound && flags(p)
  {
    if bound > i + 1 {
      RowPairsMembers(flags, i, bound - 1, p);
    }
  }

  predicate Ascending(ps: seq<Pair>) {
    forall a, b :: 0 <= a < b < |ps| ==> InOrder(ps[a], ps[b])
  }

  lemma {:induction false} AscendingConcat(ps: seq<Pair>, qs: seq<Pair>)
    requires Ascending(ps) && Ascending(qs)
    requires forall a, b :: 0 <= a < |ps| && 0 <= b < |qs| ==> InOrder(ps[a], qs[b])
    ensures Ascending(ps + qs)
  {
  }

  lemma {:induction false} RowPairsAscending(flags: Pair -> bool, i: nat, bound: nat)
    ensures Ascending(RowPairs(flags, i, bound))
  {
    if bound > i + 1 {
      var init := RowPairs(flags, i, bound - 1);
      RowPairsAscending(flags, i, bound - 1);
      forall a | 0 <= a < |init| ensures init[a].i == i && init[a].j < bound - 1 {
        RowPairsMembers(flags, i, bound - 1, init[a]);
      }
      AscendingConcat(init, if flags(Pair(i, bound - 1)) then [Pair(i, bound - 1)] else []);
    }
  }

  lemma {:induction false} InConcat(p: Pair, ps: seq<Pair>, qs: seq<Pair>)
    ensures p in ps + qs <==> p in ps || p in qs
  {
  }

  predicate Listed(flags: Pair -> bool, n: nat, m: nat, p: Pair) {
    p in Pairs(flags, n, m)
  }

  predicate Selected(flags: Pair -> bool, n: nat, m: nat, p: Pair) {
    p.i < n && p.i < p.j < m && flags(p)
  }

  lemma {:induction false} PairsStep(flags: Pair -> bool, i: nat, m: nat, p: Pair)
    ensures Listed(flags, i + 1, m, p) <==> Listed(flags, i, m, p) || (p.i == i && i < p.j < m && flags(p))
  {
    RowPairsMembers(flags, i, m, p);
    InConcat(p, Pairs(flags, i, m), RowPairs(flags, i, m));
  }

  lemma {:induction false} PairsMembers(flags: Pair -> bool, n: nat, m: nat, p: Pair)
    ensures Listed(flags, n, m, p) <==> Selected(flags, n, m, p)
  {
    if n > 0 {
      PairsMembers(flags, n - 1, m, p);
      PairsStep(flags, n - 1, m, p);
    }
  }

  lemma {:induction false} PairsAscending(flags: Pair -> bool, n: nat, m: nat)
    ensures Ascending(Pairs(flags, n, m))
  {
    if n > 0 {
      var init, row := Pairs(flags, n - 1, m), RowPairs(flags, n - 1, m);
      PairsAscending(flags, n - 1, m);
      RowPairsAscending(flags, n - 1, m);
      forall a | 0 <= a < |init| ensures init[a].i < n - 1 {
        assert Listed(flags, n - 1, m, init[a]);
        PairsMembers(flags, n - 1, m, init[a]);
      }
      forall a | 0 <= a < |row| ensures row[a].i == n - 1 {
        RowPairsMembers(flags, n - 1, m, row[a]);
      }
      AscendingConcat(init, row);
    }
  }

  /** The reported pairs are exactly the pairs i < j at or above the threshold, in order and
      hence each once. */
  lemma {:induction false} CopiedPairsExact(t: real, ms: seq<Module>, p: Pair)
    ensures var ps := Pairs(Flags(t, ms), |ms|, |ms|);
            && (p in ps <==> p.i < p.j < |ms| && Flagged(t, ms, p.i, p.j))
            && Ascending(ps)
  {
    PairsMembers(Flags(t, ms), |ms|, |ms|, p);
    PairsAscending(Flags(t, ms), |ms|, |ms|);
  }

  // ----- premature splits -----

  function SplitFindings(r: Rule, ms: seq<Module>): seq<Finding> {
    if ms == [] then []
    else
      var m := ms[|ms| - 1];
      SplitFindings(r, ms[..|ms| - 1]) +
      if |Trimmed(m.resourceTypes)| as real < r.threshold then [Finding(r.id, r.typ, m.name, "", r.severity)] else []
  }

  method EvalPrematureSplit(r: Rule, ms: seq<Module>) returns (findings: seq<Finding>)
    ensures findings == SplitFindings(r, ms)
  {
    findings := [];
    for i := 0 to |ms|
      invariant findings == SplitFindings(r, ms[..i])
    {
      assert ms[..i + 1][..i] == ms[..i];
      var distinct := DistinctCount(ms[i].resourceTypes);
      if distinct as real < r.threshold {
        findings := findings + [Finding(r.id, r.typ, ms[i].name, "", r.severity)];
      }
    }
    assert ms[..|ms|] == ms;
  }

  /** A module is reported exactly when it has fewer distinct resource types than the threshold. */
  lemma {:induction false} SplitFindingsExact(r: Rule, ms: seq<Module>, f: Finding)
    ensures f in SplitFindings(r, ms) <==> exists i :: 0 <= i < |ms| && SplitAt(r, ms[i], f)
  {
    if ms != [] {
      var init, last := ms[..|ms| - 1], |ms| - 1;
      SplitFindingsExact(r, init, f);
      if f in SplitFindings(r, init) {
        var i :| 0 <= i < |init| && SplitAt(r, init[i], f);
        assert SplitAt(r, ms[i], f);
      }
      if i :| 0 <= i < |ms| && SplitAt(r, ms[i], f) && i != last {
        assert SplitAt(r, init[i], f);
      }
    }
  }

  predicate SplitAt(r: Rule, m: Module, f: Finding) {
    |Trimmed(m.resourceTypes)| as real < r.threshold && f == Finding(r.id, r.typ, m.name, "", r.severity)
  }

  /** One finding for each such module. */
  lemma {:induction false} SplitCount(r: Rule, ms: seq<Module>)
    ensures |SplitFindings(r, ms)| ==
            |set i | 0 <= i < |ms| && |Trimmed(ms[i].resourceTypes)| as real < r.threshold|
  {
    hide Trimmed;
    var all := set i | 0 <= i < |ms| && |Trimmed(ms[i].resourceTypes)| as real < r.threshold;
    if ms != [] {
      var last, init := |ms| - 1, ms[..|ms| - 1];
      SplitCount(r, init);
      var before := set i | 0 <= i < |init| && |Trimmed(init[i].resourceTypes)| as real < r.threshold;
      assert all == before + if |Trimmed(ms[last].resourceTypes)| as real < r.threshold then {last} else {};
    }
  }

  // ----- dependencies across tiers -----

  /** The tier of a name: that of the last module so named. */
  function TierOf(ms: seq<Module>): map<string, string> {
    if ms == [] then map[] else TierOf(ms[..|ms| - 1])[ms[|ms| - 1].name := ms[|ms| - 1].tier]
  }

  predicate Crosses(r: Rule, ms: seq<Module>, m: Module, dep: string) {
    && m.tier != "" && dep in TierOf(ms)
    && var t := TierOf(ms)[dep]; t != "" && t != m.tier && m.tier + "->" + t !in r.allowedTierEdges
  }

  function DependencyFindings(r: Rule, ms: seq<Module>, m: Module, deps: seq<string>): seq<Finding> {
    if deps == [] then []
    else
      var dep := deps[|deps| - 1];
      DependencyFindings(r, ms, m, deps[..|deps| - 1]) +
      if Crosses(r, ms, m, dep) then [Finding(r.id, r.typ, m.name, dep, r.severity)] else []
  }

  function CrossFindings(r: Rule, ms: seq<Module>, n: nat): seq<Finding>
    requires n <= |ms|
  {
    if n == 0 then [] else CrossFindings(r, ms, n - 1) + DependencyFindings(r, ms, ms[n - 1], ms[n - 1].dependsOn)
  }

  method EvalCrossBoundary(r: Rule, ms: seq<Module>) returns (findings: seq<Finding>)
    ensures findings == CrossFindings(r, ms, |ms|)
  {
    var tierOf: map<string, string> := map[];
    for i := 0 to |ms|
      invariant tierOf == TierOf(ms[..i])
    {
      assert ms[..i + 1][..i] == ms[..i];
      tierOf := tierOf[ms[i].name := ms[i].tier];
    }
    assert ms[..|ms|] == ms;
    var allowed: set<string> := {};
    for i := 0 to |r.allowedTierEdges|
      invariant allowed == set k | 0 <= k < i :: r.allowedTierEdges[k]
    {
      allowed := allowed + {r.allowedTierEdges[i]};
    }
    findings := [];
    for i := 0 to |ms|
      invariant findings == CrossFindings(r, ms, i)
    {
      var more := EvalDependencies(r, ms, ms[i], tierOf, allowed);
      findings := findings + more;
    }
  }

  /** The inner loop, over one module's dependencies. */
  method EvalDependencies(r: Rule, ms: seq<Module>, m: Module, tierOf: map<string, string>, allowed: set<string>)
      returns (findings: seq<Finding>)
    requires tierOf == TierOf(ms) && allowed == set k | 0 <= k < |r.allowedTierEdges| :: r.allowedTierEdges[k]
    ensures findings == DependencyFindings(r, ms, m, m.dependsOn)
  {
    findings := [];
    for k := 0 to |m.dependsOn|
      invariant findings == DependencyFindings(r, ms, m, m.dependsOn[..k])
    {
      assert m.dependsOn[..k + 1][..k] == m.dependsOn[..k];
      var dep := m.dependsOn[k];
      if m.tier != "" && dep in tierOf && tierOf[dep] != "" && tierOf[dep] != m.tier {
        var edge := m.tier + "->" + tierOf[dep];
        if edge !in allowed {
          findings := findings + [Finding(r.id, r.typ, m.name, dep, r.severity)];
        }
      }
    }
    assert m.dependsOn[..|m.dependsOn|] == m.dependsOn;
  }

  /** A dependency is reported exactly when it crosses: both tiers are known and different, and
      the edge between them is not allowed. */
  lemma {:induction false} CrossFindingsExact(r: Rule, ms: seq<Module>, n: nat, f: Finding)
    requires n <= |ms|
    ensures f in CrossFindings(r, ms, n) <==>
            exists i, k :: 0 <= i < n && 0 <= k < |ms[i].dependsOn| && CrossAt(r, ms, i, k, f)
  {
    hide Crosses;
    if n > 0 {
      CrossFindingsExact(r, ms, n - 1, f);
      DependencyFindingsExact(r, ms, n - 1, |ms[n - 1].dependsOn|, f);
      assert ms[n - 1].dependsOn[..|ms[n - 1].dependsOn|] == ms[n - 1].dependsOn;
    }
  }

  predicate CrossAt(r: Rule, ms: seq<Module>, i: nat, k: nat, f: Finding)
    requires i < |ms| && k < |ms[i].dependsOn|
  {
    var dep := ms[i].dependsOn[k];
    Crosses(r, ms, ms[i], dep) && f == Finding(r.id, r.typ, ms[i].name, dep, r.severity)
  }

  lemma {:induction false} DependencyFindingsExact(r: Rule, ms: seq<Module>, i: nat, n: nat, f: Finding)
    requires i < |ms| && n <= |ms[i].dependsOn|
    ensures f in DependencyFindings(r, ms, ms[i], ms[i].dependsOn[..n]) <==>
            exists k :: 0 <= k < n && CrossAt(r, ms, i, k, f)
  {
    hide Crosses;
    if n > 0 {
      var deps := ms[i].dependsOn[..n];
      DependencyFindingsExact(r, ms, i, n - 1, f);
      assert deps[..|deps| - 1] == ms[i].dependsOn[..n - 1] && deps[|deps| - 1] == ms[i].dependsOn[n - 1];
      assert f in DependencyFindings(r, ms, ms[i], deps) <==>
             f in DependencyFindings(r, ms, ms[i], deps[..|deps| - 1]) || CrossAt(r, ms, i, n - 1, f);
    }
  }

  /** One finding for each such dependency. */
  lemma {:induction false} CrossCount(r: Rule, ms: seq<Module>, n: nat)
    requires n <= |ms|
    ensures |CrossFindings(r, ms, n)| == |Crossings(r, ms, n)|
  {
    hide Crosses;
    if n > 0 {
      CrossCount(r, ms, n - 1);
      var m := |ms[n - 1].dependsOn|;
      DependencyCount(r, ms, n - 1, m);
      assert ms[n - 1].dependsOn[..m] == ms[n - 1].dependsOn;
      assert Crossings(r, ms, n) == Crossings(r, ms, n - 1) + CrossingsOf(r, ms, n - 1, m);
    }
  }

  /** Which dependencies of the first n modules cross, and which of the first m of one module. */
  function Crossings(r: Rule, ms: seq<Module>, n: nat): set<Pair>
    requires n <= |ms|
  {
    set i: nat, k: nat | i < n && k < |ms[i].dependsOn| && Crosses(r, ms, ms[i], ms[i].dependsOn[k]) :: Pair(i, k)
  }

  function CrossingsOf(r: Rule, ms: seq<Module>, i: nat, m: nat): set<Pair>
    requires i < |ms| && m <= |ms[i].dependsOn|
  {
    set k: nat | k < m && Crosses(r, ms, ms[i], ms[i].dependsOn[k]) :: Pair(i, k)
  }

  lemma {:induction false} DependencyCount(r: Rule, ms: seq<Module>, i: nat, m: nat)
    requires i < |ms| && m <= |ms[i].dependsOn|
    ensures |DependencyFindings(r, ms, ms[i], ms[i].dependsOn[..m])| == |CrossingsOf(r, ms, i, m)|
  {
    hide Crosses;
    if m > 0 {
      var deps := ms[i].dependsOn[..m];
      DependencyCount(r, ms, i, m - 1);
      assert deps[..m - 1] == ms[i].dependsOn[..m - 1] && deps[m - 1] == ms[i].dependsOn[m - 1];
      assert CrossingsOf(r, ms, i, m) == CrossingsOf(r, ms, i, m - 1) +
        if Crosses(r, ms, ms[i], deps[m - 1]) then {Pair(i, m - 1)} else {};
    }
  }

  predicate LastNamed(ms: seq<Module>, i: nat, name: string) {
    i < |ms| && ms[i].name == name && forall j :: i < j < |ms| ==> ms[j].name != name
  }

  /** The tier used is that of the last module with the name. */
  lemma {:induction false} TierOfIsLast(ms: seq<Module>, name: string)
    ensures name in TierOf(ms) <==> exists i :: 0 <= i < |ms| && ms[i].name == name
    ensures name in TierOf(ms) ==> exists i: nat :: LastNamed(ms, i, name) && TierOf(ms)[name] == ms[i].tier
  {
    hide TierOf;
    if name in TierOf(ms) {
      var i := LastOf(ms, name);
    }
    if i :| 0 <= i < |ms| && ms[i].name == name {
      NamedIn(ms, i);
    }
  }

  lemma {:induction false} LastOf(ms: seq<Module>, name: string) returns (i: nat)
    requires name in TierOf(ms)
    ensures LastNamed(ms, i, name) && TierOf(ms)[name] == ms[i].tier
  {
    var last, init := |ms| - 1, ms[..|ms| - 1];
    if ms[last].name == name {
      i := last;
    } else {
      i := LastOf(init, name);
      assert forall j :: 0 <= j < last ==> ms[j] == init[j];
    }
  }

  lemma {:induction false} NamedIn(ms: seq<Module>, i: nat)
    requires i < |ms|
    ensures ms[i].name in TierOf(ms)
  {
    if i < |ms| - 1 {
      NamedIn(ms[..|ms| - 1], i);
    }
  }

  // ----- the detector -----

  function Evaluated(r: Rule, ms: seq<Module>): seq<Finding> {
    match r.typ
    case PrematureSplit => SplitFindings(r, ms)
    case CopiedLayout => CopiedFindings(r, ms, Pairs(Flags(r.threshold, ms), |ms|, |ms|))
    case CrossBoundary => CrossFindings(r, ms, |ms|)
    case Unknown => []
  }

  function Analysis(rules: seq<Rule>, ms: seq<Module>): seq<Finding> {
    if rules == [] then []
    else
      var r := rules[|rules| - 1];
      Analysis(rules[..|rules| - 1], ms) + if r.enabled then Evaluated(r, ms) else []
  }

  class Detector {
    var rules: seq<Rule>

    constructor (rules: seq<Rule>)
      ensures this.rules == rules
    {
      this.rules := rules;
    }

    method AddRule(rule: Rule)
      modifies this
      ensures rules == old(rules) + [rule]
    {
      rules := rules + [rule];
    }

    method Analyze(ms: seq<Module>) returns (findings: seq<Finding>)
      ensures findings == Analysis(rules, ms)
      ensures forall f :: f in findings <==> exists r :: r in rules && Reports(r, ms, f)
    {
      hide Reports;
      findings := [];
      for i := 0 to |rules|
        invariant findings == Analysis(rules[..i], ms)
      {
        assert rules[..i + 1][..i] == rules[..i];
        var r := rules[i];
        if r.enabled {
          var more: seq<Finding> := [];
          match r.typ {
            case PrematureSplit => more := EvalPrematureSplit(r, ms);
            case CopiedLayout => more := EvalCopiedLayout(r, ms);
            case CrossBoundary => more := EvalCrossBoundary(r, ms);
            case Unknown =>
          }
          findings := findings + more;
        }
      }
      assert rules[..|rules|] == rules;
      forall f ensures f in findings <==> exists r :: r in rules && Reports(r, ms, f) {
        AnalysisExact(rules, ms, f);
      }
    }
  }

  /** A finding is reported exactly when some enabled rule reports it: for copied layouts, when
      the two modules it names stand in a flagged pair. */
  lemma {:induction false} AnalysisMembers(rules: seq<Rule>, ms: seq<Module>, f: Finding)
    ensures f in Analysis(rules, ms) <==> exists r :: r in rules && r.enabled && f in Evaluated(r, ms)
  {
    if rules != [] {
      var init, last := rules[..|rules| - 1], rules[|rules| - 1];
      AnalysisMembers(init, ms, f);
      assert rules == init + [last];
    }
  }

  /** A module with fewer distinct resource types than the threshold. */
  predicate ReportsSplit(r: Rule, ms: seq<Module>, f: Finding) {
    r.typ == PrematureSplit &&
    exists i :: 0 <= i < |ms| && |Trimmed(ms[i].resourceTypes)| as real < r.threshold
      && f == Finding(r.id, PrematureSplit, ms[i].name, "", r.severity)
  }

  /** Two modules, the earlier named first, at or above the threshold. */
  predicate ReportsCopy(r: Rule, ms: seq<Module>, f: Finding) {
    r.typ == CopiedLayout &&
    exists i, j :: 0 <= i < j < |ms|
      && Jaccard(Trimmed(ms[i].resourceTypes), Trimmed(ms[j].resourceTypes)) >= r.threshold
      && f == Finding(r.id, CopiedLayout, ms[i].name, ms[j].name, r.severity)
  }

  /** Module i depends, by its k-th dependency, on the last module of that name, j; both have
      tiers, different ones, and the rule does not allow the edge. */
  predicate ReportsCrossing(r: Rule, ms: seq<Module>, f: Finding) {
    r.typ == CrossBoundary &&
    exists i, k, j :: 0 <= i < |ms| && 0 <= k < |ms[i].dependsOn| && 0 <= j < |ms|
      && LastNamed(ms, j, ms[i].dependsOn[k])
      && ms[i].tier != "" && ms[j].tier != "" && ms[j].tier != ms[i].tier
      && ms[i].tier + "->" + ms[j].tier !in r.allowedTierEdges
      && f == Finding(r.id, CrossBoundary, ms[i].name, ms[i].dependsOn[k], r.severity)
  }

  predicate Reports(r: Rule, ms: seq<Module>, f: Finding) {
    r.enabled && (ReportsSplit(r, ms, f) || ReportsCopy(r, ms, f) || ReportsCrossing(r, ms, f))
  }

  /** What the whole run reports, rule by rule: each type of rule finds its own kind of fault. */
  lemma {:induction false} AnalysisExact(rules: seq<Rule>, ms: seq<Module>, f: Finding)
    ensures f in Analysis(rules, ms) <==> exists r :: r in rules && Reports(r, ms, f)
  {
    hide Evaluated, ReportsSplit, ReportsCopy, ReportsCrossing;
    AnalysisMembers(rules, ms, f);
    forall r ensures f in Evaluated(r, ms) <==> ReportsSplit(r, ms, f) || ReportsCopy(r, ms, f) || ReportsCrossing(r, ms, f) {
      EvaluatedExact(r, ms, f);
    }
  }

  lemma {:induction false} EvaluatedExact(r: Rule, ms: seq<Module>, f: Finding)
    ensures f in Evaluated(r, ms) <==> ReportsSplit(r, ms, f) || ReportsCopy(r, ms, f) || ReportsCrossing(r, ms, f)
  {
    hide Jaccard, TierOf, SplitFindings, CopiedFindings, CrossFindings, Pairs;
    match r.typ {
      case PrematureSplit => SplitFindingsExact(r, ms, f);
      case CopiedLayout => CopiedExact(r, ms, f);
      case CrossBoundary => CrossingExact(r, ms, f);
      case Unknown =>
    }
  }

  lemma {:induction false} CopiedExact(r: Rule, ms: seq<Module>, f: Finding)
    requires r.typ == CopiedLayout
    ensures f in CopiedFindings(r, ms, Pairs(Flags(r.threshold, ms), |ms|, |ms|)) <==> ReportsCopy(r, ms, f)
  {
    hide Jaccard, Pairs;
    var ps := Pairs(Flags(r.threshold, ms), |ms|, |ms|);
    var fs := CopiedFindings(r, ms, ps);
    if f in fs {
      var k :| 0 <= k < |fs| && fs[k] == f;
      CopiedPairsExact(r.threshold, ms, ps[k]);
    }
    if i, j :| 0 <= i < j < |ms| && Flagged(r.threshold, ms, i, j)
               && f == Finding(r.id, CopiedLayout, ms[i].name, ms[j].name, r.severity) {
      CopiedPairsExact(r.threshold, ms, Pair(i, j));
      var k :| 0 <= k < |ps| && ps[k] == Pair(i, j);
      assert fs[k] == f;
    }
  }

  lemma {:induction false} CrossingExact(r: Rule, ms: seq<Module>, f: Finding)
    requires r.typ == CrossBoundary
    ensures f in CrossFindings(r, ms, |ms|) <==> ReportsCrossing(r, ms, f)
  {
    hide TierOf, CrossFindings;
    CrossFindingsExact(r, ms, |ms|, f);
    if i, k :| 0 <= i < |ms| && 0 <= k < |ms[i].dependsOn| && CrossAt(r, ms, i, k, f) {
      var j := LastOf(ms, ms[i].dependsOn[k]);
    }
    if i, k, j :| 0 <= i < |ms| && 0 <= k < |ms[i].dependsOn| && 0 <= j < |ms|
                  && LastNamed(ms, j, ms[i].dependsOn[k])
                  && ms[i].tier != "" && ms[j].tier != "" && ms[j].tier != ms[i].tier
                  && ms[i].tier + "->" + ms[j].tier !in r.allowedTierEdges
                  && f == Finding(r.id, CrossBoundary, ms[i].name, ms[i].dependsOn[k], r.severity) {
      NamedIn(ms, j);
      var l := LastOf(ms, ms[i].dependsOn[k]);
      assert l == j;
      assert CrossAt(r, ms, i, k, f);
    }
  }

  /** Rules are run one after the other, each once, and what they find stays in their order. */
  lemma {:induction false} AnalysisInOrder(xs: seq<Rule>, ys: seq<Rule>, ms: seq<Module>)
    ensures Analysis(xs + ys, ms) == Analysis(xs, ms) + Analysis(ys, ms)
  {
    if ys == [] {
      assert xs + ys == xs;
    } else {
      assert (xs + ys)[..|xs + ys| - 1] == xs + ys[..|ys| - 1];
      AnalysisInOrder(xs, ys[..|ys| - 1], ms);
    }
  }

  lemma {:induction false} CopiedReported(rules: seq<Rule>, ms: seq<Module>, r: Rule, i: nat, j: nat)
    requires r in rules && r.enabled && r.typ.CopiedLayout? && i < j < |ms| && Flagged(r.threshold, ms, i, j)
    ensures Finding(r.id, CopiedLayout, ms[i].name, ms[j].name, r.severity) in Analysis(rules, ms)
  {
    var ps := Pairs(Flags(r.threshold, ms), |ms|, |ms|);
    CopiedPairsExact(r.threshold, ms, Pair(i, j));
    var k :| 0 <= k < |ps| && ps[k] == Pair(i, j);
    var f := Finding(r.id, CopiedLayout, ms[i].name, ms[j].name, r.severity);
    assert CopiedFindings(r, ms, ps)[k] == f;
    assert f in Evaluated(r, ms);
    AnalysisMembers(rules, ms, f);
  }
}
