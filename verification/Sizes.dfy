/** Nearest-size selection: the rows a failed size lookup suggests instead. */
module Sizes {
  import opened Text
  import opened Sorting

  /** The part of a catalog row the selection looks at. */
  datatype Size = Size(name: string, cpu: int, ram: int)

  datatype Scored<R> = Scored(row: R, size: Size, dist: int)

  function Abs(x: int): int {
    if x < 0 then -x else x
  }

  /** A missing vCPU weighs four times a missing GiB. */
  function Distance(s: Size, cpu: int, ram: int): int {
    Abs(s.cpu - cpu) * 4 + Abs(s.ram - ram)
  }

  /** Missing or excess vCPUs count four times what missing or excess GiB do. */
  lemma {:induction false} DistanceWeighs(name: string, cpu: int, ram: int, d: nat, e: nat)
    ensures Distance(Size(name, cpu + d, ram + e), cpu, ram) == 4 * d + e
    ensures Distance(Size(name, cpu + d, ram - e), cpu, ram) == 4 * d + e
    ensures Distance(Size(name, cpu - d, ram + e), cpu, ram) == 4 * d + e
    ensures Distance(Size(name, cpu - d, ram - e), cpu, ram) == 4 * d + e
  {
  }

  /** Strictly nearer, or as near with a smaller name. */
  predicate Before(a: Size, b: Size, cpu: int, ram: int) {
    var da, db := Distance(a, cpu, ram), Distance(b, cpu, ram);
    da < db || (da == db && Less(a.name, b.name))
  }

  /** Only sizes of the same distance and name tie. */
  lemma {:induction false} OnlyEqualsTie(a: Size, b: Size, cpu: int, ram: int)
    ensures !Before(a, b, cpu, ram) && !Before(b, a, cpu, ram) <==>
            Distance(a, cpu, ram) == Distance(b, cpu, ram) && a.name == b.name
  {
    LessConnected(a.name, b.name);
    LessIrreflexive(a.name);
  }

  function ScoredOrder<R>(): (Scored<R>, Scored<R>) -> bool {
    (a: Scored<R>, b: Scored<R>) => !(b.dist < a.dist || (b.dist == a.dist && Less(b.size.name, a.size.name)))
  }

  lemma {:induction false} ScoredOrderIsPreorder<R(!new)>()
    ensures Preorder(ScoredOrder<R>())
  {
    var le := ScoredOrder<R>();
    forall a: Scored<R>, b: Scored<R> ensures le(a, b) || le(b, a) {
      if Less(b.size.name, a.size.name) {
        LessAsymmetric(b.size.name, a.size.name);
      }
    }
    forall a: Scored<R>, b: Scored<R>, c: Scored<R> | le(a, b) && le(b, c) ensures le(a, c) {
      if a.dist == b.dist == c.dist {
        NotAfterTransitive(a.size.name, b.size.name, c.size.name);
      }
    }
  }

  /** At most n of the candidates, all drawn from them, nearest first; no candidate left out
      comes strictly before one that was taken. */
  ghost predicate IsNearest<R>(candidates: seq<R>, size: R -> Size, cpu: int, ram: int, n: nat, out: seq<R>) {
    && |out| == Min(n, |candidates|)
    && multiset(out) <= multiset(candidates)
    && (forall i, j :: 0 <= i < j < |out| ==> !Before(size(out[j]), size(out[i]), cpu, ram))
    && (forall r, i :: 0 <= i < |out| && r in multiset(candidates) - multiset(out) ==>
          !Before(size(r), size(out[i]), cpu, ram))
  }

  function Score<R>(candidates: seq<R>, size: R -> Size, cpu: int, ram: int): seq<Scored<R>> {
    seq(|candidates|, i requires 0 <= i < |candidates| =>
      Scored(candidates[i], size(candidates[i]), Distance(size(candidates[i]), cpu, ram)))
  }

  function RowsOf<R>(scored: seq<Scored<R>>): seq<R> {
    Map((s: Scored<R>) => s.row, scored)
  }

  method Nearest<R(!new)>(candidates: seq<R>, size: R -> Size, cpu: int, ram: int, n: nat) returns (out: seq<R>)
    ensures IsNearest(candidates, size, cpu, ram, n, out)
  {
    var scored: seq<Scored<R>> := [];
    for i := 0 to |candidates|
      invariant scored == Score(candidates, size, cpu, ram)[..i]
    {
      var d := Abs(size(candidates[i]).cpu - cpu) * 4 + Abs(size(candidates[i]).ram - ram);
      scored := scored + [Scored(candidates[i], size(candidates[i]), d)];
    }
    assert scored == Score(candidates, size, cpu, ram);
    var sorted := Sort(ScoredOrder<R>(), scored);
    SortMultiset(ScoredOrder<R>(), scored);
    out := [];
    var i := 0;
    while i < |sorted| && i < n
      invariant 0 <= i <= |sorted| && i <= n
      invariant out == RowsOf(sorted)[..i]
    {
      out := out + [sorted[i].row];
      i := i + 1;
    }
    SelectionIsNearest(candidates, size, cpu, ram, n, sorted, out);
  }

  lemma {:induction false} SortedRows<R(!new)>(candidates: seq<R>, size: R -> Size, cpu: int, ram: int,
        sorted: seq<Scored<R>>)
    requires sorted == Sort(ScoredOrder<R>(), Score(candidates, size, cpu, ram))
    ensures multiset(RowsOf(sorted)) == multiset(candidates)
    ensures forall i, j :: 0 <= i < j < |sorted| ==>
              !Before(size(RowsOf(sorted)[j]), size(RowsOf(sorted)[i]), cpu, ram)
  {
    var scored := Score(candidates, size, cpu, ram);
    ScoredOrderIsPreorder<R>();
    SortSorted(ScoredOrder<R>(), scored);
    SortMultiset(ScoredOrder<R>(), scored);
    MapMultiset((s: Scored<R>) => s.row, sorted, scored);
    assert RowsOf(scored) == candidates;
    forall i | 0 <= i < |sorted|
      ensures sorted[i].size == size(sorted[i].row) && sorted[i].dist == Distance(size(sorted[i].row), cpu, ram)
    {
      assert sorted[i] in multiset(scored);
    }
    forall i, j | 0 <= i < j < |sorted| ensures !Before(size(sorted[j].row), size(sorted[i].row), cpu, ram) {
      assert ScoredOrder<R>()(sorted[i], sorted[j]);
    }
  }

  lemma {:induction false} SelectionIsNearest<R(!new)>(candidates: seq<R>, size: R -> Size, cpu: int, ram: int, n: nat,
                                    sorted: seq<Scored<R>>, out: seq<R>)
    requires sorted == Sort(ScoredOrder<R>(), Score(candidates, size, cpu, ram)) && |sorted| == |candidates|
    requires out == RowsOf(sorted)[..Min(n, |candidates|)]
    ensures IsNearest(candidates, size, cpu, ram, n, out)
  {
    SortedRows(candidates, size, cpu, ram, sorted);
    var rows, k := RowsOf(sorted), |out|;
    var omitted := rows[k..];
    assert rows == out + omitted;
    forall r, i | 0 <= i < k && r in multiset(candidates) - multiset(out)
      ensures !Before(size(r), size(out[i]), cpu, ram)
    {
      assert multiset(rows) == multiset(out) + multiset(omitted);
      assert r in omitted;
    }
  }
}
