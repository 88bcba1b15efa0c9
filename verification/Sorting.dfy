/** The library's stable sort, and what makes a sorted list canonical. */
module Sorting {
  /** A total preorder: ties are allowed, incomparable elements are not. */
  ghost predicate Preorder<T(!new)>(le: (T, T) -> bool) {
    && (forall a, b :: le(a, b) || le(b, a))
    && (forall a, b, c :: le(a, b) && le(b, c) ==> le(a, c))
  }

  ghost predicate Sorted<T>(le: (T, T) -> bool, xs: seq<T>) {
    forall i, j :: 0 <= i < j < |xs| ==> le(xs[i], xs[j])
  }

  function Insert<T>(le: (T, T) -> bool, x: T, ys: seq<T>): seq<T> {
    if ys == [] then [x] else if le(x, ys[0]) then [x] + ys else [ys[0]] + Insert(le, x, ys[1..])
  }

  /** Each element goes before the later ones it ties with. */
  function Sort<T>(le: (T, T) -> bool, xs: seq<T>): seq<T> {
    if xs == [] then [] else Insert(le, xs[0], Sort(le, xs[1..]))
  }

  lemma {:induction false} InsertMultiset<T>(le: (T, T) -> bool, x: T, ys: seq<T>)
    ensures multiset(Insert(le, x, ys)) == multiset{x} + multiset(ys)
  {
    if ys != [] && !le(x, ys[0]) {
      InsertMultiset(le, x, ys[1..]);
      assert ys == [ys[0]] + ys[1..];
    }
  }

  lemma {:induction false} SortMultiset<T>(le: (T, T) -> bool, xs: seq<T>)
    ensures multiset(Sort(le, xs)) == multiset(xs) && |Sort(le, xs)| == |xs|
  {
    if xs != [] {
      SortMultiset(le, xs[1..]);
      InsertMultiset(le, xs[0], Sort(le, xs[1..]));
      assert xs == [xs[0]] + xs[1..];
    }
    assert |multiset(Sort(le, xs))| == |multiset(xs)|;
  }

  lemma {:induction false} InsertSorted<T(!new)>(le: (T, T) -> bool, x: T, ys: seq<T>)
    requires Preorder(le) && Sorted(le, ys)
    ensures Sorted(le, Insert(le, x, ys))
  {
    if ys != [] && !le(x, ys[0]) {
      var rest := Insert(le, x, ys[1..]);
      InsertSorted(le, x, ys[1..]);
      InsertMultiset(le, x, ys[1..]);
      forall z | z in rest ensures le(ys[0], z) {
        assert z in multiset(rest);
        if z != x {
          assert z in ys[1..];
        }
      }
    }
  }

  lemma {:induction false} SortSorted<T(!new)>(le: (T, T) -> bool, xs: seq<T>)
    requires Preorder(le)
    ensures Sorted(le, Sort(le, xs))
  {
    if xs != [] {
      SortSorted(le, xs[1..]);
      InsertSorted(le, xs[0], Sort(le, xs[1..]));
    }
  }

  // ----- stability -----

  function Filter<T>(p: T -> bool, xs: seq<T>): seq<T> {
    if xs == [] then [] else if p(xs[0]) then [xs[0]] + Filter(p, xs[1..]) else Filter(p, xs[1..])
  }

  lemma {:induction false} FilterCons<T>(p: T -> bool, x: T, xs: seq<T>)
    ensures Filter(p, [x] + xs) == if p(x) then [x] + Filter(p, xs) else Filter(p, xs)
  {
    assert ([x] + xs)[1..] == xs;
  }

  /** The elements p selects all tie with one another. */
  ghost predicate Tied<T(!new)>(le: (T, T) -> bool, p: T -> bool) {
    forall a, b :: p(a) && p(b) ==> le(a, b)
  }

  lemma {:induction false} InsertStable<T(!new)>(le: (T, T) -> bool, p: T -> bool, x: T, ys: seq<T>)
    requires Tied(le, p)
    ensures Filter(p, Insert(le, x, ys)) == if p(x) then [x] + Filter(p, ys) else Filter(p, ys)
  {
    if ys == [] || le(x, ys[0]) {
      FilterCons(p, x, ys);
      assert [x] + ys == Insert(le, x, ys);
    } else {
      InsertStable(le, p, x, ys[1..]);
      FilterCons(p, ys[0], Insert(le, x, ys[1..]));
      NotBoth(le, p, x, ys[0]);
    }
  }

  lemma {:induction false} NotBoth<T(!new)>(le: (T, T) -> bool, p: T -> bool, x: T, y: T)
    requires Tied(le, p) && !le(x, y)
    ensures !p(x) || !p(y)
  {
  }

  /** Elements that tie keep their order. */
  lemma {:induction false} SortStable<T(!new)>(le: (T, T) -> bool, p: T -> bool, xs: seq<T>)
    requires Tied(le, p)
    ensures Filter(p, Sort(le, xs)) == Filter(p, xs)
  {
    if xs != [] {
      SortStable(le, p, xs[1..]);
      InsertStable(le, p, xs[0], Sort(le, xs[1..]));
    }
  }

  // ----- canonical forms -----

  /** Elements of the list that tie are equal. */
  ghost predicate Antisymmetric<T>(le: (T, T) -> bool, xs: seq<T>) {
    forall a, b :: a in xs && b in xs && le(a, b) && le(b, a) ==> a == b
  }

  lemma {:induction false} LeastHead<T>(le: (T, T) -> bool, xs: seq<T>, z: T)
    requires Sorted(le, xs) && z in xs && z != xs[0]
    ensures le(xs[0], z)
  {
  }

  /** Two sorted permutations of one another are the same list when ties are equal. */
  lemma {:induction false} SortedUnique<T>(le: (T, T) -> bool, xs: seq<T>, ys: seq<T>)
    requires Sorted(le, xs) && Sorted(le, ys) && multiset(xs) == multiset(ys)
    requires Antisymmetric(le, xs)
    ensures xs == ys
  {
    assert |multiset(xs)| == |xs| && |multiset(ys)| == |ys|;
    if xs != [] {
      assert xs[0] in multiset(ys) && ys[0] in multiset(xs);
      if xs[0] != ys[0] {
        LeastHead(le, xs, ys[0]);
        LeastHead(le, ys, xs[0]);
      }
      TailMultiset(xs);
      TailMultiset(ys);
      SortedUnique(le, xs[1..], ys[1..]);
      assert xs == [xs[0]] + xs[1..] && ys == [ys[0]] + ys[1..];
    }
  }

  lemma {:induction false} TailMultiset<T>(xs: seq<T>)
    requires xs != []
    ensures multiset(xs[1..]) == multiset(xs) - multiset{xs[0]}
  {
    assert xs == [xs[0]] + xs[1..];
  }

  /** Sorting gives one list for every order of the input when ties are equal. */
  lemma {:induction false} SortCanonical<T(!new)>(le: (T, T) -> bool, xs: seq<T>, ys: seq<T>)
    requires Preorder(le) && Antisymmetric(le, xs) && multiset(ys) == multiset(xs)
    ensures Sort(le, ys) == Sort(le, xs)
  {
    SortSorted(le, xs);
    SortMultiset(le, xs);
    SortSorted(le, ys);
    SortMultiset(le, ys);
    var zs := Sort(le, xs);
    forall a | a in zs ensures a in xs {
      assert a in multiset(zs);
    }
    SortedUnique(le, zs, Sort(le, ys));
  }

  /** And elements that tie without being equal make the order of the input show. */
  lemma {:induction false} HeadsShow<T(!new)>(le: (T, T) -> bool, first: seq<T>, second: seq<T>)
    requires Preorder(le) && first != [] && second != []
    requires Ties(le, first[0])(second[0]) && first[0] != second[0]
    ensures Sort(le, first) != Sort(le, second)
  {
    FirstOfTies(le, first[0], first[0], first);
    FirstOfTies(le, first[0], second[0], second);
  }

  /** The elements that tie with a. */
  function Ties<T>(le: (T, T) -> bool, a: T): T -> bool {
    x => le(a, x) && le(x, a)
  }

  lemma {:induction false} FirstOfTies<T(!new)>(le: (T, T) -> bool, a: T, x: T, xs: seq<T>)
    requires Preorder(le) && xs != [] && xs[0] == x && Ties(le, a)(x)
    ensures var f := Filter(Ties(le, a), Sort(le, xs)); f != [] && f[0] == x
  {
    SortStable(le, Ties(le, a), xs);
  }

  lemma {:induction false} BringForward<T>(xs: seq<T>, i: nat)
    requires i < |xs|
    ensures multiset([xs[i]] + (xs[..i] + xs[i + 1..])) == multiset(xs)
  {
    assert xs == xs[..i] + [xs[i]] + xs[i + 1..];
  }

  // ----- elementwise images, and strict order -----

  function Map<A, B>(f: A -> B, xs: seq<A>): (ys: seq<B>)
    ensures |ys| == |xs| && forall i :: 0 <= i < |xs| ==> ys[i] == f(xs[i])
  {
    seq(|xs|, i requires 0 <= i < |xs| => f(xs[i]))
  }

  lemma {:induction false} MapMultiset<A, B>(f: A -> B, xs: seq<A>, ys: seq<A>)
    requires multiset(xs) == multiset(ys)
    ensures multiset(Map(f, xs)) == multiset(Map(f, ys))
  {
    assert |multiset(xs)| == |xs| && |multiset(ys)| == |ys|;
    if xs != [] {
      assert xs[0] in multiset(ys);
      var j :| 0 <= j < |ys| && ys[j] == xs[0];
      var rest := ys[..j] + ys[j + 1..];
      TailsAgree(xs, ys, j);
      MapMultiset(f, xs[1..], rest);
      assert Map(f, xs) == [f(xs[0])] + Map(f, xs[1..]);
      BringForward(Map(f, ys), j);
      assert Map(f, rest) == Map(f, ys)[..j] + Map(f, ys)[j + 1..];
    }
  }

  lemma {:induction false} TailsAgree<T>(xs: seq<T>, ys: seq<T>, j: nat)
    requires multiset(xs) == multiset(ys) && xs != [] && j < |ys| && ys[j] == xs[0]
    ensures multiset(xs[1..]) == multiset(ys[..j] + ys[j + 1..])
  {
    var rest := ys[..j] + ys[j + 1..];
    BringForward(ys, j);
    TailMultiset(xs);
    TailMultiset([ys[j]] + rest);
    assert ([ys[j]] + rest)[1..] == rest;
  }

  /** No two positions of the list tie. */
  ghost predicate Tieless<T>(le: (T, T) -> bool, xs: seq<T>) {
    forall i, j :: 0 <= i < j < |xs| ==> !(le(xs[i], xs[j]) && le(xs[j], xs[i]))
  }

  ghost predicate StrictlySorted<T>(le: (T, T) -> bool, xs: seq<T>) {
    forall i, j :: 0 <= i < j < |xs| ==> le(xs[i], xs[j]) && !le(xs[j], xs[i])
  }

  /** A sorted permutation of a list without ties is strictly sorted. */
  lemma {:induction false} SortedStrict<T(!new)>(le: (T, T) -> bool, xs: seq<T>, ys: seq<T>)
    requires Preorder(le) && Tieless(le, xs) && Sorted(le, ys) && multiset(ys) == multiset(xs)
    ensures StrictlySorted(le, ys)
  {
    forall i, j | 0 <= i < j < |ys| ensures !le(ys[j], ys[i]) {
      if le(ys[j], ys[i]) {
        assert le(ys[i], ys[j]);
        assert ys[i] in multiset(xs) && ys[j] in multiset(xs);
        var a :| 0 <= a < |xs| && xs[a] == ys[i];
        var b :| 0 <= b < |xs| && xs[b] == ys[j];
        assert a == b;
        TwiceIn(ys, i, j);
        OnceIn(le, xs, ys[i]);
      }
    }
  }

  lemma {:induction false} TwiceIn<T>(xs: seq<T>, i: nat, j: nat)
    requires i < j < |xs| && xs[i] == xs[j]
    ensures multiset(xs)[xs[i]] >= 2
  {
    assert xs == xs[..i] + [xs[i]] + xs[i + 1..j] + [xs[j]] + xs[j + 1..];
  }

  lemma {:induction false} OnceIn<T(!new)>(le: (T, T) -> bool, xs: seq<T>, x: T)
    requires Preorder(le) && Tieless(le, xs)
    ensures multiset(xs)[x] <= 1
  {
    if xs != [] {
      assert Tieless(le, xs[1..]);
      OnceIn(le, xs[1..], x);
      assert xs == [xs[0]] + xs[1..];
      forall k | 0 <= k < |xs| - 1 ensures xs[1..][k] != xs[0] {
        assert xs[1..][k] == xs[k + 1];
        assert le(xs[0], xs[0]);
      }
    }
  }

  /** A list without ties has one sorted order, whatever order it is given in. */
  lemma {:induction false} CanonicalOrder<T(!new)>(le: (T, T) -> bool, xs: seq<T>, ys: seq<T>)
    requires Preorder(le) && Tieless(le, xs) && Sorted(le, ys) && multiset(ys) == multiset(xs)
    ensures ys == Sort(le, xs) && StrictlySorted(le, ys)
  {
    SortSorted(le, xs);
    SortMultiset(le, xs);
    SortedStrict(le, xs, ys);
    forall a, b | a in ys && b in ys && le(a, b) && le(b, a) ensures a == b {
      var i :| 0 <= i < |ys| && ys[i] == a;
      var j :| 0 <= j < |ys| && ys[j] == b;
      assert i == j;
    }
    SortedUnique(le, ys, Sort(le, xs));
  }
}
