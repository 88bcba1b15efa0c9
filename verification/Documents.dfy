/** Rendered Terraform documents as records: what each one is, declares and references. */
module Documents {
  import opened Wrappers

  datatype Decl = Variable(name: string, sensitive: bool) | Secret(leaf: string)

  /** The names a document was rendered with: the network, the subnets, the firewall ("" for none). */
  datatype Placement = Nowhere | On(network: string, subnets: seq<string>, firewall: string)

  datatype Kind =
    | ProjectLookup
    | Network(name: string, subnets: seq<string>)
    | Firewall(name: string, network: string, tags: seq<string>)
    | Service(index: nat, placement: Placement)
    | VaultNode(network: string)
    | Declaration
    | ProjectBinding
    | RequiredProviders(entries: seq<(string, string)>)

  datatype Doc = Doc(kind: Kind, decls: seq<Decl>, refs: set<string>)

  function Header(d: Decl): Doc {
    Doc(Declaration, [d], {})
  }

  function PlacementOf(doc: Doc): Placement {
    match doc.kind
    case Service(_, placement) => placement
    case VaultNode(network) => On(network, [], "")
    case _ => Nowhere
  }

  // ----- declared names -----

  /** The variables a declaration list declares, in order. */
  function Names(decls: seq<Decl>): seq<string> {
    if decls == [] then []
    else Names(decls[..|decls| - 1]) +
         match decls[|decls| - 1] { case Variable(name, _) => [name] case Secret(_) => [] }
  }

  function Labels(decls: seq<Decl>): seq<string> {
    if decls == [] then []
    else Labels(decls[..|decls| - 1]) +
         match decls[|decls| - 1] { case Variable(_, _) => [] case Secret(leaf) => [leaf] }
  }

  /** Every declaration of a document list, in order. */
  function Decls(docs: seq<Doc>): seq<Decl> {
    if docs == [] then [] else Decls(docs[..|docs| - 1]) + docs[|docs| - 1].decls
  }

  function Declared(docs: seq<Doc>): seq<string> {
    Names(Decls(docs))
  }

  lemma {:induction false} NamesConcat(xs: seq<Decl>, ys: seq<Decl>)
    ensures Names(xs + ys) == Names(xs) + Names(ys)
  {
    if ys == [] {
      assert xs + ys == xs;
    } else {
      assert (xs + ys)[..|xs + ys| - 1] == xs + ys[..|ys| - 1];
      NamesConcat(xs, ys[..|ys| - 1]);
    }
  }

  lemma {:induction false} LabelsConcat(xs: seq<Decl>, ys: seq<Decl>)
    ensures Labels(xs + ys) == Labels(xs) + Labels(ys)
  {
    if ys == [] {
      assert xs + ys == xs;
    } else {
      assert (xs + ys)[..|xs + ys| - 1] == xs + ys[..|ys| - 1];
      LabelsConcat(xs, ys[..|ys| - 1]);
    }
  }

  lemma {:induction false} DeclsConcat(xs: seq<Doc>, ys: seq<Doc>)
    ensures Decls(xs + ys) == Decls(xs) + Decls(ys)
  {
    if ys == [] {
      assert xs + ys == xs;
    } else {
      assert (xs + ys)[..|xs + ys| - 1] == xs + ys[..|ys| - 1];
      DeclsConcat(xs, ys[..|ys| - 1]);
    }
  }

  lemma {:induction false} DeclaredConcat(xs: seq<Doc>, ys: seq<Doc>)
    ensures Declared(xs + ys) == Declared(xs) + Declared(ys)
  {
    DeclsConcat(xs, ys);
    NamesConcat(Decls(xs), Decls(ys));
  }

  lemma {:induction false} DeclaredHeader(d: Decl)
    ensures Decls([Header(d)]) == [d]
    ensures Declared([Header(d)]) == if d.Variable? then [d.name] else []
  {
    var docs, decls := [Header(d)], [d];
    assert docs[..|docs| - 1] == [] && Decls([]) == [];
    assert decls[..|decls| - 1] == [] && Names([]) == [];
    assert Decls(docs) == decls && Names(decls) == Names([]) + if d.Variable? then [d.name] else [];
  }

  lemma {:induction false} NamesMember(decls: seq<Decl>, n: string)
    ensures n in Names(decls) <==> Variable(n, true) in decls || Variable(n, false) in decls
  {
    if decls != [] {
      var init, last := decls[..|decls| - 1], decls[|decls| - 1];
      NamesMember(init, n);
      assert forall d :: d in decls <==> d in init || d == last;
      if last.Variable? {
        assert Names(decls) == Names(init) + [last.name];
        assert last == Variable(last.name, true) || last == Variable(last.name, false);
      } else {
        assert Names(decls) == Names(init);
      }
    }
  }

  // ----- lists without repetition -----

  ghost predicate Distinct<T>(s: seq<T>) {
    forall i, j :: 0 <= i < j < |s| ==> s[i] != s[j]
  }

  ghost predicate Disjoint<T>(s: seq<T>, t: seq<T>) {
    forall x :: x in s ==> x !in t
  }

  lemma {:induction false} DistinctCounts<T>(s: seq<T>)
    ensures Distinct(s) <==> forall x :: x in s ==> multiset(s)[x] == 1
  {
    if s != [] {
      assert s == [s[0]] + s[1..];
      DistinctCons(s[0], s[1..]);
      DistinctCounts(s[1..]);
      if Distinct(s) {
        forall x | x in s ensures multiset(s)[x] == 1 {
          assert x in s[1..] || x == s[0];
        }
      } else if s[0] in s[1..] {
        assert s[0] in multiset(s[1..]) && multiset(s)[s[0]] >= 2;
      } else {
        var x :| x in s[1..] && multiset(s[1..])[x] != 1;
        assert x in multiset(s[1..]) && x in s && multiset(s)[x] >= 2;
      }
    }
  }

  lemma {:induction false} DistinctConcat<T>(s: seq<T>, t: seq<T>)
    ensures Distinct(s + t) <==> Distinct(s) && Distinct(t) && Disjoint(s, t)
  {
    var all := s + t;
    if Distinct(all) {
      forall i, j | 0 <= i < j < |s| ensures s[i] != s[j] {
        assert all[i] != all[j];
      }
      forall i, j | 0 <= i < j < |t| ensures t[i] != t[j] {
        assert all[|s| + i] != all[|s| + j];
      }
      forall x | x in s ensures x !in t {
        var i :| 0 <= i < |s| && s[i] == x;
        forall j | 0 <= j < |t| ensures t[j] != x {
          assert all[i] != all[|s| + j];
        }
      }
    } else if Disjoint(s, t) && Distinct(s) {
      var i, j :| 0 <= i < j < |all| && all[i] == all[j];
      assert j >= |s| && all[j] in t;
      assert all[i] !in s;
      assert t[i - |s|] == t[j - |s|];
    }
  }

  lemma {:induction false} DistinctCons<T>(x: T, t: seq<T>)
    ensures Distinct([x] + t) <==> x !in t && Distinct(t)
  {
    DistinctConcat([x], t);
    assert x in [x];
  }
}
