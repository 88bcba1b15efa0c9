/** The assembler's fix-ups: variables and secrets are declared once, the providers are pinned
    in one block, and every document keeps its place. */
module FixUp {
  import opened Wrappers
  import opened Text
  import opened HostPlacement
  import opened BaselineTags
  import opened Documents
  import opened Assemble
  import opened Providers
  import Core

  const ZONE := Variable("cloudflare_zone_id", false)
  const DB_PASSWORD := Variable("db_password", true)
  const SSH_KEYS := Variable("do_ssh_keys", false)

  /** What the platform bootstraps may reference: variables, some of them sensitive, and the
      Vault paths with the data-source name each is read under. */
  datatype Known = Known(sensitive: seq<string>, plain: seq<string>, paths: seq<string>, leaf: string -> string)

  function Headers(decls: seq<Decl>): seq<Doc> {
    seq(|decls|, i requires 0 <= i < |decls| => Header(decls[i]))
  }

  lemma {:induction false} HeadersDecls(decls: seq<Decl>)
    ensures Decls(Headers(decls)) == decls
  {
    if decls != [] {
      var init, last := decls[..|decls| - 1], decls[|decls| - 1];
      HeadersDecls(init);
      assert Headers(decls) == Headers(init) + [Header(last)];
      DeclsConcat(Headers(init), [Header(last)]);
      DeclaredHeader(last);
    }
  }

  lemma {:induction false} HeadersFirst(d: Decl, decls: seq<Decl>)
    ensures [Header(d)] + Headers(decls) == Headers([d] + decls)
  {
  }

  lemma {:induction false} DeclaredAfter(decls: seq<Decl>, docs: seq<Doc>)
    ensures Decls(Headers(decls) + docs) == decls + Decls(docs)
    ensures Declared(Headers(decls) + docs) == Names(decls) + Declared(docs)
    ensures Labels(Decls(Headers(decls) + docs)) == Labels(decls) + Labels(Decls(docs))
  {
    HeadersDecls(decls);
    DeclsConcat(Headers(decls), docs);
    NamesConcat(decls, Decls(docs));
    LabelsConcat(decls, Decls(docs));
  }

  lemma {:induction false} NamesFirst(d: Decl, decls: seq<Decl>)
    ensures Names([d] + decls) == (if d.Variable? then [d.name] else []) + Names(decls)
    ensures Labels([d] + decls) == (if d.Secret? then [d.leaf] else []) + Labels(decls)
  {
    NamesConcat([d], decls);
    LabelsConcat([d], decls);
    DeclaredHeader(d);
    assert [d][..0] == [] && Labels([]) == [];
    assert Labels([d]) == Labels([d][..0]) + if d.Secret? then [d.leaf] else [];
  }

  // ----- the zone variable -----

  function RemoveFirst(decls: seq<Decl>, d: Decl): seq<Decl> {
    if decls == [] then [] else if decls[0] == d then decls[1..] else [decls[0]] + RemoveFirst(decls[1..], d)
  }

  function Strip(doc: Doc): Doc {
    doc.(decls := RemoveFirst(doc.decls, ZONE))
  }

  function Stripped(docs: seq<Doc>): seq<Doc> {
    seq(|docs|, i requires 0 <= i < |docs| => Strip(docs[i]))
  }

  function ZoneHeader(docs: seq<Doc>): seq<Decl> {
    if ZONE in Decls(docs) then [ZONE] else []
  }

  lemma {:induction false} RemoveFirstMember(decls: seq<Decl>, d: Decl, e: Decl)
    ensures e != d ==> (e in RemoveFirst(decls, d) <==> e in decls)
    ensures d !in decls ==> RemoveFirst(decls, d) == decls
  {
    if decls != [] {
      assert decls == [decls[0]] + decls[1..];
      RemoveFirstMember(decls[1..], d, e);
    }
  }

  lemma {:induction false} RemovesOne(decls: seq<Decl>, d: Decl)
    ensures multiset(RemoveFirst(decls, d)) == multiset(decls) - multiset{d}
  {
    if decls != [] {
      assert decls == [decls[0]] + decls[1..];
      if decls[0] != d {
        RemovesOne(decls[1..], d);
      }
    }
  }

  /** The hoisted declaration is the only one exactly where each renderer declares the zone
      variable at most once. */
  lemma {:induction false} ZoneOnceIff(docs: seq<Doc>)
    ensures ZONE !in Decls(Stripped(docs)) <==> forall doc :: doc in docs ==> multiset(doc.decls)[ZONE] <= 1
  {
    var out := Stripped(docs);
    DeclsMember(out, ZONE);
    forall i | 0 <= i < |docs| ensures ZONE in out[i].decls <==> multiset(docs[i].decls)[ZONE] > 1 {
      RemovesOne(docs[i].decls, ZONE);
      assert ZONE in out[i].decls <==> ZONE in multiset(out[i].decls);
    }
  }

  /** No other name's declarations are touched. */
  lemma {:induction false} StrippedCounts(docs: seq<Doc>, n: string)
    requires n != ZONE.name
    ensures multiset(Declared(Stripped(docs)))[n] == multiset(Declared(docs))[n]
  {
    hide Names, Decls;
    if docs == [] {
      assert Stripped(docs) == docs;
    } else {
      var init, last := docs[..|docs| - 1], docs[|docs| - 1];
      StrippedCounts(init, n);
      RemovedCounts(last.decls, n);
      assert docs == init + [last] && Stripped(docs) == Stripped(init) + [Strip(last)];
      DeclaredConcat(init, [last]);
      DeclaredConcat(Stripped(init), [Strip(last)]);
      DeclaredOne(last);
      DeclaredOne(Strip(last));
    }
  }

  lemma {:induction false} DeclaredOne(doc: Doc)
    ensures Declared([doc]) == Names(doc.decls)
  {
    var docs := [doc];
    assert docs[..|docs| - 1] == [];
    assert Decls(docs) == Decls([]) + doc.decls == doc.decls;
  }

  lemma {:induction false} RemovedCounts(decls: seq<Decl>, n: string)
    requires n != ZONE.name
    ensures multiset(Names(RemoveFirst(decls, ZONE)))[n] == multiset(Names(decls))[n]
  {
    if decls != [] {
      assert decls == [decls[0]] + decls[1..];
      NamesFirst(decls[0], decls[1..]);
      if decls[0] != ZONE {
        RemovedCounts(decls[1..], n);
        NamesFirst(decls[0], RemoveFirst(decls[1..], ZONE));
      }
    }
  }

  /** And then it is there exactly where some renderer declared it. */
  lemma {:induction false} ZoneOnce(docs: seq<Doc>)
    requires forall doc :: doc in docs ==> multiset(doc.decls)[ZONE] <= 1
    ensures multiset(Decls(Headers(ZoneHeader(docs)) + Stripped(docs)))[ZONE] == if ZONE in Decls(docs) then 1 else 0
  {
    hide Decls, Stripped, Headers;
    ZoneOnceIff(docs);
    DeclaredAfter(ZoneHeader(docs), Stripped(docs));
    assert ZONE !in multiset(Decls(Stripped(docs)));
  }

  lemma {:induction false} StrippedName(docs: seq<Doc>)
    ensures ZONE.name in Declared(Stripped(docs)) <==>
            Variable(ZONE.name, true) in Decls(docs) || ZONE in Decls(Stripped(docs))
  {
    NamesMember(Decls(Stripped(docs)), ZONE.name);
    StrippedMember(docs, Variable(ZONE.name, true));
  }

  lemma {:induction false} NothingToStrip(docs: seq<Doc>)
    requires ZONE !in Decls(docs)
    ensures Stripped(docs) == docs
  {
    DeclsMember(docs, ZONE);
    forall i | 0 <= i < |docs| ensures Strip(docs[i]) == docs[i] {
      RemoveFirstMember(docs[i].decls, ZONE, ZONE);
    }
  }

  lemma {:induction false} DeclsMember(docs: seq<Doc>, d: Decl)
    ensures d in Decls(docs) <==> exists i :: 0 <= i < |docs| && d in docs[i].decls
  {
    if docs != [] {
      var init, last := docs[..|docs| - 1], |docs| - 1;
      DeclsMember(init, d);
      if d in Decls(init) {
        var i :| 0 <= i < |init| && d in init[i].decls;
        assert d in docs[i].decls;
      }
      if i :| 0 <= i < |docs| && d in docs[i].decls && i != last {
        assert d in init[i].decls;
      }
    }
  }

  /** Stripping and hoisting keep the set of declared names. */
  lemma {:induction false} DedupeKeepsNames(docs: seq<Doc>, n: string)
    ensures n in Declared(Headers(ZoneHeader(docs)) + Stripped(docs)) <==> n in Declared(docs)
  {
    var out := Headers(ZoneHeader(docs)) + Stripped(docs);
    DeclaredAfter(ZoneHeader(docs), Stripped(docs));
    NamesMember(Decls(out), n);
    NamesMember(Decls(docs), n);
    forall d: Decl ensures d in Decls(out) <==> d in Decls(docs) {
      StrippedMember(docs, d);
    }
  }

  lemma {:induction false} StrippedMember(docs: seq<Doc>, d: Decl)
    ensures d != ZONE ==> (d in Decls(Stripped(docs)) <==> d in Decls(docs))
    ensures d == ZONE && d in Decls(Stripped(docs)) ==> d in Decls(docs)
  {
    var out := Stripped(docs);
    DeclsMember(docs, d);
    DeclsMember(out, d);
    forall i | 0 <= i < |docs| ensures d != ZONE ==> (d in out[i].decls <==> d in docs[i].decls) {
      RemoveFirstMember(docs[i].decls, ZONE, d);
    }
    forall i | 0 <= i < |docs| ensures d == ZONE && d !in docs[i].decls ==> d !in out[i].decls {
      RemoveFirstMember(docs[i].decls, ZONE, d);
    }
  }

  method DedupeZone(docs: seq<Doc>) returns (out: seq<Doc>)
    ensures out == Headers(ZoneHeader(docs)) + Stripped(docs)
  {
    var found := false;
    out := [];
    for i := 0 to |docs|
      invariant found <==> exists j :: 0 <= j < i && ZONE in docs[j].decls
      invariant |out| == i && forall j :: 0 <= j < i ==> out[j] == Strip(docs[j])
    {
      var doc := docs[i];
      RemoveFirstMember(doc.decls, ZONE, ZONE);
      if ZONE in doc.decls {
        found := true;
        doc := doc.(decls := RemoveFirst(doc.decls, ZONE));
      }
      out := out + [doc];
    }
    assert out == Stripped(docs);
    DeclsMember(docs, ZONE);
    if found {
      out := [Header(ZONE)] + out;
      HeadersFirst(ZONE, []);
    }
  }

  // ----- bootstrap variables -----

  function Scripts(p: Part): seq<string> {
    if p.typ == SCALE_GROUP && p.scaleGroup.Some? then
      var g := p.scaleGroup.value;
      [g.userData] + seq(|g.byProvider|, i requires 0 <= i < |g.byProvider| => g.byProvider[i].1)
    else []
  }

  /** One of the texts a scale group's droplets may run: its own script, or a provider's. */
  predicate RunsScript(p: Part, s: string) {
    && p.typ == "virtual-machine-scale-group" && p.scaleGroup.Some?
    && (s == p.scaleGroup.value.userData ||
        exists k :: 0 <= k < |p.scaleGroup.value.byProvider| && s == p.scaleGroup.value.byProvider[k].1)
  }

  lemma {:induction false} ScriptsExact(p: Part, s: string)
    ensures s in Scripts(p) <==> RunsScript(p, s)
  {
    if p.typ == SCALE_GROUP && p.scaleGroup.Some? {
      var g := p.scaleGroup.value;
      assert Scripts(p)[0] == g.userData;
      assert forall k :: 0 <= k < |g.byProvider| ==> Scripts(p)[k + 1] == g.byProvider[k].1;
    }
  }

  function AllScripts(ps: seq<Part>): seq<string> {
    if ps == [] then [] else AllScripts(ps[..|ps| - 1]) + Scripts(ps[|ps| - 1])
  }

  /** The text of every scale-group script, one after the other. */
  function Blob(ps: seq<Part>): string {
    Concat(AllScripts(ps))
  }

  /** The text searched is made of every script of every scale group, and of nothing else. */
  lemma {:induction false} AllScriptsExact(ps: seq<Part>, s: string)
    ensures s in AllScripts(ps) <==> exists i :: 0 <= i < |ps| && RunsScript(ps[i], s)
  {
    hide Scripts, RunsScript;
    if ps != [] {
      var init, last := ps[..|ps| - 1], |ps| - 1;
      AllScriptsExact(init, s);
      ScriptsExact(ps[last], s);
      assert forall i :: 0 <= i < |init| ==> init[i] == ps[i];
    }
  }

  function VariableRef(n: string): string {
    "${var." + n + "}"
  }

  function SecretRef(leaf: string): string {
    "data.vault_kv_secret_v2." + leaf + "."
  }

  predicate Listed(known: Known, n: string) {
    n in known.sensitive || n in known.plain
  }

  /** The declarations a bootstrap needs: once for each listed variable that is referenced and
      not declared yet, sensitive exactly when some service lists it as sensitive. */
  ghost predicate VariablesAdded(known: Known, blob: string, docs: seq<Doc>, added: seq<Decl>) {
    && (forall d :: d in added ==> d.Variable? && d.sensitive == (d.name in known.sensitive))
    && Distinct(Names(added))
    && forall n :: n in Names(added) <==> Listed(known, n) && Contains(blob, VariableRef(n)) && n !in Declared(docs)
  }

  /** Every listed name with its class, the sensitive lists first. */
  function Ordered(known: Known): seq<Decl> {
    seq(|known.sensitive|, i requires 0 <= i < |known.sensitive| => Variable(known.sensitive[i], true)) +
    seq(|known.plain|, i requires 0 <= i < |known.plain| => Variable(known.plain[i], false))
  }

  /** The plain rule for the first n names of the order: declare a referenced name unless it is
      declared by then. */
  function AddedUpTo(known: Known, blob: string, docs: seq<Doc>, n: nat): seq<Decl>
    requires n <= |Ordered(known)|
  {
    if n == 0 then []
    else
      var added, d := AddedUpTo(known, blob, docs, n - 1), Ordered(known)[n - 1];
      if Contains(blob, VariableRef(d.name)) && d.name !in Declared(Headers(added) + docs) then [d] + added else added
  }

  function AddedVariables(known: Known, blob: string, docs: seq<Doc>): seq<Decl> {
    AddedUpTo(known, blob, docs, |Ordered(known)|)
  }

  function NamesUpTo(ordered: seq<Decl>, n: nat): set<string>
    requires n <= |ordered| && forall d :: d in ordered ==> d.Variable?
  {
    set k | 0 <= k < n :: ordered[k].name
  }

  /** What holds of the declarations added for the names seen so far. */
  ghost predicate AddedSoFar(known: Known, blob: string, docs: seq<Doc>, seen: set<string>, added: seq<Decl>) {
    && (forall d :: d in added ==> d.Variable? && d.sensitive == (d.name in known.sensitive))
    && Distinct(Names(added))
    && forall n :: n in Names(added) <==> n in seen && Contains(blob, VariableRef(n)) && n !in Declared(docs)
  }

  /** The loop skips the names it has seen; the plain rule never needs to. */
  method DeclareVariables(known: Known, blob: string, docs: seq<Doc>) returns (out: seq<Doc>)
    ensures out == Headers(AddedVariables(known, blob, docs)) + docs
  {
    hide Contains, Declared, Headers, AddedSoFar;
    var ordered := Ordered(known);
    var seen: set<string> := {};
    out := docs;
    NothingAdded(known, blob, docs);
    for i := 0 to |ordered|
      invariant seen == NamesUpTo(ordered, i)
      invariant out == Headers(AddedUpTo(known, blob, docs, i)) + docs
    {
      var d := ordered[i];
      ghost var added := AddedUpTo(known, blob, docs, i);
      if d.name in seen {
        AddedHolds(known, blob, docs, i);
        SeenIsSettled(known, blob, docs, i);
      } else {
        seen := seen + {d.name};
        if Contains(blob, VariableRef(d.name)) && d.name !in Declared(out) {
          HeadersFirst(d, added);
          out := [Header(d)] + out;
        }
      }
    }
  }

  lemma {:induction false} NothingAdded(known: Known, blob: string, docs: seq<Doc>)
    ensures AddedSoFar(known, blob, docs, {}, []) && docs == Headers([]) + docs
  {
  }

  /** A name seen before is not referenced or is declared by now. */
  lemma {:induction false} SeenIsSettled(known: Known, blob: string, docs: seq<Doc>, i: nat)
    requires i < |Ordered(known)| && Ordered(known)[i].name in NamesUpTo(Ordered(known), i)
    requires AddedSoFar(known, blob, docs, NamesUpTo(Ordered(known), i), AddedUpTo(known, blob, docs, i))
    ensures AddedUpTo(known, blob, docs, i + 1) == AddedUpTo(known, blob, docs, i)
    ensures NamesUpTo(Ordered(known), i + 1) == NamesUpTo(Ordered(known), i)
  {
    hide Contains, Declared, Headers;
    var added := AddedUpTo(known, blob, docs, i);
    DeclaredAfter(added, docs);
  }

  lemma {:induction false} AddedHolds(known: Known, blob: string, docs: seq<Doc>, n: nat)
    requires n <= |Ordered(known)|
    ensures AddedSoFar(known, blob, docs, NamesUpTo(Ordered(known), n), AddedUpTo(known, blob, docs, n))
  {
    hide Contains, Declared, Headers, AddedSoFar;
    if n == 0 {
      NothingAdded(known, blob, docs);
      assert NamesUpTo(Ordered(known), 0) == {};
    } else {
      var ordered, seen := Ordered(known), NamesUpTo(Ordered(known), n - 1);
      var d, added := ordered[n - 1], AddedUpTo(known, blob, docs, n - 1);
      AddedHolds(known, blob, docs, n - 1);
      assert NamesUpTo(ordered, n) == seen + {d.name};
      if d.name in seen {
        SeenIsSettled(known, blob, docs, n - 1);
        assert NamesUpTo(ordered, n) == seen;
      } else {
        FirstIsSensitive(known, n - 1);
        NewName(known, blob, docs, seen, added, d);
      }
    }
  }

  /** The first time a name comes up in the order its class is the sensitive one if it has both. */
  lemma {:induction false} FirstIsSensitive(known: Known, i: nat)
    requires i < |Ordered(known)|
    requires forall k :: 0 <= k < i ==> Ordered(known)[k].name != Ordered(known)[i].name
    ensures Ordered(known)[i].sensitive == (Ordered(known)[i].name in known.sensitive)
  {
    assert forall k :: 0 <= k < |known.sensitive| ==> Ordered(known)[k].name == known.sensitive[k];
  }

  /** Adding a name not seen before, or skipping it, keeps what holds of the declarations. */
  lemma {:induction false} NewName(known: Known, blob: string, docs: seq<Doc>, seen: set<string>, added: seq<Decl>,
        d: Decl)
    requires AddedSoFar(known, blob, docs, seen, added)
    requires d.Variable? && d.name !in seen && d.sensitive == (d.name in known.sensitive)
    ensures d.name in Declared(Headers(added) + docs) <==> d.name in Declared(docs)
    ensures AddedSoFar(known, blob, docs, seen + {d.name},
                       if Contains(blob, VariableRef(d.name)) && d.name !in Declared(docs) then [d] + added else added)
  {
    hide Contains, Declared, Headers;
    DeclaredAfter(added, docs);
    NamesFirst(d, added);
    DistinctCons(d.name, Names(added));
  }

  /** The independent reading of the rule: exactly the listed, referenced and undeclared names,
      each once, each with its class. */
  lemma {:induction false} VariablesExact(known: Known, blob: string, docs: seq<Doc>)
    ensures VariablesAdded(known, blob, docs, AddedVariables(known, blob, docs))
  {
    hide Contains, Declared, AddedUpTo;
    var ordered := Ordered(known);
    AddedHolds(known, blob, docs, |ordered|);
    forall n ensures n in NamesUpTo(ordered, |ordered|) <==> Listed(known, n) {
      OrderedLists(known, n);
    }
  }

  lemma {:induction false} OrderedLists(known: Known, n: string)
    ensures n in NamesUpTo(Ordered(known), |Ordered(known)|) <==> Listed(known, n)
  {
    var ordered := Ordered(known);
    if n in known.sensitive {
      var k :| 0 <= k < |known.sensitive| && known.sensitive[k] == n;
      assert ordered[k].name == n;
    } else if n in known.plain {
      var k :| 0 <= k < |known.plain| && known.plain[k] == n;
      assert ordered[|known.sensitive| + k].name == n;
    }
  }

  // ----- Vault secrets -----

  predicate ListedLeaf(known: Known, n: nat, leaf: string)
    requires n <= |known.paths|
  {
    exists k :: 0 <= k < n && known.leaf(known.paths[k]) == leaf
  }

  /** One data source for each referenced leaf that is not declared yet. */
  ghost predicate SecretsAdded(known: Known, n: nat, blob: string, docs: seq<Doc>, added: seq<Decl>)
    requires n <= |known.paths|
  {
    && (forall d :: d in added ==> d.Secret?)
    && Distinct(Labels(added))
    && forall l :: l in Labels(added) <==>
         ListedLeaf(known, n, l) && Contains(blob, SecretRef(l)) && l !in Labels(Decls(docs))
  }

  predicate NeedsVault(known: Known, n: nat, blob: string)
    requires n <= |known.paths|
  {
    exists k :: 0 <= k < n && Contains(blob, SecretRef(known.leaf(known.paths[k])))
  }

  /** The data sources for the first n paths. */
  function AddedSecrets(known: Known, n: nat, blob: string, docs: seq<Doc>): seq<Decl>
    requires n <= |known.paths|
  {
    if n == 0 then []
    else
      var added, leaf := AddedSecrets(known, n - 1, blob, docs), known.leaf(known.paths[n - 1]);
      if Contains(blob, SecretRef(leaf)) && leaf !in Labels(Decls(Headers(added) + docs)) then [Secret(leaf)] + added
      else added
  }

  method DeclareSecrets(known: Known, blob: string, docs: seq<Doc>) returns (out: seq<Doc>, needsVault: bool)
    ensures out == Headers(AddedSecrets(known, |known.paths|, blob, docs)) + docs
    ensures needsVault == NeedsVault(known, |known.paths|, blob)
  {
    hide Contains, Headers, Labels, Decls, SecretRef;
    out, needsVault := docs, false;
    NoSecrets(known, blob, docs);
    for i := 0 to |known.paths|
      invariant out == Headers(AddedSecrets(known, i, blob, docs)) + docs
      invariant needsVault == NeedsVault(known, i, blob)
    {
      var leaf := known.leaf(known.paths[i]);
      ghost var added := AddedSecrets(known, i, blob, docs);
      if Contains(blob, SecretRef(leaf)) {
        needsVault := true;
        if leaf !in Labels(Decls(out)) {
          HeadersFirst(Secret(leaf), added);
          out := [Header(Secret(leaf))] + out;
        }
      }
    }
  }

  /** Exactly the referenced and undeclared leaves, each once. */
  lemma {:induction false} SecretsExact(known: Known, n: nat, blob: string, docs: seq<Doc>)
    requires n <= |known.paths|
    ensures SecretsAdded(known, n, blob, docs, AddedSecrets(known, n, blob, docs))
  {
    hide Contains, Headers, SecretsAdded, Labels, Decls;
    if n == 0 {
      NoSecrets(known, blob, docs);
    } else {
      SecretsExact(known, n - 1, blob, docs);
      NextLeaf(known, n - 1, blob, docs, AddedSecrets(known, n - 1, blob, docs));
    }
  }

  lemma {:induction false} NoSecrets(known: Known, blob: string, docs: seq<Doc>)
    ensures SecretsAdded(known, 0, blob, docs, []) && docs == Headers([]) + docs
  {
  }

  lemma {:induction false} NextLeaf(known: Known, i: nat, blob: string, docs: seq<Doc>, added: seq<Decl>)
    requires i < |known.paths| && SecretsAdded(known, i, blob, docs, added)
    ensures var leaf := known.leaf(known.paths[i]);
            SecretsAdded(known, i + 1, blob, docs,
                         if Contains(blob, SecretRef(leaf)) && leaf !in Labels(Decls(Headers(added) + docs))
                         then [Secret(leaf)] + added else added)
  {
    hide Contains, Headers;
    var leaf := known.leaf(known.paths[i]);
    DeclaredAfter(added, docs);
    NamesFirst(Secret(leaf), added);
    DistinctCons(leaf, Labels(added));
    forall l ensures ListedLeaf(known, i + 1, l) <==> ListedLeaf(known, i, l) || l == leaf {
      if l == leaf {
        assert known.leaf(known.paths[i]) == l;
      }
    }
  }

  // ----- required providers -----

  const KUBERNETES := ("kubernetes", "hashicorp/kubernetes")
  const HELM := ("helm", "hashicorp/helm")
  const VAULT := ("vault", "hashicorp/vault")

  /** A source Terraform does not find by the resource prefix alone. */
  predicate Foreign(source: (string, string)) {
    !HasPrefix(source.1, "hashicorp/")
  }

  function When(b: bool, entry: (string, string)): seq<(string, string)> {
    if b then [entry] else []
  }

  /** The entries of the one required_providers block, if the module needs one. */
  function ProviderEntries(provider: string, flags: Flags, needsVault: bool): Option<seq<(string, string)>> {
    var source := CloudSource(Lower(provider));
    if !flags.cloudflare && !needsVault && !(source.Some? && Foreign(source.value)) then None
    else
      Some((match source { case Some(entry) => [entry] case None => [] }) +
           When(flags.cloudflare, CLOUDFLARE) + When(flags.kubernetes, KUBERNETES) + When(flags.helm, HELM) +
           When(needsVault, VAULT))
  }

  function Locals(entries: seq<(string, string)>): seq<string> {
    seq(|entries|, i requires 0 <= i < |entries| => entries[i].0)
  }

  /** The block pins the environment's own provider, if Terraform needs to be told, and exactly
      the extra providers in use. */
  lemma {:induction false} ProvidersPinned(provider: string, flags: Flags, needsVault: bool)
    requires ProviderEntries(provider, flags, needsVault).Some?
    ensures forall e :: e in ProviderEntries(provider, flags, needsVault).value <==>
              || Some(e) == CloudSource(Lower(provider))
              || (flags.cloudflare && e == CLOUDFLARE) || (flags.kubernetes && e == KUBERNETES)
              || (flags.helm && e == HELM) || (needsVault && e == VAULT)
  {
    hide CloudSource;
  }

  /** Terraform finds the providers of its own namespace unaided: those of AWS, GCP, Azure and
      vSphere. */
  lemma {:induction false} ForeignIff(provider: string)
    requires CloudSource(provider).Some?
    ensures Foreign(CloudSource(provider).value) <==> provider !in ["aws", "gcp", "azure", "vsphere"]
  {
    var own, source := "hashicorp/", CloudSource(provider).value.1;
    assert own[0] == 'h' && own[1] == 'a' && own[2] == 's' && |own| == 10;
    assert Foreign(CloudSource(provider).value) <==> !(own <= source);
    if own <= source {
      assert source[0] == 'h' && source[1] == 'a' && source[2] == 's';
    }
  }

  /** No cloud provider goes by the name of an extra one, except Cloudflare itself. */
  lemma {:induction false} CloudApart(provider: string)
    requires CloudSource(provider).Some?
    ensures CloudSource(provider).value.0 !in ["kubernetes", "helm", "vault"]
    ensures CloudSource(provider).value.0 == "cloudflare" <==> provider == "cloudflare"
  {
    var name := CloudSource(provider).value.0;
    assert |name| != 4;
    assert |name| == 5 ==> name[0] !in {'v'} || name[1] == 'u';
    assert |name| == 10 ==> name[0] != 'k' && (name[0] == 'c' ==> provider == "cloudflare");
  }

  /** Terraform refuses a block that pins a name twice: the block is well formed unless the
      environment's own provider is Cloudflare and a component pins Cloudflare again. */
  lemma {:induction false} ProvidersDistinctIff(provider: string, flags: Flags, needsVault: bool)
    requires ProviderEntries(provider, flags, needsVault).Some?
    ensures Distinct(Locals(ProviderEntries(provider, flags, needsVault).value)) <==>
            !(flags.cloudflare && Lower(provider) == "cloudflare")
  {
    hide CloudSource;
    var entries := ProviderEntries(provider, flags, needsVault).value;
    var extras := When(flags.cloudflare, CLOUDFLARE) + When(flags.kubernetes, KUBERNETES) + When(flags.helm, HELM) +
      When(needsVault, VAULT);
    ExtrasDistinct(flags, needsVault);
    match CloudSource(Lower(provider)) {
      case None =>
        CloudflareListed();
        assert entries == extras;
      case Some(entry) =>
        CloudApart(Lower(provider));
        assert Locals(entries) == [entry.0] + Locals(extras);
        DistinctCons(entry.0, Locals(extras));
    }
  }

  lemma {:induction false} CloudflareListed()
    ensures CloudSource("cloudflare") == Some(CLOUDFLARE)
  {
  }

  lemma {:induction false} ExtrasDistinct(flags: Flags, needsVault: bool)
    ensures var extras := When(flags.cloudflare, CLOUDFLARE) + When(flags.kubernetes, KUBERNETES) +
                          When(flags.helm, HELM) + When(needsVault, VAULT);
            && Distinct(Locals(extras))
            && ("cloudflare" in Locals(extras) <==> flags.cloudflare)
            && forall n :: n in Locals(extras) ==> n in ["cloudflare", "kubernetes", "helm", "vault"]
  {
    assert "cloudflare"[0] != "kubernetes"[0] && |"helm"| == 4 && |"vault"| == 5;
    var extras := When(flags.cloudflare, CLOUDFLARE) + When(flags.kubernetes, KUBERNETES) + When(flags.helm, HELM) +
      When(needsVault, VAULT);
    if flags.cloudflare {
      assert Locals(extras)[0] == "cloudflare";
    }
  }
}
