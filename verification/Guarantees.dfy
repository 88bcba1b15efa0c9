/** What holds of every final document list: each name declared once, every reference met,
    one providers block, and every placed document after what it names. */
module Guarantees {
  import opened Wrappers
  import opened Text
  import opened HostPlacement
  import opened BaselineTags
  import opened Documents
  import opened Assemble
  import opened FixUp
  import opened Providers
  import opened Environment
  import Core
  import Heredoc
  import Mitigation

  // ----- declared names -----

  lemma {:induction false} DeclsOfFixed(sys: System, env: Env, ps: seq<Part>, core: seq<Doc>, flags: Flags)
    ensures Decls(FixedDocs(sys, env, ps, core, flags)) ==
            Secrets(sys, env, ps, core) + (Vars(sys, env, ps, core) + (Base(env, ps, core) + Decls(Stripped(core))))
  {
    hide ProviderDocs, Binding, VaultNeeded, Opened, Headers, Decls, Vars, Secrets;
    var start, docs := Opened(env, ps, core), Declarations(sys, env, ps, core);
    OpenedDecls(env, ps, core);
    DeclaredAfter(Vars(sys, env, ps, core), start);
    DeclaredAfter(Secrets(sys, env, ps, core), Headers(Vars(sys, env, ps, core)) + start);
    var providers, binding := ProviderDocs(env, flags, VaultNeeded(sys, env, ps)), Binding(sys, env, docs);
    AroundBare(sys, env, flags, VaultNeeded(sys, env, ps), docs);
    DeclsConcat(providers, docs);
    DeclsConcat(providers + docs, binding);
  }

  lemma {:induction false} AroundBare(sys: System, env: Env, flags: Flags, needsVault: bool, docs: seq<Doc>)
    ensures Decls(ProviderDocs(env, flags, needsVault)) == [] && Decls(Binding(sys, env, docs)) == []
  {
    hide ProviderEntries, Decls;
    Bare(ProviderDocs(env, flags, needsVault));
    Bare(Binding(sys, env, docs));
  }

  lemma {:induction false} Bare(docs: seq<Doc>)
    requires |docs| <= 1 && forall doc :: doc in docs ==> doc.decls == []
    ensures Decls(docs) == []
  {
    if docs != [] {
      assert docs[..0] == [] && docs[0] in docs;
      assert Decls(docs) == Decls(docs[..0]) + docs[0].decls;
    }
  }

  lemma {:induction false} NoNames(decls: seq<Decl>)
    requires forall d :: d in decls ==> d.Secret?
    ensures Names(decls) == []
  {
    if decls != [] {
      assert decls[|decls| - 1] in decls;
      NoNames(decls[..|decls| - 1]);
    }
  }

  lemma {:induction false} NoLabels(decls: seq<Decl>)
    requires forall d :: d in decls ==> d.Variable?
    ensures Labels(decls) == []
  {
    if decls != [] {
      assert decls[|decls| - 1] in decls;
      NoLabels(decls[..|decls| - 1]);
    }
  }

  lemma {:induction false} DeclaredSplit(sys: System, env: Env, ps: seq<Part>, core: seq<Doc>, flags: Flags)
    ensures Declared(FixedDocs(sys, env, ps, core, flags)) ==
            Names(Vars(sys, env, ps, core)) + Declared(Opened(env, ps, core))
    ensures Declared(Opened(env, ps, core)) == Names(Base(env, ps, core)) + Declared(Stripped(core))
  {
    hide Headers, Base, Stripped, FixedDocs, Vars, Secrets;
    var base, rest := Base(env, ps, core), Decls(Stripped(core));
    var vars, secrets := Vars(sys, env, ps, core), Secrets(sys, env, ps, core);
    DeclsOfFixed(sys, env, ps, core, flags);
    SecretsAreExact(sys, env, ps, core);
    NoNames(secrets);
    NamesConcat(secrets, vars + (base + rest));
    NamesConcat(vars, base + rest);
    DeclaredAfter(base, Stripped(core));
  }

  /** The variables added, read independently of the loop. */
  lemma {:induction false} VarsAreExact(sys: System, env: Env, ps: seq<Part>, core: seq<Doc>)
    ensures forall d :: d in Vars(sys, env, ps, core) ==> d.Variable? && d.sensitive == (d.name in sys.known.sensitive)
    ensures Distinct(Names(Vars(sys, env, ps, core)))
    ensures forall n :: n in Names(Vars(sys, env, ps, core)) <==>
              BootstrapUses(sys, env, ps, n) && n !in Declared(Opened(env, ps, core))
  {
    hide Opened, Blob, AddedVariables, Contains, Declared;
    VariablesExact(sys.known, Blob(ps), Opened(env, ps, core));
  }

  lemma {:induction false} SecretsAreExact(sys: System, env: Env, ps: seq<Part>, core: seq<Doc>)
    ensures forall d :: d in Secrets(sys, env, ps, core) ==> d.Secret?
    ensures Distinct(Labels(Secrets(sys, env, ps, core)))
    ensures forall l :: l in Labels(Secrets(sys, env, ps, core)) <==>
              ScriptsRead(sys, env, ps, l) && l !in Labels(Decls(Headers(Vars(sys, env, ps, core)) + Opened(env, ps, core)))
  {
    hide Opened, Blob, AddedSecrets, Vars, Contains, Decls, Headers, ListedLeaf;
    SecretsExact(sys.known, |sys.known.paths|, Blob(ps), Headers(Vars(sys, env, ps, core)) + Opened(env, ps, core));
  }

  predicate BootstrapUses(sys: System, env: Env, ps: seq<Part>, n: string) {
    OnDigitalOcean(env) && Listed(sys.known, n) && Contains(Blob(ps), VariableRef(n))
  }

  predicate ScriptsRead(sys: System, env: Env, ps: seq<Part>, leaf: string) {
    OnDigitalOcean(env) && ListedLeaf(sys.known, |sys.known.paths|, leaf) && Contains(Blob(ps), SecretRef(leaf))
  }

  lemma {:induction false} BaseNames(env: Env, ps: seq<Part>, core: seq<Doc>)
    ensures Distinct(Names(Base(env, ps, core)))
    ensures forall n :: n in Names(Base(env, ps, core)) <==>
              || (NeedsKeys(env, ps) && n == SSH_KEYS.name)
              || (HasDatabase(ps) && n == DB_PASSWORD.name)
              || (ZONE in Decls(core) && n == ZONE.name)
  {
    hide NeedsKeys, HasDatabase, Decls, Names, Distinct;
    var keys := if NeedsKeys(env, ps) then [SSH_KEYS] else [];
    var password := if HasDatabase(ps) then [DB_PASSWORD] else [];
    var zone := ZoneHeader(core);
    assert Base(env, ps, core) == keys + password + zone;
    BaseApart();
    assert keys + password + zone == keys + (password + zone);
    NamesConcat(keys, password + zone);
    NamesConcat(password, zone);
    OneName(keys, SSH_KEYS);
    OneName(password, DB_PASSWORD);
    OneName(zone, ZONE);
    AtMostThree(Names(keys), Names(password), Names(zone), SSH_KEYS.name, DB_PASSWORD.name, ZONE.name);
  }

  lemma {:induction false} OneName(decls: seq<Decl>, d: Decl)
    requires d.Variable? && (decls == [] || decls == [d])
    ensures Names(decls) == if decls == [] then [] else [d.name]
  {
    NamesFirst(d, []);
    assert [d] + [] == [d];
  }

  lemma {:induction false} BaseApart()
    ensures SSH_KEYS.name != DB_PASSWORD.name && DB_PASSWORD.name != ZONE.name && ZONE.name != SSH_KEYS.name
  {
    assert SSH_KEYS.name[1] == 'o' && DB_PASSWORD.name[1] == 'b' && ZONE.name[0] == 'c';
  }

  lemma {:induction false} AtMostThree(xs: seq<string>, ys: seq<string>, zs: seq<string>, x: string, y: string,
        z: string)
    requires xs == [] || xs == [x]
    requires ys == [] || ys == [y]
    requires zs == [] || zs == [z]
    requires x != y && y != z && z != x
    ensures Distinct(xs + (ys + zs))
    ensures forall n :: n in xs + (ys + zs) <==> (xs != [] && n == x) || (ys != [] && n == y) || (zs != [] && n == z)
  {
  }

  /** What the renderers may declare: each name once, the inline zone variable once in each
      document, that name in no other form beside it, and no name the assembler supplies. */
  ghost predicate DeclareOnce(env: Env, ps: seq<Part>, core: seq<Doc>) {
    && (forall n :: n in Declared(core) && n != ZONE.name ==> multiset(Declared(core))[n] == 1)
    && (if ZONE in Decls(core) then
          Variable(ZONE.name, true) !in Decls(core) && forall doc :: doc in core ==> multiset(doc.decls)[ZONE] <= 1
        else
          multiset(Declared(core))[ZONE.name] <= 1)
    && (NeedsKeys(env, ps) ==> SSH_KEYS.name !in Declared(core))
    && (HasDatabase(ps) ==> DB_PASSWORD.name !in Declared(core))
  }

  /** Every variable of the module is declared once exactly when the renderers keep to that. */
  lemma {:induction false} DeclaredOnceIff(sys: System, env: Env, ps: seq<Part>, core: seq<Doc>, flags: Flags)
    ensures Distinct(Declared(FixedDocs(sys, env, ps, core, flags))) <==> DeclareOnce(env, ps, core)
  {
    hide NeedsKeys, HasDatabase, Stripped, FixedDocs, Declared, Decls, Distinct;
    StrippedOnceIff(sys, env, ps, core, flags);
    BaseApart();
    NameStripped(core, SSH_KEYS.name);
    NameStripped(core, DB_PASSWORD.name);
    DistinctStrippedIff(core);
    StrippedName(core);
    ZoneOnceIff(core);
  }

  lemma {:induction false} NameStripped(core: seq<Doc>, n: string)
    requires n != ZONE.name
    ensures n in Declared(Stripped(core)) <==> n in Declared(core)
  {
    hide Declared, Stripped;
    StrippedCounts(core, n);
    assert n in Declared(core) <==> n in multiset(Declared(core));
    assert n in Declared(Stripped(core)) <==> n in multiset(Declared(Stripped(core)));
  }

  /** The stripped list repeats no name exactly when the renderers repeat none but the zone's,
      and the zone's is settled. */
  lemma {:induction false} DistinctStrippedIff(core: seq<Doc>)
    ensures ZONE in Decls(core) && ZONE.name !in Declared(Stripped(core)) ==>
              (Distinct(Declared(Stripped(core))) <==>
               forall n :: n in Declared(core) && n != ZONE.name ==> multiset(Declared(core))[n] == 1)
    ensures ZONE !in Decls(core) ==>
              (Distinct(Declared(Stripped(core))) <==>
               && (forall n :: n in Declared(core) && n != ZONE.name ==> multiset(Declared(core))[n] == 1)
               && multiset(Declared(core))[ZONE.name] <= 1)
  {
    hide Declared, Stripped, Decls, Distinct;
    var before, after := Declared(core), Declared(Stripped(core));
    DistinctCounts(after);
    forall n | n != ZONE.name ensures multiset(after)[n] == multiset(before)[n] && (n in after <==> n in before) {
      StrippedCounts(core, n);
      NameStripped(core, n);
    }
    if ZONE !in Decls(core) {
      NothingToStrip(core);
      assert ZONE.name in before <==> ZONE.name in multiset(before);
    }
  }

  lemma {:induction false} StrippedOnceIff(sys: System, env: Env, ps: seq<Part>, core: seq<Doc>, flags: Flags)
    ensures Distinct(Declared(FixedDocs(sys, env, ps, core, flags))) <==>
            && Distinct(Declared(Stripped(core)))
            && (NeedsKeys(env, ps) ==> SSH_KEYS.name !in Declared(Stripped(core)))
            && (HasDatabase(ps) ==> DB_PASSWORD.name !in Declared(Stripped(core)))
            && (ZONE in Decls(core) ==> ZONE.name !in Declared(Stripped(core)))
  {
    hide NeedsKeys, HasDatabase, Base, Stripped, FixedDocs, Vars, Opened, BootstrapUses, Declared, Decls;
    DeclaredSplit(sys, env, ps, core, flags);
    VarsAreExact(sys, env, ps, core);
    BaseNames(env, ps, core);
    DistinctConcat(Names(Base(env, ps, core)), Declared(Stripped(core)));
    DistinctConcat(Names(Vars(sys, env, ps, core)), Declared(Opened(env, ps, core)));
  }

  /** The declared names are those of the renderers, the supplied ones the topology asks for,
      and the bootstrap variables the scripts reference: nothing is lost and nothing else added. */
  lemma {:induction false} DeclaredExactly(sys: System, env: Env, ps: seq<Part>, core: seq<Doc>, flags: Flags,
        n: string)
    ensures n in Declared(FixedDocs(sys, env, ps, core, flags)) <==>
            || n in Declared(core)
            || (NeedsKeys(env, ps) && n == SSH_KEYS.name)
            || (HasDatabase(ps) && n == DB_PASSWORD.name)
            || BootstrapUses(sys, env, ps, n)
  {
    hide NeedsKeys, HasDatabase, Base, Stripped, Headers, FixedDocs, Vars, Opened, BootstrapUses, Decls, Declared;
    DeclaredSplit(sys, env, ps, core, flags);
    VarsAreExact(sys, env, ps, core);
    BaseNames(env, ps, core);
    DedupeKeepsNames(core, n);
    ZoneDeclared(core, n);
  }

  /** The same written out: which variables a module declares, from what the author asked for. */
  lemma {:induction false} DeclaredMeaning(sys: System, env: Env, ps: seq<Part>, core: seq<Doc>, flags: Flags, n: string)
    ensures n in Declared(FixedDocs(sys, env, ps, core, flags)) <==>
            || n in Declared(core)
            || (n == "do_ssh_keys" && Lower(env.provider) == "digitalocean" &&
                (env.vault.Some? || exists i :: 0 <= i < |ps| && ps[i].typ == "virtual-machine-scale-group"))
            || (n == "db_password" && exists i :: 0 <= i < |ps| && ps[i].typ == "managed-database")
            || (Lower(env.provider) == "digitalocean" && (n in sys.known.sensitive || n in sys.known.plain) &&
                Contains(Concat(AllScripts(ps)), "${var." + n + "}"))
  {
    hide FixedDocs, Declared, Contains, Concat, AllScripts;
    DeclaredExactly(sys, env, ps, core, flags, n);
  }

  lemma {:induction false} ZoneDeclared(core: seq<Doc>, n: string)
    ensures n in Declared(Headers(ZoneHeader(core)) + Stripped(core)) <==>
            n in Declared(Stripped(core)) || (ZONE in Decls(core) && n == ZONE.name)
  {
    hide Headers, Stripped;
    DeclaredAfter(ZoneHeader(core), Stripped(core));
    OneName(ZoneHeader(core), ZONE);
  }

  // ----- bootstrap references -----

  lemma {:induction false} ScriptIn(ps: seq<Part>, i: nat, s: string)
    requires i < |ps| && s in Scripts(ps[i])
    ensures s in AllScripts(ps)
  {
    if i < |ps| - 1 {
      ScriptIn(ps[..|ps| - 1], i, s);
    }
  }

  /** A listed variable referenced anywhere in a scale-group script is declared, whatever
      order the scripts of a group are read in. */
  lemma {:induction false} ReferencedIsDeclared(sys: System, env: Env, ps: seq<Part>, core: seq<Doc>, flags: Flags,
                                                i: nat, script: string, n: string)
    requires OnDigitalOcean(env) && i < |ps| && script in Scripts(ps[i])
    requires Listed(sys.known, n) && Contains(script, VariableRef(n))
    ensures n in Declared(FixedDocs(sys, env, ps, core, flags))
  {
    hide FixedDocs, Scripts, Contains, Listed, Declared;
    ScriptIn(ps, i, script);
    var k :| 0 <= k < |AllScripts(ps)| && AllScripts(ps)[k] == script;
    ContainsInConcat(AllScripts(ps), k, VariableRef(n));
    DeclaredExactly(sys, env, ps, core, flags, n);
  }

  /** In the author's terms: wherever a scale group's own script, or the script it carries for any
      provider, holds a listed variable's reference, the module declares that variable. */
  lemma {:induction false} BootstrapVariableDeclared(sys: System, env: Env, ps: seq<Part>, core: seq<Doc>, flags: Flags,
        i: nat, k: nat, n: string)
    requires OnDigitalOcean(env) && i < |ps|
    requires ps[i].typ == "virtual-machine-scale-group" && ps[i].scaleGroup.Some?
    requires n in sys.known.sensitive || n in sys.known.plain
    requires var g := ps[i].scaleGroup.value;
             || Contains(g.userData, "${var." + n + "}")
             || (k < |g.byProvider| && Contains(g.byProvider[k].1, "${var." + n + "}"))
    ensures n in Declared(FixedDocs(sys, env, ps, core, flags))
  {
    hide FixedDocs, Scripts, Contains, Declared;
    var g := ps[i].scaleGroup.value;
    var script := if Contains(g.userData, "${var." + n + "}") then g.userData else g.byProvider[k].1;
    ScriptsExact(ps[i], script);
    ReferencedIsDeclared(sys, env, ps, core, flags, i, script, n);
  }

  /** And wherever such a script reads a known Vault path, the module holds its data source and
      pins the Vault provider. */
  lemma {:induction false} BootstrapSecretRead(sys: System, env: Env, ps: seq<Part>, core: seq<Doc>, flags: Flags,
        i: nat, k: nat, path: string)
    requires OnDigitalOcean(env) && i < |ps|
    requires ps[i].typ == "virtual-machine-scale-group" && ps[i].scaleGroup.Some? && path in sys.known.paths
    requires var g, ref := ps[i].scaleGroup.value, "data.vault_kv_secret_v2." + sys.known.leaf(path) + ".";
             Contains(g.userData, ref) || (k < |g.byProvider| && Contains(g.byProvider[k].1, ref))
    ensures var out := FixedDocs(sys, env, ps, core, flags);
            && sys.known.leaf(path) in Labels(Decls(out))
            && out != [] && out[0].kind.RequiredProviders? && ("vault", "hashicorp/vault") in out[0].kind.entries
  {
    hide Scripts, Contains, Labels, Decls, Declarations, Binding, CloudSource, Blob;
    var g, leaf := ps[i].scaleGroup.value, sys.known.leaf(path);
    var script := if Contains(g.userData, SecretRef(leaf)) then g.userData else g.byProvider[k].1;
    ScriptsExact(ps[i], script);
    InBlob(ps, i, script, SecretRef(leaf));
    var at :| 0 <= at < |sys.known.paths| && sys.known.paths[at] == path;
    assert ScriptsRead(sys, env, ps, leaf);
    SecretsOnce(sys, env, ps, core, flags);
    assert VaultNeeded(sys, env, ps);
    ProvidersPinned(env.provider, flags, true);
  }

  lemma {:induction false} InBlob(ps: seq<Part>, i: nat, script: string, sub: string)
    requires i < |ps| && script in Scripts(ps[i]) && Contains(script, sub)
    ensures Contains(Blob(ps), sub)
  {
    hide Scripts, Contains;
    ScriptIn(ps, i, script);
    var k :| 0 <= k < |AllScripts(ps)| && AllScripts(ps)[k] == script;
    ContainsInConcat(AllScripts(ps), k, sub);
  }

  /** The declarations the topology asks for, in full: the database password is sensitive. */
  lemma {:induction false} SuppliedDeclarations(sys: System, env: Env, ps: seq<Part>, core: seq<Doc>, flags: Flags)
    ensures var decls := Decls(FixedDocs(sys, env, ps, core, flags));
            && ((exists i :: 0 <= i < |ps| && ps[i].typ == "managed-database") ==>
                Variable("db_password", true) in decls)
            && (OnDigitalOcean(env) && (env.vault.Some? ||
                  exists i :: 0 <= i < |ps| && ps[i].typ == "virtual-machine-scale-group") ==>
                Variable("do_ssh_keys", false) in decls)
            && (Variable("cloudflare_zone_id", false) in Decls(core) ==> Variable("cloudflare_zone_id", false) in decls)
  {
    hide FixedDocs, Vars, Secrets, Stripped, Decls;
    DeclsOfFixed(sys, env, ps, core, flags);
    var base := Base(env, ps, core);
    var rest := Decls(Stripped(core));
    forall d | d in base ensures d in Decls(FixedDocs(sys, env, ps, core, flags)) {
      var v, t := Vars(sys, env, ps, core), Secrets(sys, env, ps, core);
      assert d in base + rest;
      assert d in v + (base + rest);
      assert d in t + (v + (base + rest));
    }
  }

  /** The declaration added for a bootstrap variable is sensitive exactly when some service
      lists it as sensitive, even if another lists it as plain. */
  lemma {:induction false} AddedSensitivity(sys: System, env: Env, ps: seq<Part>, core: seq<Doc>, flags: Flags,
        n: string)
    requires BootstrapUses(sys, env, ps, n) && n !in Declared(Opened(env, ps, core))
    ensures Variable(n, n in sys.known.sensitive) in Decls(FixedDocs(sys, env, ps, core, flags))
    ensures Variable(n, n !in sys.known.sensitive) !in Decls(FixedDocs(sys, env, ps, core, flags))
  {
    hide Base, Stripped, Headers, FixedDocs, Vars, Secrets, Opened, BootstrapUses;
    DeclsOfFixed(sys, env, ps, core, flags);
    SecretsAreExact(sys, env, ps, core);
    VarsAreExact(sys, env, ps, core);
    OpenedDecls(env, ps, core);
    NamesMember(Decls(Opened(env, ps, core)), n);
    NamesMember(Vars(sys, env, ps, core), n);
  }

  lemma {:induction false} OpenedDecls(env: Env, ps: seq<Part>, core: seq<Doc>)
    ensures Decls(Opened(env, ps, core)) == Base(env, ps, core) + Decls(Stripped(core))
  {
    hide Base, Stripped, Headers;
    DeclaredAfter(Base(env, ps, core), Stripped(core));
  }

  // ----- secrets -----

  lemma {:induction false} StrippedLabels(docs: seq<Doc>)
    ensures Labels(Decls(Stripped(docs))) == Labels(Decls(docs))
  {
    if docs != [] {
      var init, last := docs[..|docs| - 1], docs[|docs| - 1];
      StrippedLabels(init);
      assert Stripped(docs) == Stripped(init) + [Strip(last)];
      assert Decls(Stripped(docs)) == Decls(Stripped(docs)[..|docs| - 1]) + Strip(last).decls;
      assert Stripped(docs)[..|docs| - 1] == Stripped(init);
      RemoveKeepsLabels(last.decls);
      LabelsConcat(Decls(Stripped(init)), Strip(last).decls);
      LabelsConcat(Decls(init), last.decls);
    }
  }

  lemma {:induction false} RemoveKeepsLabels(decls: seq<Decl>)
    ensures Labels(RemoveFirst(decls, ZONE)) == Labels(decls)
  {
    if decls != [] {
      assert decls == [decls[0]] + decls[1..];
      NamesFirst(decls[0], decls[1..]);
      if decls[0] != ZONE {
        RemoveKeepsLabels(decls[1..]);
        NamesFirst(decls[0], RemoveFirst(decls[1..], ZONE));
      }
    }
  }

  lemma {:induction false} SecretsSplit(sys: System, env: Env, ps: seq<Part>, core: seq<Doc>, flags: Flags)
    ensures Labels(Decls(FixedDocs(sys, env, ps, core, flags))) == Labels(Secrets(sys, env, ps, core)) + Labels(Decls(core))
    ensures Labels(Decls(Headers(Vars(sys, env, ps, core)) + Opened(env, ps, core))) == Labels(Decls(core))
  {
    hide Headers, Base, Stripped, FixedDocs, Vars, Secrets, BootstrapUses, Decls, Labels, Opened;
    var base, rest := Base(env, ps, core), Decls(Stripped(core));
    var vars, secrets := Vars(sys, env, ps, core), Secrets(sys, env, ps, core);
    DeclsOfFixed(sys, env, ps, core, flags);
    VarsAreExact(sys, env, ps, core);
    BaseVariables(env, ps, core);
    NoLabels(vars);
    NoLabels(base);
    LabelsConcat(secrets, vars + (base + rest));
    LabelsConcat(vars, base + rest);
    LabelsConcat(base, rest);
    DeclaredAfter(vars, Opened(env, ps, core));
    OpenedDecls(env, ps, core);
    StrippedLabels(core);
  }

  lemma {:induction false} BaseVariables(env: Env, ps: seq<Part>, core: seq<Doc>)
    ensures forall d :: d in Base(env, ps, core) ==> d.Variable?
  {
  }

  /** Each Vault leaf has one data source if the renderers declare none twice, and every known
      leaf that a script references has one. */
  lemma {:induction false} SecretsOnce(sys: System, env: Env, ps: seq<Part>, core: seq<Doc>, flags: Flags)
    ensures Distinct(Labels(Decls(FixedDocs(sys, env, ps, core, flags)))) <==> Distinct(Labels(Decls(core)))
    ensures forall l :: l in Labels(Decls(FixedDocs(sys, env, ps, core, flags))) <==>
              l in Labels(Decls(core)) || ScriptsRead(sys, env, ps, l)
  {
    hide FixedDocs, Vars, Secrets, Opened, ScriptsRead, Decls, Headers;
    SecretsSplit(sys, env, ps, core, flags);
    SecretsAreExact(sys, env, ps, core);
    DistinctConcat(Labels(Secrets(sys, env, ps, core)), Labels(Decls(core)));
  }

  // ----- the order of the documents -----

  /** Documents put before and after a list, none of them a service or a network, leave every
      document of the list after what it names. */
  lemma {:induction false} WellPlacedSurvives(pre: seq<Doc>, core: seq<Doc>, post: seq<Doc>)
    requires Core.WellPlaced(core) && Core.OneNetwork(core) && Neutral(pre) && Neutral(post)
    ensures Core.WellPlaced(pre + Stripped(core) + post) && Core.OneNetwork(pre + Stripped(core) + post)
  {
    hide Core.NetworkBefore, Core.FirewallBefore, Core.OneNetwork;
    var out := pre + Stripped(core) + post;
    forall j | 0 <= j < |out| ensures Core.Grounded(out, j) {
      if |pre| <= j < |pre| + |core| {
        assert Core.Grounded(core, j - |pre|);
        assert PlacementOf(out[j]) == PlacementOf(core[j - |pre|]);
        BeforeSurvives(pre, core, post, j - |pre|);
      } else {
        assert PlacementOf(out[j]) == Nowhere;
      }
    }
    NetworkSurvives(pre, core, post);
  }

  lemma {:induction false} NetworkSurvives(pre: seq<Doc>, core: seq<Doc>, post: seq<Doc>)
    requires Core.OneNetwork(core) && Neutral(pre) && Neutral(post)
    ensures Core.OneNetwork(pre + Stripped(core) + post)
  {
    var out := pre + Stripped(core) + post;
    forall j | 0 <= j < |out| && out[j].kind.Network?
      ensures |pre| <= j < |pre| + |core| && core[j - |pre|].kind.Network?
    {
    }
  }

  lemma {:induction false} BeforeSurvives(pre: seq<Doc>, core: seq<Doc>, post: seq<Doc>, j: nat)
    requires j < |core|
    ensures var out, p := pre + Stripped(core) + post, PlacementOf(core[j]);
            p.On? ==>
              && (Core.NetworkBefore(core, j, p) ==> Core.NetworkBefore(out, |pre| + j, p))
              && (Core.FirewallBefore(core, j, p) ==> Core.FirewallBefore(out, |pre| + j, p))
  {
    var out, p := pre + Stripped(core) + post, PlacementOf(core[j]);
    forall i | 0 <= i < j ensures out[|pre| + i].kind == core[i].kind {
    }
    if p.On? && Core.NetworkBefore(core, j, p) {
      var i :| 0 <= i < j && core[i].kind.Network? &&
               core[i].kind.name == p.network && p.subnets <= core[i].kind.subnets;
      assert out[|pre| + i].kind == core[i].kind;
    }
    if p.On? && Core.FirewallBefore(core, j, p) && p.firewall != "" {
      var i :| 0 <= i < j && core[i].kind.Firewall? &&
               core[i].kind.name == p.firewall && core[i].kind.network == p.network;
      assert out[|pre| + i].kind == core[i].kind;
    }
  }

  predicate Neutral(docs: seq<Doc>) {
    forall doc :: doc in docs ==> PlacementOf(doc) == Nowhere && !doc.kind.Network? && !doc.kind.Service?
  }

  /** The fix-ups keep the agreement of the passes: in the final list there is at most one
      network, and every placed document comes after it and after the firewall it names. */
  lemma {:induction false} FinalOrder(sys: System, env: Env, ps: seq<Part>)
    requires VaultOk(sys.world, env)
    ensures Core.WellPlaced(FinalDocs(sys, env, ps)) && Core.OneNetwork(FinalDocs(sys, env, ps))
  {
    hide FixedDocs, Core.CoreDocs, Core.WellPlaced, Core.OneNetwork;
    var core := Core.CoreDocs(sys.world, env, ps);
    Core.PlacedAfterNetwork(sys.world, env, ps);
    var pre, post := Around(sys, env, ps, core, ProviderFlags(sys, env, ps));
    WellPlacedSurvives(pre, core, post);
  }

  /** The final list is the stripped core with neutral documents around it. */
  lemma {:induction false} Around(sys: System, env: Env, ps: seq<Part>, core: seq<Doc>, flags: Flags)
    returns (pre: seq<Doc>, post: seq<Doc>)
    ensures FixedDocs(sys, env, ps, core, flags) == pre + Stripped(core) + post && Neutral(pre) && Neutral(post)
    ensures forall i :: 0 < i < |pre| ==> !pre[i].kind.RequiredProviders?
    ensures forall doc :: doc in post ==> !doc.kind.RequiredProviders?
    ensures forall doc :: doc in pre || doc in post ==> doc.refs == {}
  {
    hide ProviderDocs, Binding, Base, Stripped, Headers, VaultNeeded, Neutral, Vars, Secrets;
    var base, vars, secrets := Base(env, ps, core), Vars(sys, env, ps, core), Secrets(sys, env, ps, core);
    var docs := Declarations(sys, env, ps, core);
    var providers := ProviderDocs(env, flags, VaultNeeded(sys, env, ps));
    var heads := Headers(secrets) + (Headers(vars) + Headers(base));
    pre, post := providers + heads, Binding(sys, env, docs);
    assert docs == heads + Stripped(core);
    HeadsPlain(secrets, vars, base);
    AroundPlain(sys, env, flags, VaultNeeded(sys, env, ps), heads, docs);
  }

  lemma {:induction false} HeadsPlain(secrets: seq<Decl>, vars: seq<Decl>, base: seq<Decl>)
    ensures forall doc :: doc in Headers(secrets) + (Headers(vars) + Headers(base)) ==>
              doc.kind == Declaration && doc.refs == {}
  {
    PlainKinds(secrets);
    PlainKinds(vars);
    PlainKinds(base);
  }

  lemma {:induction false} AroundPlain(sys: System, env: Env, flags: Flags, needsVault: bool, heads: seq<Doc>,
        docs: seq<Doc>)
    requires forall doc :: doc in heads ==> doc.kind == Declaration && doc.refs == {}
    ensures var pre, post := ProviderDocs(env, flags, needsVault) + heads, Binding(sys, env, docs);
            && Neutral(pre) && Neutral(post)
            && (forall i :: 0 < i < |pre| ==> !pre[i].kind.RequiredProviders?)
            && (forall doc :: doc in post ==> !doc.kind.RequiredProviders?)
            && forall doc :: doc in pre || doc in post ==> doc.refs == {}
  {
    hide ProviderEntries;
    var providers := ProviderDocs(env, flags, needsVault);
    var pre := providers + heads;
    forall i | 0 < i < |pre| ensures !pre[i].kind.RequiredProviders? {
      assert pre[i] == heads[i - |providers|];
    }
  }

  /** There is a network document exactly when some document is placed. */
  lemma {:induction false} FinalNetworkIffPlaced(sys: System, env: Env, ps: seq<Part>)
    requires VaultOk(sys.world, env) && Hostable(ps)
    requires Dispatched(sys.world, env, WiresOf(sys.world.tables, env, ps), ps, |ps|)
    requires env.vault.Some? ==> sys.world.vaultNodes(NetworkName(env), NodeCount(env.vault.value)).value != []
    ensures Core.SomePlaced(FinalDocs(sys, env, ps)) <==> HasNetworkDoc(FinalDocs(sys, env, ps))
  {
    hide FixedDocs, Hostable, Dispatched, HasNetwork, Core.CoreDocs, Stripped;
    var core := Core.CoreDocs(sys.world, env, ps);
    Core.NetworkIffPlaced(sys.world, env, ps);
    var pre, post := Around(sys, env, ps, core, ProviderFlags(sys, env, ps));
    KindsSurvive(pre, core, post);
    NetworkShown(sys.world, env, ps);
  }

  ghost predicate HasNetworkDoc(docs: seq<Doc>) {
    exists i :: 0 <= i < |docs| && docs[i].kind.Network?
  }

  lemma {:induction false} KindsSurvive(pre: seq<Doc>, core: seq<Doc>, post: seq<Doc>)
    requires Neutral(pre) && Neutral(post)
    ensures var out := pre + Stripped(core) + post;
            && (Core.SomePlaced(out) <==> Core.SomePlaced(core))
            && (HasNetworkDoc(out) <==> HasNetworkDoc(core))
  {
    var out := pre + Stripped(core) + post;
    forall i | 0 <= i < |core| ensures out[|pre| + i].kind == core[i].kind {
    }
    forall j | 0 <= j < |out| && !(|pre| <= j < |pre| + |core|)
      ensures PlacementOf(out[j]) == Nowhere && !out[j].kind.Network?
    {
    }
    if Core.SomePlaced(core) {
      var i :| 0 <= i < |core| && PlacementOf(core[i]).On?;
      assert PlacementOf(out[|pre| + i]).On?;
    }
    if i :| 0 <= i < |core| && core[i].kind.Network? {
      assert out[|pre| + i].kind.Network?;
    }
    if Core.SomePlaced(out) {
      var j :| 0 <= j < |out| && PlacementOf(out[j]).On?;
      assert PlacementOf(core[j - |pre|]).On?;
    }
    if j :| 0 <= j < |out| && out[j].kind.Network? {
      assert core[j - |pre|].kind.Network?;
    }
  }

  lemma {:induction false} NetworkShown(w: World, env: Env, ps: seq<Part>)
    requires VaultOk(w, env)
    ensures HasNetwork(w.tables, env, ps) <==> HasNetworkDoc(Core.CoreDocs(w, env, ps))
  {
    hide HasNetwork, Guarded, Services, VaultDocs;
    var docs, shared := Core.CoreDocs(w, env, ps), Core.Shared(w, env, ps);
    if HasNetwork(w.tables, env, ps) {
      assert shared[|Core.ProjectDocs(env)|] == NetworkDoc(w, env);
      assert docs[|Core.ProjectDocs(env)|] == NetworkDoc(w, env);
    }
    if i :| 0 <= i < |docs| && docs[i].kind.Network? {
      Core.NetworkIndex(w, env, ps, i);
    }
  }

  // ----- providers -----

  ghost predicate BlockNeeded(sys: System, env: Env, ps: seq<Part>, flags: Flags) {
    var source := CloudSource(Lower(env.provider));
    flags.cloudflare || VaultNeeded(sys, env, ps) || (source.Some? && Foreign(source.value))
  }

  /** A module has at most one required_providers block, at its head, and has one exactly when
      something outside Terraform's default registry namespace, or Vault, is used. */
  lemma {:induction false} OneProvidersBlock(sys: System, env: Env, ps: seq<Part>)
    requires VaultOk(sys.world, env)
    ensures var out := FinalDocs(sys, env, ps);
            && (forall i :: 0 < i < |out| ==> !out[i].kind.RequiredProviders?)
            && ((out != [] && out[0].kind.RequiredProviders?) <==> BlockNeeded(sys, env, ps, ProviderFlags(sys, env, ps)))
  {
    hide Core.CoreDocs, CloudSource, VaultNeeded, Stripped, Headers, Base, ProviderFlags, Vars, Secrets;
    var core, flags := Core.CoreDocs(sys.world, env, ps), ProviderFlags(sys, env, ps);
    Core.NoProviders(sys.world, env, ps);
    var docs := Declarations(sys, env, ps, core);
    PlainKinds(Secrets(sys, env, ps, core));
    PlainKinds(Vars(sys, env, ps, core));
    PlainKinds(Base(env, ps, core));
    StrippedKinds(core);
    assert forall doc :: doc in docs ==> !doc.kind.RequiredProviders?;
    var rest := docs + Binding(sys, env, docs);
    assert forall doc :: doc in rest ==> !doc.kind.RequiredProviders?;
    var providers := ProviderDocs(env, flags, VaultNeeded(sys, env, ps));
    assert FinalDocs(sys, env, ps) == providers + rest;
    ShiftedKinds(providers, rest);
  }

  /** Some scale-group script reads a known Vault path. */
  predicate ReadsVault(sys: System, ps: seq<Part>) {
    exists path :: path in sys.known.paths
      && Contains(Concat(AllScripts(ps)), "data.vault_kv_secret_v2." + sys.known.leaf(path) + ".")
  }

  /** In the author's terms: the block is there exactly when the provider is not one Terraform
      finds unaided, a component pins Cloudflare, or a DigitalOcean script reads a known Vault path. */
  lemma {:induction false} ProvidersBlockIff(sys: System, env: Env, ps: seq<Part>)
    requires VaultOk(sys.world, env) && CloudSource(Lower(env.provider)).Some?
    ensures var out := FinalDocs(sys, env, ps);
            (out != [] && out[0].kind.RequiredProviders?) <==>
            || Lower(env.provider) !in ["aws", "gcp", "azure", "vsphere"]
            || (exists i :: 0 <= i < |ps| && Core.Pins(sys.world, env, ps, i, Core.Cloudflare))
            || (Lower(env.provider) == "digitalocean" && ReadsVault(sys, ps))
  {
    hide FinalDocs, ProviderFlags, CloudSource, Foreign, Core.Pins;
    OneProvidersBlock(sys, env, ps);
    ForeignIff(Lower(env.provider));
    Core.FlagsExact(sys.world, env, ps, |ps|, Core.Cloudflare);
    FlagsAre(sys, env, ps);
    VaultNeededIff(sys, env, ps);
  }

  lemma {:induction false} FlagsAre(sys: System, env: Env, ps: seq<Part>)
    ensures ProviderFlags(sys, env, ps) ==
            ServiceFlags(sys.world, env, WiresOf(sys.world.tables, env, ps), ps, |ps|)
  {
  }

  lemma {:induction false} VaultNeededIff(sys: System, env: Env, ps: seq<Part>)
    ensures VaultNeeded(sys, env, ps) <==>
            Lower(env.provider) == "digitalocean" && ReadsVault(sys, ps)
  {
    hide Contains, Concat, AllScripts;
    var paths := sys.known.paths;
    if path :| path in paths && Contains(Blob(ps), SecretRef(sys.known.leaf(path))) {
      var k :| 0 <= k < |paths| && paths[k] == path;
    }
  }

  /** A DigitalOcean module always pins its provider's source. */
  lemma {:induction false} DigitalOceanIsPinned(sys: System, env: Env, ps: seq<Part>)
    requires VaultOk(sys.world, env) && OnDigitalOcean(env)
    ensures var out := FinalDocs(sys, env, ps);
            out != [] && out[0].kind.RequiredProviders? &&
            ("digitalocean", "digitalocean/digitalocean") in out[0].kind.entries
  {
    hide Core.CoreDocs, VaultNeeded, ProviderFlags, CloudSource, Declarations, Binding, Foreign, VaultOk;
    var flags, needsVault := ProviderFlags(sys, env, ps), VaultNeeded(sys, env, ps);
    DigitalOceanSource();
    ForeignIff("digitalocean");
    assert ProviderEntries(env.provider, flags, needsVault).Some?;
    ProvidersPinned(env.provider, flags, needsVault);
  }

  lemma {:induction false} DigitalOceanSource()
    ensures CloudSource("digitalocean") == Some(("digitalocean", "digitalocean/digitalocean"))
    ensures "digitalocean" !in ["aws", "gcp", "azure", "vsphere"]
  {
    assert |"digitalocean"| == 12 && |"vsphere"| == 7;
  }

  lemma {:induction false} PlainKinds(decls: seq<Decl>)
    ensures forall doc :: doc in Headers(decls) ==> doc.kind == Declaration && doc.refs == {}
  {
  }

  lemma {:induction false} StrippedKinds(docs: seq<Doc>)
    requires forall doc :: doc in docs ==> !doc.kind.RequiredProviders?
    ensures forall doc :: doc in Stripped(docs) ==> !doc.kind.RequiredProviders?
  {
    forall doc | doc in Stripped(docs) ensures !doc.kind.RequiredProviders? {
      var i :| 0 <= i < |docs| && Stripped(docs)[i] == doc;
      assert docs[i] in docs;
    }
  }

  lemma {:induction false} ShiftedKinds(head: seq<Doc>, rest: seq<Doc>)
    requires |head| <= 1 && (forall doc :: doc in head ==> doc.kind.RequiredProviders?)
    requires forall doc :: doc in rest ==> !doc.kind.RequiredProviders?
    ensures forall i :: 0 < i < |head + rest| ==> !(head + rest)[i].kind.RequiredProviders?
    ensures (head + rest != [] && (head + rest)[0].kind.RequiredProviders?) <==> head != []
  {
    forall i | |head| <= i < |head + rest| ensures (head + rest)[i] in rest {
      assert (head + rest)[i] == rest[i - |head|];
    }
    if head != [] {
      assert (head + rest)[0] == head[0] && head[0] in head;
    }
  }

  /** Whenever the fix-ups add a Vault data source they pin the Vault provider. */
  lemma {:induction false} SecretsArePinned(sys: System, env: Env, ps: seq<Part>, core: seq<Doc>, flags: Flags)
    requires Secrets(sys, env, ps, core) != []
    ensures var out := FixedDocs(sys, env, ps, core, flags);
            out != [] && out[0].kind.RequiredProviders? && VAULT in out[0].kind.entries
  {
    hide CloudSource, Contains, Blob, Vars, Secrets, Headers, Opened;
    var secrets := Secrets(sys, env, ps, core);
    var d := secrets[0];
    SecretsAreExact(sys, env, ps, core);
    assert d in secrets && d.Secret?;
    assert secrets == [d] + secrets[1..];
    NamesFirst(d, secrets[1..]);
    assert d.leaf in Labels(secrets);
    assert ScriptsRead(sys, env, ps, d.leaf);
    assert VaultNeeded(sys, env, ps);
    assert ProviderEntries(env.provider, flags, true).Some?;
    ProvidersPinned(env.provider, flags, true);
  }

  /** A DNS component in Cloudflare's own environment makes the block pin one name twice. */
  lemma {:induction false} CloudflareDNSPinsTwice(sys: System, env: Env, p: Part)
    requires sys.world.tables == TABLES && env.provider == "cloudflare" && VaultOk(sys.world, env)
    requires p.typ == "dns" && "dns" in p.configs && p.placement == "" && p.hostVM == ""
    requires sys.world.render(0, p, Nowhere, false) == Some(Body([], {}, Flags(true, false, false)))
    ensures var out := FinalDocs(sys, env, [p]);
            out != [] && out[0].kind.RequiredProviders? && !Distinct(Locals(out[0].kind.entries))
  {
    hide Core.CoreDocs, Declarations, Binding, CloudSource, ServiceFlags, WiresOf, VaultNeeded, Locals, VaultOk;
    var flags := ProviderFlags(sys, env, [p]);
    assert flags.cloudflare by {
      DNSFlags(sys.world, env, WiresOf(sys.world.tables, env, [p]), p);
    }
    assert Lower(env.provider) == "cloudflare";
    ProvidersDistinctIff(env.provider, flags, VaultNeeded(sys, env, [p]));
  }

  lemma {:induction false} DNSFlags(w: World, env: Env, wires: Wires, p: Part)
    requires w.tables == TABLES && env.provider == "cloudflare"
    requires p.typ == "dns" && "dns" in p.configs && p.placement == "" && p.hostVM == ""
    requires w.render(0, p, Nowhere, false) == Some(Body([], {}, Flags(true, false, false)))
    ensures ServiceFlags(w, env, wires, [p], 1).cloudflare
  {
    hide WiringOf, Configured, UnwiredType, Mitigation.Mitigatable;
    DNSArm(env, [p], p);
    assert Dispatch(w, env, wires, [p], 0) == Emitted(Doc(Service(0, Nowhere), [], {}), Flags(true, false, false));
    assert ServiceFlags(w, env, wires, [p], 1) == ServiceFlags(w, env, wires, [p], 0).Or(Flags(true, false, false));
  }

  lemma {:induction false} DNSArm(env: Env, ps: seq<Part>, p: Part)
    requires p.typ == "dns" && "dns" in p.configs
    ensures WiringOf("dns") == Some(Unwired) && !TABLES.mitigable("dns")
    ensures Configured(p) && Clustered(env, ps, p)
  {
    var typ := "dns";
    assert |typ| == 3 && typ[0] == 'd';
    assert typ in EDGE_TYPES;
    if ComputeType(typ) || NetworkedType(typ) {
      ApartEdge(typ);
    }
    DNSNotMitigated();
  }

  lemma {:induction false} DNSNotMitigated()
    ensures !TABLES.mitigable("dns")
  {
    var typ := "dns";
    TrimSolid(typ);
    assert Lower(typ) == typ && Mitigation.MitigationType(typ) == typ;
    assert |typ| == 3 && typ[0] == 'd' && typ !in Mitigation.SELF_HOSTED;
  }

  // ----- closedness -----

  predicate RefsMet(docs: seq<Doc>, names: seq<string>) {
    forall i, n :: 0 <= i < |docs| && n in docs[i].refs ==> n in names
  }

  /** The variables the assembler vouches for when it renders a document. */
  predicate Supplied(sys: System, env: Env, ps: seq<Part>, doc: Doc, n: string) {
    match doc.kind
    case Service(i, _) =>
      i < |ps| &&
      ((ps[i].typ == "managed-database" && n == DB_PASSWORD.name) ||
       (ps[i].typ == SCALE_GROUP && OnDigitalOcean(env) &&
        (n == SSH_KEYS.name ||
         (Listed(sys.known, n) && exists s :: s in Scripts(ps[i]) && Contains(s, VariableRef(n))))))
    case VaultNode(_) => OnDigitalOcean(env) && env.vault.Some? && n == SSH_KEYS.name
    case _ => false
  }

  predicate SelfContained(sys: System, env: Env, ps: seq<Part>, docs: seq<Doc>) {
    forall i, n :: 0 <= i < |docs| && n in docs[i].refs ==> n in Names(docs[i].decls) || Supplied(sys, env, ps, docs[i], n)
  }

  /** A variable the module declares somewhere: a renderer does, or the assembler for the
      topology or the scripts. */
  ghost predicate Provided(sys: System, env: Env, ps: seq<Part>, core: seq<Doc>, n: string) {
    || n in Declared(core)
    || (NeedsKeys(env, ps) && n == SSH_KEYS.name)
    || (HasDatabase(ps) && n == DB_PASSWORD.name)
    || BootstrapUses(sys, env, ps, n)
  }

  /** Terraform refuses a reference to an undeclared variable. The module is free of them
      exactly when every renderer's references, the network's and the firewall's included, are
      to variables that a renderer declares or the assembler knows to supply. */
  lemma {:induction false} ModuleClosedIff(sys: System, env: Env, ps: seq<Part>, core: seq<Doc>, flags: Flags)
    ensures RefsMet(FixedDocs(sys, env, ps, core, flags), Declared(FixedDocs(sys, env, ps, core, flags))) <==>
            forall k, n :: 0 <= k < |core| && n in core[k].refs ==> Provided(sys, env, ps, core, n)
  {
    hide FixedDocs, Declared, Stripped, NeedsKeys, HasDatabase, BootstrapUses;
    var out := FixedDocs(sys, env, ps, core, flags);
    var pre, post := Around(sys, env, ps, core, flags);
    forall n ensures n in Declared(out) <==> Provided(sys, env, ps, core, n) {
      DeclaredExactly(sys, env, ps, core, flags, n);
    }
    forall i, n | 0 <= i < |out| && n in out[i].refs ensures exists k :: 0 <= k < |core| && n in core[k].refs {
      var k := RefFrom(pre, core, post, i, n);
    }
    forall k, n | 0 <= k < |core| && n in core[k].refs ensures |pre| + k < |out| && n in out[|pre| + k].refs {
      RefTo(pre, core, post, k);
    }
  }

  lemma {:induction false} RefTo(pre: seq<Doc>, core: seq<Doc>, post: seq<Doc>, k: nat)
    requires k < |core|
    ensures var out := pre + Stripped(core) + post; |pre| + k < |out| && out[|pre| + k].refs == core[k].refs
  {
  }

  /** The final module is closed if each renderer references only what it declares itself or
      what the assembler supplies for that kind of component. */
  lemma {:induction false} ModuleClosed(sys: System, env: Env, ps: seq<Part>, core: seq<Doc>, flags: Flags)
    requires SelfContained(sys, env, ps, core)
    ensures RefsMet(FixedDocs(sys, env, ps, core, flags), Declared(FixedDocs(sys, env, ps, core, flags)))
  {
    hide FixedDocs, Supplied, Declared, Stripped;
    var out := FixedDocs(sys, env, ps, core, flags);
    var pre, post := Around(sys, env, ps, core, flags);
    forall i, n | 0 <= i < |out| && n in out[i].refs ensures n in Declared(out) {
      var k := RefFrom(pre, core, post, i, n);
      assert core[k] in core;
      if n in Names(core[k].decls) {
        OwnName(core, k, n);
        DeclaredExactly(sys, env, ps, core, flags, n);
      } else {
        SuppliedIsDeclared(sys, env, ps, core, flags, core[k], n);
      }
    }
  }

  lemma {:induction false} RefFrom(pre: seq<Doc>, core: seq<Doc>, post: seq<Doc>, i: nat, n: string) returns (k: nat)
    requires i < |pre + Stripped(core) + post| && n in (pre + Stripped(core) + post)[i].refs
    requires forall doc :: doc in pre || doc in post ==> doc.refs == {}
    ensures k < |core| && n in core[k].refs
  {
    var out := pre + Stripped(core) + post;
    assert forall x :: 0 <= x < |pre| ==> out[x] in pre;
    assert forall x :: |pre| + |core| <= x < |out| ==> out[x] == post[x - |pre| - |core|];
    assert forall x :: |pre| + |core| <= x < |out| ==> out[x] in post;
    k := i - |pre|;
  }

  lemma {:induction false} OwnName(docs: seq<Doc>, k: nat, n: string)
    requires k < |docs| && n in Names(docs[k].decls)
    ensures n in Declared(docs)
  {
    NamesMember(docs[k].decls, n);
    NamesMember(Decls(docs), n);
    DeclsMember(docs, Variable(n, true));
    DeclsMember(docs, Variable(n, false));
  }

  lemma {:induction false} SuppliedIsDeclared(sys: System, env: Env, ps: seq<Part>, core: seq<Doc>, flags: Flags,
                                              doc: Doc, n: string)
    requires Supplied(sys, env, ps, doc, n)
    ensures n in Declared(FixedDocs(sys, env, ps, core, flags))
  {
    hide FixedDocs, Contains, Listed, Scripts, Declared;
    DeclaredExactly(sys, env, ps, core, flags, n);
    match doc.kind {
      case Service(i, _) => {
        if Listed(sys.known, n) && OnDigitalOcean(env) {
          if s :| s in Scripts(ps[i]) && Contains(s, VariableRef(n)) {
            ReferencedIsDeclared(sys, env, ps, core, flags, i, s, n);
          }
        }
      }
      case _ => {}
    }
  }

  /** A serverless function on AWS references a role variable that nothing declares, so an
      environment of nothing else is not closed. */
  lemma {:induction false} ServerlessOnAWSIsOpen(sys: System, env: Env, p: Part)
    requires sys.world.tables == TABLES && env.provider == "aws" && env.vault.None?
    requires p.typ == "serverless-function" && p.placement == "" && p.hostVM == ""
    requires sys.world.render(0, p, Nowhere, false) == Some(Body([], {"lambda_role_arn"}, NO_FLAGS))
    ensures var out := FinalDocs(sys, env, [p]); !RefsMet(out, Declared(out))
  {
    var doc := Doc(Service(0, Nowhere), [], {"lambda_role_arn"});
    FunctionOnAWS(sys.world, env, p);
    assert Core.CoreDocs(sys.world, env, [p]) == [doc];
    OneOpenReference(sys, env, [p], doc, ProviderFlags(sys, env, [p]), "lambda_role_arn");
  }

  lemma {:induction false} FunctionOnAWS(w: World, env: Env, p: Part)
    requires w.tables == TABLES && env.provider == "aws" && env.vault.None?
    requires p.typ == "serverless-function" && p.placement == "" && p.hostVM == ""
    requires w.render(0, p, Nowhere, false) == Some(Body([], {"lambda_role_arn"}, NO_FLAGS))
    ensures !OnDigitalOcean(env) && !HasDatabase([p])
    ensures Core.CoreDocs(w, env, [p]) == [Doc(Service(0, Nowhere), [], {"lambda_role_arn"})]
  {
    hide Mitigation.NativelySupported, WiringOf, Configured, UnwiredType, ComputeType, NetworkedType, Mitigation.Mitigatable;
    FunctionArm();
    assert Lower(env.provider) == "aws" && "aws"[0] != DIGITALOCEAN[0];
    FunctionRouting(env, [p], p);
    var wires := WiresOf(w.tables, env, [p]);
    assert Dispatch(w, env, wires, [p], 0) == Emitted(Doc(Service(0, Nowhere), [], {"lambda_role_arn"}), NO_FLAGS);
    assert Services(w, env, wires, [p], 1) == Services(w, env, wires, [p], 0) + [Doc(Service(0, Nowhere), [], {"lambda_role_arn"})];
    assert !PlansNetwork(TABLES, env.provider, [p][0]);
  }

  lemma {:induction false} FunctionRouting(env: Env, ps: seq<Part>, p: Part)
    requires p.typ == "serverless-function" && env.provider == "aws"
    ensures Configured(p) && Clustered(env, ps, p) && p.typ != "managed-database"
  {
    assert p.typ[0] == 's' && p.typ[2] == 'r' && |p.typ| == 19;
    TrimSolid("aws");
    assert Lower("aws") == "aws" && "aws"[0] != DIGITALOCEAN[0];
  }

  lemma {:induction false} FunctionArm()
    ensures WiringOf("serverless-function") == Some(Unwired)
    ensures !ComputeType("serverless-function") && !NetworkedType("serverless-function")
    ensures TABLES.native("serverless-function", "aws")
  {
    var typ := "serverless-function";
    assert typ in RUNTIME_TYPES;
    if ComputeType(typ) || NetworkedType(typ) {
      ApartRuntime(typ);
    }
    TrimSolid(typ);
    assert Lower(typ) == typ && Lower("aws") == "aws";
  }

  lemma {:induction false} OneOpenReference(sys: System, env: Env, ps: seq<Part>, doc: Doc, flags: Flags, n: string)
    requires !OnDigitalOcean(env) && !HasDatabase(ps)
    requires doc.decls == [] && n in doc.refs
    ensures var out := FixedDocs(sys, env, ps, [doc], flags); !RefsMet(out, Declared(out))
  {
    hide FixedDocs, RefsMet;
    DeclaredOne(doc);
    assert Names([]) == [];
    assert n in [doc][0].refs && !Provided(sys, env, ps, [doc], n);
    ModuleClosedIff(sys, env, ps, [doc], flags);
  }

  // ----- from the caller's components to the final list -----

  /** Binding and tagging leave a list that could be bound again: the hosts stay hosts. */
  lemma {:induction false} PreparedHostable(env: Env, ps: seq<Part>)
    requires Hostable(ps)
    ensures Hostable(Prepared(env, ps))
  {
    hide TagOf, Script, Received, Mitigation.ExplicitVMPlacement;
    var qs := Prepared(env, ps);
    forall k | 0 <= k < |qs| ensures Placeable(qs, k) {
      assert Placeable(ps, k);
      if ps[k].hostVM != "" {
        var i :| 0 <= i < |ps| && Binds(ps, k, i);
        StillCompatible(ps, i, |ps|);
        assert Binds(qs, k, i);
      }
    }
  }

  /** The passes agree on what the caller gave, hosted services included. */
  lemma {:induction false} AssembledNetworkIffPlaced(sys: System, env: Env, ps: seq<Part>)
    requires sys.world.net.Valid() && Accepted(sys, env, ps)
    requires env.vault.Some? ==> sys.world.vaultNodes(NetworkName(env), NodeCount(env.vault.value)).value != []
    ensures var out := FinalDocs(sys, env, Prepared(env, ps)); Core.SomePlaced(out) <==> HasNetworkDoc(out)
  {
    hide Prepared, FinalDocs, Hostable, Dispatched;
    PreparedHostable(env, ps);
    FinalNetworkIffPlaced(sys, env, Prepared(env, ps));
  }

  lemma {:induction false} PreparedTagged(env: Env, ps: seq<Part>)
    requires env.baseline && env.provider == DIGITALOCEAN
    ensures |Prepared(env, ps)| == |ps|
    ensures TaggedBelow(env.name, Bound(ps, |ps|), Prepared(env, ps), |ps|)
  {
    hide TaggedPart, BoundPart;
  }

  lemma {:induction false} StillPlain(env: Env, ps: seq<Part>, i: nat)
    requires i < |ps| && PlainVM(ps[i])
    ensures PlainVM(Bound(ps, |ps|)[i]) && PlainVM(Prepared(env, ps)[i])
  {
    hide Script, TagOf;
  }

  /** Under the baseline on DigitalOcean every plain VM of the caller is rendered with a tag of
      its own by which the final list's firewall selects it. */
  lemma {:induction false} AssembledTags(sys: System, env: Env, ps: seq<Part>, i: nat)
    requires Preparable(env, ps) && VaultOk(sys.world, env)
    requires env.baseline && env.provider == DIGITALOCEAN && i < |ps| && PlainVM(ps[i])
    ensures PlainVM(Prepared(env, ps)[i])
    ensures var tag := Prepared(env, ps)[i].vm.value.tag;
            && tag != "" && !EqualFold(tag, FLEET_TAG)
            && exists doc :: doc in FinalDocs(sys, env, Prepared(env, ps)) && doc.kind.Firewall? && tag in doc.kind.tags
  {
    hide FixedDocs, Hostable, AllTaggable, Prepared, Bound, TaggedBelow, PlainVM, Core.CoreDocs, Selectors, Stripped;
    StillPlain(env, ps, i);
    PreparedTagged(env, ps);
    var bs, qs := Bound(ps, |ps|), Prepared(env, ps);
    var core := Core.CoreDocs(sys.world, env, qs);
    Core.TaggedVMGuarded(sys.world, env, bs, qs, i);
    var wall := FirewallDoc(sys.world, env, qs);
    var pre, post := Around(sys, env, qs, core, ProviderFlags(sys, env, qs));
    KindSurvives(pre, core, post, wall);
  }

  lemma {:induction false} KindSurvives(pre: seq<Doc>, core: seq<Doc>, post: seq<Doc>, doc: Doc)
    requires doc in core
    ensures Strip(doc) in pre + Stripped(core) + post && Strip(doc).kind == doc.kind
  {
    var k :| 0 <= k < |core| && core[k] == doc;
    assert Stripped(core)[k] == Strip(doc);
    assert (pre + Stripped(core) + post)[|pre| + k] == Strip(doc);
  }

  /** Every component of the caller that does not run on a host has its one document in the
      final list, in the caller's order; a hosted one has none. */
  lemma {:induction false} AssembledOnce(sys: System, env: Env, ps: seq<Part>, i: nat)
    requires sys.world.net.Valid() && Accepted(sys, env, ps) && i < |ps|
    ensures Core.ServicesAscend(FinalDocs(sys, env, Prepared(env, ps)))
    ensures Core.RenderedAt(FinalDocs(sys, env, Prepared(env, ps)), i) <==> ps[i].hostVM == ""
  {
    hide FixedDocs, Preparable, Dispatched, Core.CoreDocs, Core.ServicesAscend, Core.RenderedAt, Stripped, Prepared;
    var qs := Prepared(env, ps);
    PreparedKeepsHosts(env, ps, i);
    Core.RenderedOnce(sys.world, env, qs, i);
    var core := Core.CoreDocs(sys.world, env, qs);
    var pre, post := Around(sys, env, qs, core, ProviderFlags(sys, env, qs));
    StrippedServices(core, i);
    Core.Between(pre, Stripped(core), post);
  }

  /** Binding and tagging change a component's script and tag and nothing else about it: the
      script only of a host some service names, the tag only of a plain VM under the baseline on
      DigitalOcean, where the author's own tag is kept. */
  lemma {:induction false} PreparedSays(env: Env, ps: seq<Part>, i: nat)
    requires i < |ps|
    ensures |Prepared(env, ps)| == |ps|
    ensures var p, q := ps[i], Prepared(env, ps)[i];
            && q.(vm := None) == p.(vm := None) && (q.vm.Some? <==> p.vm.Some?)
            && (p.vm.Some? ==>
                && q.vm.value.sizing == p.vm.value.sizing
                && q.vm.value.tag ==
                   (if !(env.baseline && env.provider == "digitalocean" && p.typ == "virtual-machine") then p.vm.value.tag
                    else if TrimSpace(p.vm.value.tag) != "" then TrimSpace(p.vm.value.tag)
                    else "pyx-" + TfName(env.name) + "-" + TfName(p.name))
                && (!(exists k :: 0 <= k < |ps| && p.typ == "virtual-machine" && p.name != "" && ps[k].hostVM == p.name) ==>
                    q.vm.value.userData == p.vm.value.userData))
  {
    hide TrimSpace, TfName, Script;
    var p, received := ps[i], Received(ps, i, |ps|);
    if p.vm.Some? && !(exists k :: 0 <= k < |ps| && p.typ == "virtual-machine" && p.name != "" && ps[k].hostVM == p.name) {
      NothingReceived(ps, i);
      NothingAttached(p.vm.value.userData);
    }
    var bound := BoundPart(p, received);
    assert Bound(ps, |ps|)[i] == bound;
    if PlainVM(bound) {
      AuthorTagKept(env.name, bound);
    }
  }

  lemma {:induction false} NothingAttached(script: string)
    ensures Script(script, []) == script
  {
  }

  lemma {:induction false} NothingReceived(ps: seq<Part>, i: nat)
    requires i < |ps|
    requires !(exists k :: 0 <= k < |ps| && IsHost(ps[i]) && ps[i].name != "" && ps[k].hostVM == ps[i].name)
    ensures Received(ps, i, |ps|) == []
  {
    if Received(ps, i, |ps|) != [] {
      var k := BootstrapOf(ps, ps[i].name, |ps|, Received(ps, i, |ps|)[0]);
    }
  }

  /** On DigitalOcean an environment looks its project up exactly when it names one. It is bound
      to the project in one last document exactly when, besides, the rest holds a resource to bind. */
  lemma {:induction false} ProjectBound(sys: System, env: Env, ps: seq<Part>) returns (head: seq<Doc>, docs: seq<Doc>)
    requires VaultOk(sys.world, env)
    ensures var named := env.provider == "digitalocean" && TrimSpace(env.project) != "";
            && (named <==> exists k :: 0 <= k < |docs| && docs[k].kind.ProjectLookup?)
            && |head| <= 1 && (forall doc :: doc in head ==> doc.kind.RequiredProviders?)
            && (forall k :: 0 <= k < |docs| ==> !docs[k].kind.RequiredProviders? && !docs[k].kind.ProjectBinding?)
            && FinalDocs(sys, env, ps) ==
               head + docs + if named && sys.binds(env.project, docs) then [Doc(ProjectBinding, [], {})] else []
  {
    hide Core.CoreDocs, Stripped, TrimSpace, VaultOk, Base, Headers, VaultNeeded, Vars, Secrets, ProviderEntries, ProviderFlags;
    var core := Core.CoreDocs(sys.world, env, ps);
    var base, vars, secrets := Base(env, ps, core), Vars(sys, env, ps, core), Secrets(sys, env, ps, core);
    LookupShown(sys.world, env, ps);
    Core.NoProviders(sys.world, env, ps);
    StrippedSame(core);
    HeadsPlain(secrets, vars, base);
    head := ProviderDocs(env, ProviderFlags(sys, env, ps), VaultNeeded(sys, env, ps));
    docs := Declarations(sys, env, ps, core);
    var heads := Headers(secrets) + (Headers(vars) + Headers(base));
    assert docs == heads + Stripped(core);
    forall k | 0 <= k < |docs|
      ensures if k < |heads| then docs[k].kind == Declaration else docs[k].kind == core[k - |heads|].kind && core[k - |heads|] in core
    {
      assert k < |heads| ==> docs[k] in heads;
    }
    if k :| 0 <= k < |core| && core[k].kind.ProjectLookup? {
      assert docs[|heads| + k].kind.ProjectLookup?;
    }
  }

  lemma {:induction false} StrippedSame(docs: seq<Doc>)
    ensures |Stripped(docs)| == |docs| && forall k :: 0 <= k < |docs| ==> Stripped(docs)[k].kind == docs[k].kind
  {
  }

  lemma {:induction false} LookupShown(w: World, env: Env, ps: seq<Part>)
    requires VaultOk(w, env)
    ensures var core := Core.CoreDocs(w, env, ps);
            && (forall k :: 0 <= k < |core| ==> !core[k].kind.ProjectBinding?)
            && ((env.provider == "digitalocean" && TrimSpace(env.project) != "") <==>
                exists k :: 0 <= k < |core| && core[k].kind.ProjectLookup?)
  {
    hide Dispatch, Services, WiresOf, HasNetwork, Guarded, TrimSpace, VaultOk, NetworkDoc, FirewallDoc;
    var core, wires := Core.CoreDocs(w, env, ps), WiresOf(w.tables, env, ps);
    var lookup, services, vault := Core.ProjectDocs(env), Services(w, env, wires, ps, |ps|), VaultDocs(w, env);
    forall j | 0 <= j < |services| ensures services[j].kind.Service? {
      var i := Core.ServiceOf(w, env, wires, ps, |ps|, j);
      Core.DispatchMatchesPlan(w, env, wires, ps, i);
    }
    var rest := (Core.NetworkDocs(w, env, ps) + Core.FirewallDocs(w, env, ps)) + (services + vault);
    assert core == lookup + rest;
    assert forall doc :: doc in Core.NetworkDocs(w, env, ps) + Core.FirewallDocs(w, env, ps) ==>
             !doc.kind.ProjectLookup? && !doc.kind.ProjectBinding? by { SharedPlain(w, env, ps); }
    assert forall doc :: doc in rest ==> !doc.kind.ProjectLookup? && !doc.kind.ProjectBinding?;
    forall k | |lookup| <= k < |core| ensures core[k] in rest {
      assert core[k] == rest[k - |lookup|];
    }
    assert |lookup| > 0 ==> core[0] == lookup[0];
  }

  lemma {:induction false} SharedPlain(w: World, env: Env, ps: seq<Part>)
    ensures forall doc :: doc in Core.NetworkDocs(w, env, ps) + Core.FirewallDocs(w, env, ps) ==>
              doc.kind.Network? || doc.kind.Firewall?
  {
    hide HasNetwork, Guarded;
  }

  lemma {:induction false} PreparedKeepsHosts(env: Env, ps: seq<Part>, i: nat)
    requires i < |ps|
    ensures |Prepared(env, ps)| == |ps| && Prepared(env, ps)[i].hostVM == ps[i].hostVM
  {
    hide Script, TagOf;
  }

  lemma {:induction false} StrippedServices(docs: seq<Doc>, i: nat)
    ensures Core.ServicesAscend(docs) ==> Core.ServicesAscend(Stripped(docs))
    ensures Core.RenderedAt(Stripped(docs), i) <==> Core.RenderedAt(docs, i)
  {
    if Core.RenderedAt(docs, i) {
      var j :| 0 <= j < |docs| && docs[j].kind.Service? && docs[j].kind.index == i;
      assert Stripped(docs)[j].kind == docs[j].kind;
    }
  }

  /** A named host is rendered with its original script, if any, and after it the bootstraps
      bound to it in declaration order, joined by newlines; with any bootstrap, it is bash. */
  lemma {:induction false} AssembledScripts(env: Env, ps: seq<Part>, i: nat)
    requires Hostable(ps) && i < |ps| && PlainVM(ps[i]) && ps[i].name != ""
    ensures Prepared(env, ps)[i].vm.Some?
    ensures var original, bound := ps[i].vm.value.userData, Bootstraps(ps, ps[i].name, |ps|);
            && Prepared(env, ps)[i].vm.value.userData == Heredoc.Join((if original == "" then [] else [original]) + bound)
            && (bound != [] ==> Sealed(Prepared(env, ps)[i].vm.value.userData))
  {
    hide TagOf, Script, Bootstraps, Placeable;
    var bound := Bootstraps(ps, ps[i].name, |ps|);
    assert Received(ps, i, |ps|) == bound;
    if bound != [] {
      HostScriptSealed(ps, i, |ps|);
    }
    assert forall b :: b in bound ==> Sealed(b) && b != "";
    ScriptIsJoined(ps[i].vm.value.userData, bound);
    ScriptOf(env, ps, i);
  }

  lemma {:induction false} ScriptOf(env: Env, ps: seq<Part>, i: nat)
    requires i < |ps| && PlainVM(ps[i])
    ensures Prepared(env, ps)[i].vm.Some?
    ensures Prepared(env, ps)[i].vm.value.userData == Script(ps[i].vm.value.userData, Received(ps, i, |ps|))
  {
    hide TagOf, Script, Received;
  }
}
