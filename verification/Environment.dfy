/** A whole environment, from the caller's components to the final document list. */
module Environment {
  import opened Wrappers
  import opened Text
  import opened HostPlacement
  import opened BaselineTags
  import opened Documents
  import opened Assemble
  import opened FixUp
  import Core

  /** The world, the bootstrap catalog, and whether a document list holds project resources. */
  datatype System = System(world: World, known: Known, binds: (string, seq<Doc>) -> bool)

  ghost predicate HasDatabase(ps: seq<Part>) {
    exists i :: 0 <= i < |ps| && ps[i].typ == "managed-database"
  }

  ghost predicate HasScaleGroup(ps: seq<Part>) {
    exists i :: 0 <= i < |ps| && ps[i].typ == SCALE_GROUP
  }

  predicate OnDigitalOcean(env: Env) {
    Lower(env.provider) == DIGITALOCEAN
  }

  ghost predicate NeedsKeys(env: Env, ps: seq<Part>) {
    OnDigitalOcean(env) && (env.vault.Some? || HasScaleGroup(ps))
  }

  /** The fixed declarations put before the services. */
  ghost function Base(env: Env, ps: seq<Part>, core: seq<Doc>): seq<Decl> {
    (if NeedsKeys(env, ps) then [SSH_KEYS] else []) + (if HasDatabase(ps) then [DB_PASSWORD] else []) + ZoneHeader(core)
  }

  ghost function Opened(env: Env, ps: seq<Part>, core: seq<Doc>): seq<Doc> {
    Headers(Base(env, ps, core)) + Stripped(core)
  }

  /** The declarations the bootstraps add, on DigitalOcean alone. */
  ghost function Vars(sys: System, env: Env, ps: seq<Part>, core: seq<Doc>): seq<Decl> {
    if OnDigitalOcean(env) then AddedVariables(sys.known, Blob(ps), Opened(env, ps, core)) else []
  }

  ghost function Secrets(sys: System, env: Env, ps: seq<Part>, core: seq<Doc>): seq<Decl> {
    if OnDigitalOcean(env) then
      AddedSecrets(sys.known, |sys.known.paths|, Blob(ps), Headers(Vars(sys, env, ps, core)) + Opened(env, ps, core))
    else []
  }

  function Binding(sys: System, env: Env, docs: seq<Doc>): seq<Doc> {
    if env.provider == DIGITALOCEAN && TrimSpace(env.project) != "" && sys.binds(env.project, docs)
    then [Doc(ProjectBinding, [], {})] else []
  }

  function ProviderDocs(env: Env, flags: Flags, needsVault: bool): seq<Doc> {
    match ProviderEntries(env.provider, flags, needsVault)
    case None => []
    case Some(entries) => [Doc(RequiredProviders(entries), [], {})]
  }

  ghost predicate VaultNeeded(sys: System, env: Env, ps: seq<Part>) {
    OnDigitalOcean(env) && NeedsVault(sys.known, |sys.known.paths|, Blob(ps))
  }

  ghost function Declarations(sys: System, env: Env, ps: seq<Part>, core: seq<Doc>): seq<Doc> {
    Headers(Secrets(sys, env, ps, core)) + (Headers(Vars(sys, env, ps, core)) + Opened(env, ps, core))
  }

  /** Providers, secrets, variables, the fixed declarations, every core document in its place
      without the inline zone variable, and the project binding. */
  ghost function FixedDocs(sys: System, env: Env, ps: seq<Part>, core: seq<Doc>, flags: Flags): seq<Doc> {
    var docs := Declarations(sys, env, ps, core);
    ProviderDocs(env, flags, VaultNeeded(sys, env, ps)) + docs + Binding(sys, env, docs)
  }

  method CollectScripts(ps: seq<Part>) returns (blob: string)
    ensures blob == Blob(ps)
  {
    hide Concat, Scripts;
    var scripts := [];
    for i := 0 to |ps|
      invariant scripts == AllScripts(ps[..i])
    {
      assert ps[..i + 1][..i] == ps[..i];
      var own := CollectGroup(ps[i]);
      scripts := scripts + own;
    }
    assert ps[..|ps|] == ps;
    blob := Concat(scripts);
  }

  /** The body of the loop: a scale group's own script and each provider's. */
  method CollectGroup(p: Part) returns (own: seq<string>)
    ensures own == Scripts(p)
  {
    if p.typ != SCALE_GROUP || p.scaleGroup.None? {
      return [];
    }
    var g := p.scaleGroup.value;
    own := [g.userData];
    for k := 0 to |g.byProvider|
      invariant |own| == k + 1 && own[0] == g.userData && forall j :: 0 <= j < k ==> own[j + 1] == g.byProvider[j].1
    {
      own := own + [g.byProvider[k].1];
    }
  }

  /** The declarations the topology asks for. */
  method OpenDocs(env: Env, ps: seq<Part>, core: seq<Doc>) returns (docs: seq<Doc>)
    ensures docs == Opened(env, ps, core)
  {
    hide ZoneHeader, Stripped, Headers;
    docs := DedupeZone(core);
    ghost var base := ZoneHeader(core);
    var database := HasType(ps, "managed-database");
    if database {
      HeadersFirst(DB_PASSWORD, base);
      docs, base := [Header(DB_PASSWORD)] + docs, [DB_PASSWORD] + base;
    }
    if OnDigitalOcean(env) {
      var needed := env.vault.Some?;
      if !needed {
        needed := HasType(ps, SCALE_GROUP);
      }
      if needed {
        HeadersFirst(SSH_KEYS, base);
        docs, base := [Header(SSH_KEYS)] + docs, [SSH_KEYS] + base;
      }
    }
    assert base == Base(env, ps, core);
  }

  method HasType(ps: seq<Part>, typ: string) returns (found: bool)
    ensures found <==> exists i :: 0 <= i < |ps| && ps[i].typ == typ
  {
    for i := 0 to |ps|
      invariant forall j :: 0 <= j < i ==> ps[j].typ != typ
    {
      if ps[i].typ == typ {
        return true;
      }
    }
    found := false;
  }

  method FixUpDocs(sys: System, env: Env, ps: seq<Part>, core: seq<Doc>, flags: Flags) returns (out: seq<Doc>)
    ensures out == FixedDocs(sys, env, ps, core, flags)
  {
    hide Opened, ProviderEntries, AddedVariables, AddedSecrets, Blob, NeedsVault;
    var docs := OpenDocs(env, ps, core);
    var needsVault := false;
    NoHeaders(docs);
    if OnDigitalOcean(env) {
      var blob := CollectScripts(ps);
      docs := DeclareVariables(sys.known, blob, docs);
      docs, needsVault := DeclareSecrets(sys.known, blob, docs);
    }
    docs := docs + Binding(sys, env, docs);
    out := ProviderDocs(env, flags, needsVault) + docs;
  }

  lemma {:induction false} NoHeaders(docs: seq<Doc>)
    ensures Headers([]) + docs == docs && Headers([]) + (Headers([]) + docs) == docs
  {
  }

  // ----- the whole run -----

  function Tagged(env: Env, ps: seq<Part>): seq<Part> {
    if env.baseline && env.provider == DIGITALOCEAN then
      seq(|ps|, i requires 0 <= i < |ps| => TaggedPart(env.name, ps[i]))
    else ps
  }

  /** The components as the passes see them: bound to their hosts, then tagged. */
  function Prepared(env: Env, ps: seq<Part>): seq<Part> {
    Tagged(env, Bound(ps, |ps|))
  }

  predicate Preparable(env: Env, ps: seq<Part>) {
    && Hostable(ps) && env.name != ""
    && (env.baseline && env.provider == DIGITALOCEAN ==> AllTaggable(Bound(ps, |ps|), |ps|))
  }

  ghost predicate Accepted(sys: System, env: Env, ps: seq<Part>)
    requires sys.world.net.Valid()
  {
    Preparable(env, ps) && Core.CoreOk(sys.world, env, Prepared(env, ps))
  }

  /** Binds the hosts and tags the VMs, both on clones. */
  method Prepare(env: Env, cs: seq<Component>) returns (out: Option<seq<Component>>)
    ensures out.Some? <==> Preparable(env, Views(cs))
    ensures out.Some? ==> Views(out.value) == Prepared(env, Views(cs))
    ensures out.Some? ==>
              forall i :: 0 <= i < |cs| == |out.value| && out.value[i].vm != cs[i].vm ==> fresh(out.value[i].vm)
  {
    hide Hostable, Bound, OthersKept, AllTaggable, TaggedPart, Views, PlainVM;
    ghost var ps := Views(cs);
    var bound, components := BindServiceHosts(cs);
    assert Views(cs) == ps;
    if !bound || env.name == "" {
      return None;
    }
    if env.baseline && env.provider == DIGITALOCEAN {
      ghost var bs := Views(components);
      var ok, tagged := TagBaselineVMs(env.name, components);
      assert Views(cs) == ps && Views(components) == bs;
      if !ok {
        return None;
      }
      components := tagged;
    }
    out := Some(components);
  }

  lemma {:induction false} CoreVault(w: World, env: Env, ps: seq<Part>)
    requires w.net.Valid() && Core.CoreOk(w, env, ps)
    ensures VaultOk(w, env)
  {
  }

  ghost function ProviderFlags(sys: System, env: Env, ps: seq<Part>): Flags {
    ServiceFlags(sys.world, env, WiresOf(sys.world.tables, env, ps), ps, |ps|)
  }

  /** The final document list of prepared components. */
  ghost function FinalDocs(sys: System, env: Env, ps: seq<Part>): seq<Doc>
    requires VaultOk(sys.world, env)
  {
    FixedDocs(sys, env, ps, Core.CoreDocs(sys.world, env, ps), ProviderFlags(sys, env, ps))
  }

  /** Renders exactly the accepted environments; nothing of the caller's is modified. */
  method AssembleHCL(sys: System, env: Env, cs: seq<Component>) returns (r: Option<seq<Doc>>)
    requires sys.world.net.Valid()
    ensures r.Some? <==> Accepted(sys, env, Views(cs))
    ensures r.Some? ==> VaultOk(sys.world, env) && r.value == FinalDocs(sys, env, Prepared(env, Views(cs)))
    ensures Views(cs) == old(Views(cs))
  {
    hide Preparable, Prepared, Core.CoreOk, Core.CoreDocs, ServiceFlags, WiresOf, FixedDocs, Views;
    ghost var ps := Views(cs);
    var components := Prepare(env, cs);
    assert Views(cs) == ps;
    if components.None? {
      return None;
    }
    var parts := Views(components.value);
    var core := Core.AssembleCore(sys.world, env, parts);
    assert Views(cs) == ps;
    if core.None? {
      return None;
    }
    CoreVault(sys.world, env, parts);
    var out := FixUpDocs(sys, env, parts, core.value.0, core.value.1);
    assert Views(cs) == ps;
    r := Some(out);
  }
}
