/** The documents of an environment before the fix-ups, and how planning and dispatch agree. */
module Core {
  import opened Wrappers
  import opened Text
  import opened HostPlacement
  import opened BaselineTags
  import opened Documents
  import opened Assemble
  import Mitigation
  import Net = Network

  function ProjectDocs(env: Env): seq<Doc> {
    if env.provider == DIGITALOCEAN && TrimSpace(env.project) != "" then [Doc(ProjectLookup, [], {})] else []
  }

  ghost function NetworkDocs(w: World, env: Env, ps: seq<Part>): seq<Doc> {
    if HasNetwork(w.tables, env, ps) then [NetworkDoc(w, env)] else []
  }

  ghost function FirewallDocs(w: World, env: Env, ps: seq<Part>): seq<Doc> {
    if Guarded(w.tables, env, ps) then [FirewallDoc(w, env, ps)] else []
  }

  ghost function Shared(w: World, env: Env, ps: seq<Part>): seq<Doc> {
    ProjectDocs(env) + NetworkDocs(w, env, ps) + FirewallDocs(w, env, ps)
  }

  /** The project lookup, the network and the firewall, then one document per service, then
      the Vault nodes. */
  ghost function CoreDocs(w: World, env: Env, ps: seq<Part>): seq<Doc>
    requires VaultOk(w, env)
  {
    Shared(w, env, ps) + Services(w, env, WiresOf(w.tables, env, ps), ps, |ps|) + VaultDocs(w, env)
  }

  ghost predicate NetworkOk(w: Net.World, spec: Net.Spec)
    requires w.Valid()
  {
    && Net.HeaderValid(w, spec) && (forall s :: s in spec.subnets ==> Net.SubnetInside(w, spec, s))
    && w.resolveRegion(spec.region, spec.provider).Some?
  }

  ghost predicate SharedOk(w: World, env: Env, ps: seq<Part>)
    requires w.net.Valid()
  {
    && (HasNetwork(w.tables, env, ps) ==> NetworkOk(w.net, NetworkSpec(env)) && w.network(NetworkPlan(w.net, env)).Some?)
    && (Guarded(w.tables, env, ps) ==> w.firewall(FirewallKind(env, ps)).Some?)
  }

  /** The environments the two passes accept. */
  ghost predicate CoreOk(w: World, env: Env, ps: seq<Part>)
    requires w.net.Valid()
  {
    && SharedOk(w, env, ps)
    && Dispatched(w, env, WiresOf(w.tables, env, ps), ps, |ps|)
    && VaultOk(w, env)
  }

  method AssembleCore(w: World, env: Env, ps: seq<Part>) returns (r: Option<(seq<Doc>, Flags)>)
    requires w.net.Valid()
    ensures r.Some? <==> CoreOk(w, env, ps)
    ensures r.Some? ==>
              && r.value.0 == CoreDocs(w, env, ps)
              && r.value.1 == ServiceFlags(w, env, WiresOf(w.tables, env, ps), ps, |ps|)
  {
    hide Shared, SharedOk, WiresOf, Dispatched, Services, ServiceFlags, VaultOk, VaultDocs;
    var shared := DrawShared(w, env, ps);
    if shared.None? {
      return None;
    }
    var (docs, wires) := shared.value;
    var services := DispatchAll(w, env, wires, ps);
    if services.None? {
      return None;
    }
    if !VaultOk(w, env) {
      return None;
    }
    return Some((docs + services.value.0 + VaultDocs(w, env), services.value.1));
  }

  /** The project lookup, the network and the firewall, with the names they give the services. */
  method DrawShared(w: World, env: Env, ps: seq<Part>) returns (r: Option<(seq<Doc>, Wires)>)
    requires w.net.Valid()
    ensures r.Some? <==> SharedOk(w, env, ps)
    ensures r.Some? ==> r.value.0 == Shared(w, env, ps) && r.value.1 == WiresOf(w.tables, env, ps)
  {
    hide HasVM, HasNetwork, HasEgress, NetworkOk, NetworkPlan, SubnetNames;
    var docs: seq<Doc> := [];
    if env.provider == DIGITALOCEAN && TrimSpace(env.project) != "" {
      docs := docs + [Doc(ProjectLookup, [], {})];
    }
    var egress := DeriveEgress(w.tables, env, ps);
    var hasVM, hasNetworked := Plan(w.tables, env, ps);
    var wires := Wires(NetworkName(env), "", [], "");
    if hasNetworked {
      var drawn := DrawNetwork(w, env);
      if drawn.None? {
        return None;
      }
      var (sheet, names) := drawn.value;
      docs := docs + [Doc(Network(NetworkName(env), names), sheet.decls, sheet.refs)];
      wires := wires.(subnet := names[0], subnets := names);
    }
    assert docs == ProjectDocs(env) + NetworkDocs(w, env, ps);
    if hasVM && (|env.expose| > 0 || |env.ingress| > 0 || egress) {
      var tags := [];
      if Lower(env.provider) == DIGITALOCEAN {
        tags := CollectSelectors(ps);
      }
      var kind := Firewall(FirewallName(env), NetworkName(env), tags);
      var sheet := w.firewall(kind);
      if sheet.None? {
        return None;
      }
      docs := docs + [Doc(kind, sheet.value.decls, sheet.value.refs)];
      wires := wires.(firewall := FirewallName(env));
    }
    r := Some((docs, wires));
  }

  /** Translates and renders the network, and collects its subnet names. */
  method DrawNetwork(w: World, env: Env) returns (drawn: Option<(Sheet, seq<string>)>)
    requires w.net.Valid()
    ensures drawn.Some? <==> NetworkOk(w.net, NetworkSpec(env)) && w.network(NetworkPlan(w.net, env)).Some?
    ensures drawn.Some? ==>
              drawn.value == (w.network(NetworkPlan(w.net, env)).value, SubnetNames(env)) && drawn.value.1 != []
  {
    hide Net.HeaderValid, Net.SubnetInside;
    var plan := Net.TranslateNetwork(w.net, NetworkSpec(env));
    if plan.Err? {
      return None;
    }
    var sheet := w.network(plan.value);
    if sheet.None? {
      return None;
    }
    var subnets := plan.value.subnets;
    var out := [];
    for i := 0 to |subnets|
      invariant |out| == i && forall k :: 0 <= k < i ==> out[k] == subnets[k].name
    {
      out := out + [subnets[i].name];
    }
    assert out == SubnetNames(env);
    drawn := Some((sheet.value, out));
  }

  // ----- every service document comes from its component -----

  lemma {:induction false} ServiceOf(w: World, env: Env, wires: Wires, ps: seq<Part>, n: nat, j: nat) returns (i: nat)
    requires n <= |ps| && j < |Services(w, env, wires, ps, n)|
    ensures i < n && Dispatch(w, env, wires, ps, i).Emitted?
    ensures Services(w, env, wires, ps, n)[j] == Dispatch(w, env, wires, ps, i).doc
  {
    hide Dispatch;
    if j < |Services(w, env, wires, ps, n - 1)| {
      i := ServiceOf(w, env, wires, ps, n - 1, j);
    } else {
      i := n - 1;
    }
  }

  lemma {:induction false} ServiceAt(w: World, env: Env, wires: Wires, ps: seq<Part>, n: nat, i: nat) returns (j: nat)
    requires i < n <= |ps| && Dispatch(w, env, wires, ps, i).Emitted?
    ensures j < |Services(w, env, wires, ps, n)|
    ensures Services(w, env, wires, ps, n)[j] == Dispatch(w, env, wires, ps, i).doc
  {
    hide Dispatch;
    if i == n - 1 {
      j := |Services(w, env, wires, ps, n - 1)|;
    } else {
      j := ServiceAt(w, env, wires, ps, n - 1, i);
    }
  }

  /** A component is rendered with the network exactly when the plan counted on it. */
  lemma {:induction false} DispatchMatchesPlan(w: World, env: Env, wires: Wires, ps: seq<Part>, i: nat)
    requires i < |ps| && Dispatch(w, env, wires, ps, i).Emitted?
    ensures Dispatch(w, env, wires, ps, i).doc.kind.Service? && Dispatch(w, env, wires, ps, i).doc.kind.index == i
    ensures PlacementOf(Dispatch(w, env, wires, ps, i).doc).On? <==> PlansNetwork(w.tables, env.provider, ps[i])
  {
    hide WiringOf, Clustered, NetworkedType;
    if !Substituted(w.tables, env.provider, ps[i]) {
      WiringMatchesPlan(ps[i].typ);
    }
  }

  // ----- one document per component -----

  predicate ServicesAscend(docs: seq<Doc>) {
    forall a, b :: 0 <= a < b < |docs| && docs[a].kind.Service? && docs[b].kind.Service? ==>
      docs[a].kind.index < docs[b].kind.index
  }

  ghost predicate RenderedAt(docs: seq<Doc>, i: nat) {
    exists j :: 0 <= j < |docs| && docs[j].kind.Service? && docs[j].kind.index == i
  }

  lemma {:induction false} ServicesInOrder(w: World, env: Env, wires: Wires, ps: seq<Part>, n: nat)
    requires n <= |ps|
    ensures ServicesAscend(Services(w, env, wires, ps, n))
    ensures forall j :: 0 <= j < |Services(w, env, wires, ps, n)| ==>
              Services(w, env, wires, ps, n)[j].kind.Service? && Services(w, env, wires, ps, n)[j].kind.index < n
  {
    hide Dispatch;
    if n > 0 {
      ServicesInOrder(w, env, wires, ps, n - 1);
      if Dispatch(w, env, wires, ps, n - 1).Emitted? {
        DispatchMatchesPlan(w, env, wires, ps, n - 1);
      }
    }
  }

  /** Nothing is lost and nothing rendered twice: a component has its one document exactly when
      it does not run on a host, and the documents keep the order of the components. */
  lemma {:induction false} RenderedOnce(w: World, env: Env, ps: seq<Part>, i: nat)
    requires VaultOk(w, env) && Dispatched(w, env, WiresOf(w.tables, env, ps), ps, |ps|) && i < |ps|
    ensures ServicesAscend(CoreDocs(w, env, ps))
    ensures RenderedAt(CoreDocs(w, env, ps), i) <==> ps[i].hostVM == ""
  {
    hide Dispatch, Services, WiresOf, Shared;
    var wires := WiresOf(w.tables, env, ps);
    var shared, services := Shared(w, env, ps), Services(w, env, wires, ps, |ps|);
    ServicesInOrder(w, env, wires, ps, |ps|);
    SharedKinds(w, env, ps);
    Between(shared, services, VaultDocs(w, env));
    OutcomeOf(w, env, wires, ps, i);
    if ps[i].hostVM == "" {
      var j := ServiceAt(w, env, wires, ps, |ps|, i);
      DispatchMatchesPlan(w, env, wires, ps, i);
      assert services[j].kind.index == i;
    }
    if j :| 0 <= j < |services| && services[j].kind.index == i {
      var k := ServiceOf(w, env, wires, ps, |ps|, j);
      DispatchMatchesPlan(w, env, wires, ps, k);
    }
    assert (shared + services + VaultDocs(w, env)) == CoreDocs(w, env, ps);
  }

  lemma {:induction false} OutcomeOf(w: World, env: Env, wires: Wires, ps: seq<Part>, i: nat)
    requires i < |ps| && Dispatch(w, env, wires, ps, i) != Failed
    ensures Dispatch(w, env, wires, ps, i).Emitted? <==> ps[i].hostVM == ""
  {
    hide WiringOf, Clustered, Configured;
  }

  lemma {:induction false} SharedKinds(w: World, env: Env, ps: seq<Part>)
    ensures forall doc :: doc in Shared(w, env, ps) ==> !doc.kind.Service?
  {
  }

  lemma {:induction false} Between(pre: seq<Doc>, services: seq<Doc>, post: seq<Doc>)
    requires forall doc :: doc in pre || doc in post ==> !doc.kind.Service?
    requires ServicesAscend(services)
    ensures ServicesAscend(pre + services + post)
    ensures forall i :: RenderedAt(pre + services + post, i) <==> RenderedAt(services, i)
  {
    var all := pre + services + post;
    assert forall j :: 0 <= j < |pre| ==> all[j] in pre;
    assert forall j :: |pre| + |services| <= j < |all| ==> all[j] == post[j - |pre| - |services|];
    assert forall j :: |pre| + |services| <= j < |all| ==> all[j] in post;
    forall j | 0 <= j < |all| && all[j].kind.Service?
      ensures |pre| <= j < |pre| + |services| && all[j] == services[j - |pre|]
    {
    }
    forall i | RenderedAt(services, i) ensures RenderedAt(all, i) {
      var j :| 0 <= j < |services| && services[j].kind.Service? && services[j].kind.index == i;
      assert all[|pre| + j] == services[j];
    }
  }

  /** An environment that dispatches asks only for placements the assembler has, and every
      component it renders natively is of a supported type with its configuration. */
  lemma {:induction false} DispatchedSupported(w: World, env: Env, wires: Wires, ps: seq<Part>, i: nat)
    requires i < |ps| && Dispatched(w, env, wires, ps, |ps|)
    ensures ps[i].placement == "" || (ps[i].placement == "vm" && w.tables.explicit(ps[i].typ))
    ensures ps[i].hostVM == "" && !Substituted(w.tables, env.provider, ps[i]) ==>
              WiringOf(ps[i].typ).Some? && Configured(ps[i]) && Clustered(env, ps, ps[i])
  {
    hide WiringOf, Clustered, Configured;
    assert Dispatch(w, env, wires, ps, i) != Failed;
  }

  /** The first cluster component, if it has a name. */
  lemma {:induction false} InferClusterIsFirst(ps: seq<Part>)
    ensures InferCluster(ps) != "" <==>
              exists j :: 0 <= j < |ps| && IsCluster(ps[j]) && ps[j].name != "" &&
                          forall i :: 0 <= i < j ==> !IsCluster(ps[i])
    ensures forall j :: 0 <= j < |ps| && IsCluster(ps[j]) && (forall i :: 0 <= i < j ==> !IsCluster(ps[i])) ==>
              InferCluster(ps) == ps[j].name
  {
    hide IsCluster;
    if ps != [] && !IsCluster(ps[0]) {
      InferClusterIsFirst(ps[1..]);
      assert forall i :: 0 < i < |ps| ==> ps[i] == ps[1..][i - 1];
      if j :| 0 <= j < |ps[1..]| && IsCluster(ps[1..][j]) && ps[1..][j].name != "" &&
              forall i :: 0 <= i < j ==> !IsCluster(ps[1..][i]) {
        assert IsCluster(ps[j + 1]);
      }
      forall j | 0 <= j < |ps| && IsCluster(ps[j]) && (forall i :: 0 <= i < j ==> !IsCluster(ps[i]))
        ensures InferCluster(ps) == ps[j].name
      {
        assert IsCluster(ps[1..][j - 1]);
        assert forall i :: 0 <= i < j - 1 ==> ps[1..][i] == ps[i + 1];
      }
    }
  }

  /** An environment dispatches exactly when every component asks for a placement the assembler
      has and, unless it runs on a host, translates: on a VM if it is self-hosted, and else by
      the arm of a supported type that finds its configuration and its cluster. */
  lemma {:induction false} DispatchedIff(w: World, env: Env, wires: Wires, ps: seq<Part>)
    ensures Dispatched(w, env, wires, ps, |ps|) <==> forall i :: 0 <= i < |ps| ==> Translates(w, env, wires, ps, i)
  {
    hide Dispatch, Translates;
    forall i | 0 <= i < |ps| ensures Dispatch(w, env, wires, ps, i) != Failed <==> Translates(w, env, wires, ps, i) {
      DispatchFailsIff(w, env, wires, ps, i);
    }
  }

  ghost predicate Translates(w: World, env: Env, wires: Wires, ps: seq<Part>, i: nat)
    requires i < |ps|
  {
    var p := ps[i];
    && (p.placement == "" || (p.placement == "vm" && w.tables.explicit(p.typ)))
    && (p.hostVM == "" ==>
        if SelfHosted(w.tables, env.provider, p) then
          w.render(i, p, On(wires.network, [wires.subnet], wires.firewall), true).Some?
        else
          && WiringOf(p.typ).Some? && (p.typ in BLOCKS ==> BLOCKS[p.typ] * Blocks(p) != {})
          && (Lower(TrimSpace(env.provider)) == "digitalocean" && p.typ in {"secrets-manager", "kms", "encryption-key"} ==>
              TrimSpace(p.vaultCluster) != "" || exists j :: NamedCluster(ps, j))
          && w.render(i, p, Place(wires, WiringOf(p.typ).value), false).Some?)
  }

  /** The configuration blocks of which a component of a type carries one. */
  const BLOCKS: map<string, set<string>> := map[
    "virtual-machine" := {"virtual_machine"}, "virtual-machine-scale-group" := {"scale_group"},
    "attach-to-existing-alb" := {"attach_to_existing_alb"}, "monitoring" := {"monitoring"}, "dns" := {"dns"},
    "managed-database" := {"managed_database"}, "cdn-service" := {"cdn"}, "cdn" := {"cdn"}, "email" := {"email"},
    "email-service" := {"email"}, "vm-volume" := {"vm_volume", "block_storage"},
    "block-storage" := {"vm_volume", "block_storage"}, "volume" := {"vm_volume", "block_storage"},
    "prefix-list" := {"prefix_list"}]

  /** The blocks a component carries, the two payloads included. */
  function Blocks(p: Part): set<string> {
    p.configs - {"virtual_machine", "scale_group"} + (if p.vm.Some? then {"virtual_machine"} else {}) +
    (if p.scaleGroup.Some? then {"scale_group"} else {})
  }

  lemma {:induction false} ConfiguredIff(p: Part)
    ensures Configured(p) <==> (p.typ in BLOCKS ==> BLOCKS[p.typ] * Blocks(p) != {})
  {
    BlockNames();
    var bs := Blocks(p);
    assert forall b :: b !in {"virtual_machine", "scale_group"} ==> (b in bs <==> b in p.configs);
    if p.typ in BLOCKS {
      var need := BLOCKS[p.typ];
      assert need * bs != {} <==> exists b :: b in need && b in bs by {
        if b :| b in need && b in bs {
          assert b in need * bs;
        }
      }
    }
  }

  lemma {:induction false} BlockNames()
    ensures {"attach_to_existing_alb", "monitoring", "dns", "managed_database", "cdn", "email", "vm_volume",
             "block_storage", "prefix_list"} !! {"virtual_machine", "scale_group"}
  {
    assert |"virtual_machine"| == 15 && |"scale_group"| == 11 && |"attach_to_existing_alb"| == 22;
    assert |"monitoring"| == 10 && |"dns"| == 3 && |"managed_database"| == 16 && |"cdn"| == 3 && |"email"| == 5;
    assert |"vm_volume"| == 9 && |"block_storage"| == 13 && "prefix_list"[0] == 'p' && "scale_group"[0] == 's';
  }

  /** The first cluster component, and it has a name. */
  ghost predicate NamedCluster(ps: seq<Part>, j: int) {
    0 <= j < |ps| && IsCluster(ps[j]) && ps[j].name != "" && forall i :: 0 <= i < j ==> !IsCluster(ps[i])
  }

  lemma {:induction false} ClusteredIff(env: Env, ps: seq<Part>, p: Part)
    ensures Clustered(env, ps, p) <==>
            (Lower(TrimSpace(env.provider)) == "digitalocean" && p.typ in {"secrets-manager", "kms", "encryption-key"} ==>
             TrimSpace(p.vaultCluster) != "" || exists j :: NamedCluster(ps, j))
  {
    hide TrimSpace, IsCluster, InferCluster;
    InferClusterIsFirst(ps);
    if j :| 0 <= j < |ps| && IsCluster(ps[j]) && ps[j].name != "" && forall i :: 0 <= i < j ==> !IsCluster(ps[i]) {
      assert NamedCluster(ps, j);
    }
  }

  lemma {:induction false} DispatchFailsIff(w: World, env: Env, wires: Wires, ps: seq<Part>, i: nat)
    requires i < |ps|
    ensures Dispatch(w, env, wires, ps, i) != Failed <==> Translates(w, env, wires, ps, i)
  {
    hide WiringOf, Configured, Clustered, NamedCluster, Blocks, TrimSpace;
    ConfiguredIff(ps[i]);
    ClusteredIff(env, ps, ps[i]);
  }

  /** On DigitalOcean a secrets or key component never falls back to a VM, and an environment
      that dispatches has a cluster for it: its own, or the first cluster component. */
  lemma {:induction false} AliasHasCluster(w: World, env: Env, wires: Wires, ps: seq<Part>, i: nat)
    requires w.tables == TABLES && env.provider == DIGITALOCEAN
    requires i < |ps| && Dispatched(w, env, wires, ps, |ps|)
    requires ps[i].typ in {"secrets-manager", "kms", "encryption-key"} && ps[i].placement == "" && ps[i].hostVM == ""
    ensures !Substituted(w.tables, env.provider, ps[i])
    ensures TrimSpace(ps[i].vaultCluster) != "" ||
            exists j :: 0 <= j < |ps| && IsCluster(ps[j]) && ps[j].name != "" && forall k :: 0 <= k < j ==> !IsCluster(ps[k])
  {
    hide WiringOf, Configured, Mitigation.NativelySupported, Mitigation.Mitigatable, Dispatched, Dispatch;
    AliasTypes(ps[i].typ);
    Mitigation.AliasesAreNotMitigated(ps[i].typ, env.provider);
    DispatchedSupported(w, env, wires, ps, i);
    InferClusterIsFirst(ps);
  }

  lemma {:induction false} AliasTypes(typ: string)
    requires typ in {"secrets-manager", "kms", "encryption-key"}
    ensures Mitigation.VaultHAAliasable(typ, DIGITALOCEAN) && Lower(DIGITALOCEAN) == DIGITALOCEAN
    ensures Lower(TrimSpace(DIGITALOCEAN)) == DIGITALOCEAN
  {
    TrimSolid(typ);
    TrimSolid(DIGITALOCEAN);
    assert Lower(typ) == typ && Lower(DIGITALOCEAN) == DIGITALOCEAN;
  }

  // ----- the two passes agree -----

  ghost predicate SomePlaced(docs: seq<Doc>) {
    exists j :: 0 <= j < |docs| && PlacementOf(docs[j]).On?
  }

  /** The network document is there exactly when some document is placed in it. A component
      that runs on a host VM counts in the plan but is not rendered; its host is. */
  lemma {:induction false} NetworkIffPlaced(w: World, env: Env, ps: seq<Part>)
    requires VaultOk(w, env) && Dispatched(w, env, WiresOf(w.tables, env, ps), ps, |ps|)
    requires Hostable(ps)
    requires env.vault.Some? ==> w.vaultNodes(NetworkName(env), NodeCount(env.vault.value)).value != []
    ensures HasNetwork(w.tables, env, ps) <==> SomePlaced(CoreDocs(w, env, ps))
  {
    if HasNetwork(w.tables, env, ps) {
      NetworkIsUsed(w, env, ps);
    }
    if SomePlaced(CoreDocs(w, env, ps)) {
      PlacedHasNetwork(w, env, ps);
    }
  }

  lemma {:induction false} NetworkIsUsed(w: World, env: Env, ps: seq<Part>)
    requires VaultOk(w, env) && Dispatched(w, env, WiresOf(w.tables, env, ps), ps, |ps|)
    requires Hostable(ps)
    requires env.vault.Some? ==> w.vaultNodes(NetworkName(env), NodeCount(env.vault.value)).value != []
    requires HasNetwork(w.tables, env, ps)
    ensures SomePlaced(CoreDocs(w, env, ps))
  {
    hide Dispatch, PlansNetwork, Hostable, Dispatched, Services, Shared, WiresOf;
    var wires := WiresOf(w.tables, env, ps);
    var shared, services := Shared(w, env, ps), Services(w, env, wires, ps, |ps|);
    var vault := VaultDocs(w, env);
    if env.vault.Some? {
      assert PlacementOf(vault[0]).On?;
      assert CoreDocs(w, env, ps)[|shared + services|] == vault[0];
    } else {
      var i :| 0 <= i < |ps| && PlansNetwork(w.tables, env.provider, ps[i]);
      var k := Rendered(w, env, wires, ps, i);
      var j := ServiceAt(w, env, wires, ps, |ps|, k);
      DispatchMatchesPlan(w, env, wires, ps, k);
      assert CoreDocs(w, env, ps)[|shared| + j] == services[j];
    }
  }

  lemma {:induction false} PlacedHasNetwork(w: World, env: Env, ps: seq<Part>)
    requires VaultOk(w, env) && SomePlaced(CoreDocs(w, env, ps))
    ensures HasNetwork(w.tables, env, ps)
  {
    hide Dispatch, PlansNetwork, Services, Shared, WiresOf;
    var wires := WiresOf(w.tables, env, ps);
    var shared, services := Shared(w, env, ps), Services(w, env, wires, ps, |ps|);
    var docs := CoreDocs(w, env, ps);
    var j :| 0 <= j < |docs| && PlacementOf(docs[j]).On?;
    SharedUnplaced(w, env, ps);
    assert forall k :: 0 <= k < |shared| ==> docs[k] == shared[k];
    assert j >= |shared|;
    if j < |shared + services| {
      assert docs[j] == services[j - |shared|];
      var i := ServiceOf(w, env, wires, ps, |ps|, j - |shared|);
      DispatchMatchesPlan(w, env, wires, ps, i);
    }
  }

  /** For every component the plan counts on there is one that is rendered with the network. */
  lemma {:induction false} Rendered(w: World, env: Env, wires: Wires, ps: seq<Part>, i: nat) returns (k: nat)
    requires i < |ps| && Dispatched(w, env, wires, ps, |ps|) && Hostable(ps)
    requires PlansNetwork(w.tables, env.provider, ps[i])
    ensures k < |ps| && Dispatch(w, env, wires, ps, k).Emitted? && PlansNetwork(w.tables, env.provider, ps[k])
  {
    hide WiringOf, Clustered, Hostable, Render;
    k := i;
    if ps[i].hostVM != "" {
      k := HostIsPlain(ps, i);
    }
    assert Dispatch(w, env, wires, ps, k) != Failed;
    NotHosted(w, env, wires, ps, k);
  }

  lemma {:induction false} NotHosted(w: World, env: Env, wires: Wires, ps: seq<Part>, k: nat)
    requires k < |ps| && ps[k].hostVM == ""
    ensures !Dispatch(w, env, wires, ps, k).Hosted?
  {
  }

  lemma {:induction false} SharedUnplaced(w: World, env: Env, ps: seq<Part>)
    ensures forall j :: 0 <= j < |Shared(w, env, ps)| ==> PlacementOf(Shared(w, env, ps)[j]) == Nowhere
  {
  }

  // ----- what the documents say -----

  /** A self-hosted component: its provider has no managed service for it, or its author chose a
      VM for a data service. */
  predicate SelfHosted(t: Tables, provider: string, p: Part) {
    || (t.mitigable(p.typ) && !t.native(p.typ, provider))
    || (p.placement == "vm" && t.explicit(p.typ))
  }

  /** A service document is what the renderer made of its component, by its VM substitute exactly
      when the component is self-hosted. */
  lemma {:induction false} ServiceSays(w: World, env: Env, ps: seq<Part>, j: nat)
    requires VaultOk(w, env) && j < |CoreDocs(w, env, ps)| && CoreDocs(w, env, ps)[j].kind.Service?
    ensures var doc := CoreDocs(w, env, ps)[j];
            var Service(i, placement) := doc.kind;
            && i < |ps| && ps[i].hostVM == ""
            && var body := w.render(i, ps[i], placement, SelfHosted(w.tables, env.provider, ps[i]));
               body.Some? && doc.decls == body.value.decls && doc.refs == body.value.refs
  {
    hide Dispatch, Services, WiresOf, Shared;
    var wires := WiresOf(w.tables, env, ps);
    var shared, services := Shared(w, env, ps), Services(w, env, wires, ps, |ps|);
    SharedKinds(w, env, ps);
    assert forall k :: 0 <= k < |shared| ==> CoreDocs(w, env, ps)[k] == shared[k];
    assert |shared| <= j < |shared + services|;
    assert CoreDocs(w, env, ps)[j] == services[j - |shared|];
    var i := ServiceOf(w, env, wires, ps, |ps|, j - |shared|);
    EmittedSays(w, env, wires, ps, i);
  }

  lemma {:induction false} EmittedSays(w: World, env: Env, wires: Wires, ps: seq<Part>, i: nat)
    requires i < |ps| && Dispatch(w, env, wires, ps, i).Emitted?
    ensures var doc := Dispatch(w, env, wires, ps, i).doc;
            && doc.kind.Service? && doc.kind.index == i && ps[i].hostVM == ""
            && var body := w.render(i, ps[i], doc.kind.placement, SelfHosted(w.tables, env.provider, ps[i]));
               && body.Some? && doc.decls == body.value.decls && doc.refs == body.value.refs
               && Dispatch(w, env, wires, ps, i).flags ==
                  if SelfHosted(w.tables, env.provider, ps[i]) then NO_FLAGS else body.value.flags
  {
    hide WiringOf, Clustered, Configured, Place;
  }

  datatype Extra = Cloudflare | Kubernetes | Helm

  predicate Has(flags: Flags, extra: Extra) {
    match extra
    case Cloudflare => flags.cloudflare
    case Kubernetes => flags.kubernetes
    case Helm => flags.helm
  }

  /** Component i is rendered natively and its renderer pins an extra provider. */
  ghost predicate Pins(w: World, env: Env, ps: seq<Part>, i: nat, extra: Extra)
    requires i < |ps|
  {
    && ps[i].hostVM == "" && !SelfHosted(w.tables, env.provider, ps[i])
    && var outcome := Dispatch(w, env, WiresOf(w.tables, env, ps), ps, i);
       && outcome.Emitted?
       && var body := w.render(i, ps[i], PlacementOf(outcome.doc), false);
          body.Some? && Has(body.value.flags, extra)
  }

  /** An extra provider is pinned exactly when some natively rendered component pins it. */
  lemma {:induction false} FlagsExact(w: World, env: Env, ps: seq<Part>, n: nat, extra: Extra)
    requires n <= |ps|
    ensures Has(ServiceFlags(w, env, WiresOf(w.tables, env, ps), ps, n), extra) <==>
            exists i :: 0 <= i < n && Pins(w, env, ps, i, extra)
  {
    hide Dispatch, WiresOf, SelfHosted, Pins;
    if n > 0 {
      FlagsExact(w, env, ps, n - 1, extra);
      PinsNext(w, env, ps, n - 1, extra);
    }
  }

  lemma {:induction false} PinsNext(w: World, env: Env, ps: seq<Part>, i: nat, extra: Extra)
    requires i < |ps|
    ensures var outcome := Dispatch(w, env, WiresOf(w.tables, env, ps), ps, i);
            Pins(w, env, ps, i, extra) <==> outcome.Emitted? && Has(outcome.flags, extra)
  {
    hide Dispatch, WiresOf, SelfHosted;
    if Dispatch(w, env, WiresOf(w.tables, env, ps), ps, i).Emitted? {
      EmittedSays(w, env, WiresOf(w.tables, env, ps), ps, i);
    }
  }

  /** The firewall document belongs to the environment's network and selects, on DigitalOcean,
      exactly the tags its droplets carry. */
  lemma {:induction false} FirewallSays(w: World, env: Env, ps: seq<Part>, j: nat, t: string)
    requires VaultOk(w, env) && j < |CoreDocs(w, env, ps)| && CoreDocs(w, env, ps)[j].kind.Firewall?
    ensures var kind := CoreDocs(w, env, ps)[j].kind;
            && kind.name == env.name + "-sg" && kind.network == env.name + "-net"
            && (t in kind.tags <==> Lower(env.provider) == "digitalocean" && exists i :: 0 <= i < |ps| && Carries(ps[i], t))
  {
    hide Dispatch, Services, WiresOf, HasNetwork, Guarded, Selectors, Carries;
    var wires := WiresOf(w.tables, env, ps);
    var shared, services := Shared(w, env, ps), Services(w, env, wires, ps, |ps|);
    SelectorsMeaning(ps, t);
    if j < |shared| {
      assert CoreDocs(w, env, ps)[j] == shared[j];
      assert CoreDocs(w, env, ps)[j] == FirewallDoc(w, env, ps);
    } else if j < |shared + services| {
      assert CoreDocs(w, env, ps)[j] == services[j - |shared|];
      var i := ServiceOf(w, env, wires, ps, |ps|, j - |shared|);
      DispatchMatchesPlan(w, env, wires, ps, i);
      assert false;
    }
  }

  /** The network document's subnets are the environment's, or two, each under its number. */
  lemma {:induction false} NetworkSays(w: World, env: Env, ps: seq<Part>, j: nat)
    requires VaultOk(w, env) && j < |CoreDocs(w, env, ps)| && CoreDocs(w, env, ps)[j].kind.Network?
    ensures var kind := CoreDocs(w, env, ps)[j].kind;
            && kind.name == env.name + "-net"
            && |kind.subnets| == (if env.subnets == [] then 2 else |env.subnets|)
            && forall i :: 0 <= i < |kind.subnets| ==> kind.subnets[i] == env.name + "-net" + "-subnet-" + Decimal(i + 1)
  {
    hide CoreDocs, Decimal;
    NetworkIndex(w, env, ps, j);
    var at := NetworkAt(w, env, ps);
    NetworkIndex(w, env, ps, at);
  }

  /** The network drawn is the one the environment asks for: its provider, its address range and
      its subnets in order, with a range and two subnets of its own where they are left open. */
  lemma {:induction false} NetworkPlanSays(w: World, env: Env)
    ensures var plan := NetworkPlan(w.net, env);
            && plan.provider == Lower(env.provider) && plan.vpcName == env.name + "-net"
            && plan.cidr == (if env.cidr == "" then "10.0.0.0/16" else env.cidr)
            && (w.net.resolveRegion(env.region, env.provider).Some? ==>
                plan.cspRegion == w.net.resolveRegion(env.region, env.provider).value)
            && |plan.subnets| == (if env.subnets == [] then 2 else |env.subnets|)
            && forall i :: 0 <= i < |plan.subnets| ==>
                 plan.subnets[i].cidr == (if env.subnets == [] then ["10.0.1.0/24", "10.0.2.0/24"] else env.subnets)[i]
    ensures var sheet := w.network(NetworkPlan(w.net, env));
            sheet.Some? ==> NetworkDoc(w, env).decls == sheet.value.decls && NetworkDoc(w, env).refs == sheet.value.refs
  {
    var spec, plan := NetworkSpec(env), NetworkPlan(w.net, env);
    assert |NetworkName(env)| >= 4;
    forall i | 0 <= i < |plan.subnets| ensures plan.subnets[i].cidr == spec.subnets[i] {
      Net.SubnetsKept(spec, plan.cspRegion, i);
    }
  }

  /** The Vault nodes come last, one document for each the node renderer draws; three nodes when
      the environment leaves the number open. */
  lemma {:induction false} VaultNodesLast(w: World, env: Env, ps: seq<Part>, count: int)
    requires VaultOk(w, env) && env.vault == Some(count)
    ensures var bodies := w.vaultNodes(env.name + "-net", if count == 0 then 3 else count);
            && Lower(env.provider) == "digitalocean" && count in {0, 1, 3}
            && bodies.Some? && |bodies.value| <= |CoreDocs(w, env, ps)|
            && var docs := CoreDocs(w, env, ps)[|CoreDocs(w, env, ps)| - |bodies.value|..];
               forall k :: 0 <= k < |docs| ==>
                 docs[k] == Doc(VaultNode(env.name + "-net"), bodies.value[k].decls, bodies.value[k].refs)
  {
    hide Services, Shared, WiresOf;
    var pre := Shared(w, env, ps) + Services(w, env, WiresOf(w.tables, env, ps), ps, |ps|);
    assert CoreDocs(w, env, ps)[|pre|..] == VaultDocs(w, env);
  }

  // ----- documents come after what they name -----

  /** An earlier document is the network the placement names, and its subnets are the first of
      that network's own, or all of them. */
  predicate NetworkBefore(docs: seq<Doc>, j: nat, p: Placement)
    requires j <= |docs| && p.On?
  {
    exists i :: 0 <= i < j && docs[i].kind.Network? &&
                docs[i].kind.name == p.network && p.subnets <= docs[i].kind.subnets
  }

  predicate FirewallBefore(docs: seq<Doc>, j: nat, p: Placement)
    requires j <= |docs| && p.On?
  {
    p.firewall != "" ==>
      exists i :: 0 <= i < j && docs[i].kind.Firewall? &&
                  docs[i].kind.name == p.firewall && docs[i].kind.network == p.network
  }

  predicate Grounded(docs: seq<Doc>, j: nat)
    requires j < |docs|
  {
    var p := PlacementOf(docs[j]);
    p.On? ==> NetworkBefore(docs, j, p) && FirewallBefore(docs, j, p)
  }

  predicate WellPlaced(docs: seq<Doc>) {
    forall j :: 0 <= j < |docs| ==> Grounded(docs, j)
  }

  predicate OneNetwork(docs: seq<Doc>) {
    forall i, j :: 0 <= i < j < |docs| ==> !(docs[i].kind.Network? && docs[j].kind.Network?)
  }

  /** Whatever is placed names the environment's own network, subnets and firewall. */
  predicate Wired(wires: Wires, p: Placement) {
    p.On? ==>
      && p.network == wires.network && (p.subnets <= wires.subnets || p.subnets == [wires.subnet])
      && (p.firewall == "" || p.firewall == wires.firewall)
  }

  lemma {:induction false} DispatchWired(w: World, env: Env, wires: Wires, ps: seq<Part>, i: nat)
    requires i < |ps| && Dispatch(w, env, wires, ps, i).Emitted?
    ensures Wired(wires, PlacementOf(Dispatch(w, env, wires, ps, i).doc))
  {
    hide WiringOf, Clustered, Substituted, Configured;
  }

  /** Every placed document follows the one network document and, if it names a firewall, the
      firewall document; the subnet names it got are that network's own. */
  lemma {:induction false} PlacedAfterNetwork(w: World, env: Env, ps: seq<Part>)
    requires VaultOk(w, env)
    ensures WellPlaced(CoreDocs(w, env, ps)) && OneNetwork(CoreDocs(w, env, ps))
  {
    var docs := CoreDocs(w, env, ps);
    forall j | 0 <= j < |docs| ensures Grounded(docs, j) {
      GroundedAt(w, env, ps, j);
    }
    NetworkOnce(w, env, ps);
  }

  lemma {:induction false} PlacedAreWired(w: World, env: Env, ps: seq<Part>, j: nat)
    requires VaultOk(w, env) && j < |CoreDocs(w, env, ps)| && PlacementOf(CoreDocs(w, env, ps)[j]).On?
    ensures j >= |Shared(w, env, ps)|
    ensures Wired(WiresOf(w.tables, env, ps), PlacementOf(CoreDocs(w, env, ps)[j]))
    ensures !CoreDocs(w, env, ps)[j].kind.Network?
  {
    hide Dispatch, Services, Shared, WiresOf;
    var wires := WiresOf(w.tables, env, ps);
    var shared, services := Shared(w, env, ps), Services(w, env, wires, ps, |ps|);
    var docs := CoreDocs(w, env, ps);
    SharedUnplaced(w, env, ps);
    assert forall k :: 0 <= k < |shared| ==> docs[k] == shared[k];
    assert j >= |shared|;
    assert wires.network == NetworkName(env) by {
      WiresNetwork(w.tables, env, ps);
    }
    if j < |shared + services| {
      assert docs[j] == services[j - |shared|];
      var i := ServiceOf(w, env, wires, ps, |ps|, j - |shared|);
      DispatchWired(w, env, wires, ps, i);
    }
  }

  lemma {:induction false} WiresNetwork(t: Tables, env: Env, ps: seq<Part>)
    ensures WiresOf(t, env, ps).network == NetworkName(env)
  {
  }

  lemma {:induction false} GroundedAt(w: World, env: Env, ps: seq<Part>, j: nat)
    requires VaultOk(w, env) && j < |CoreDocs(w, env, ps)|
    ensures Grounded(CoreDocs(w, env, ps), j)
  {
    hide CoreDocs, Shared, WiresOf, VaultOk;
    var docs := CoreDocs(w, env, ps);
    var p := PlacementOf(docs[j]);
    if p.On? {
      PlacedAreWired(w, env, ps, j);
      PlacedHasNetwork(w, env, ps);
      var at := NetworkAt(w, env, ps);
      WiredSubnets(w.tables, env, ps, p);
      if p.firewall != "" {
        var k := FirewallAt(w, env, ps);
      }
    }
  }

  lemma {:induction false} NetworkAt(w: World, env: Env, ps: seq<Part>) returns (at: nat)
    requires VaultOk(w, env) && HasNetwork(w.tables, env, ps)
    ensures at < |Shared(w, env, ps)| <= |CoreDocs(w, env, ps)|
    ensures CoreDocs(w, env, ps)[at].kind == Network(NetworkName(env), SubnetNames(env))
  {
    hide Services, HasNetwork, Guarded, VaultDocs, VaultOk, WiresOf, NetworkPlan;
    at := |ProjectDocs(env)|;
    assert Shared(w, env, ps)[at] == NetworkDoc(w, env);
    assert CoreDocs(w, env, ps)[at] == Shared(w, env, ps)[at];
  }

  lemma {:induction false} FirewallAt(w: World, env: Env, ps: seq<Part>) returns (at: nat)
    requires VaultOk(w, env) && Guarded(w.tables, env, ps)
    ensures at < |Shared(w, env, ps)| <= |CoreDocs(w, env, ps)|
    ensures CoreDocs(w, env, ps)[at].kind.Firewall?
    ensures CoreDocs(w, env, ps)[at].kind.name == FirewallName(env) && CoreDocs(w, env, ps)[at].kind.network == NetworkName(env)
  {
    hide Services, HasNetwork, Guarded, VaultDocs, VaultOk, WiresOf;
    at := |ProjectDocs(env) + NetworkDocs(w, env, ps)|;
    assert Shared(w, env, ps)[at] == FirewallDoc(w, env, ps);
    assert CoreDocs(w, env, ps)[at] == Shared(w, env, ps)[at];
  }

  lemma {:induction false} WiredSubnets(t: Tables, env: Env, ps: seq<Part>, p: Placement)
    requires p.On? && Wired(WiresOf(t, env, ps), p) && HasNetwork(t, env, ps)
    ensures p.network == NetworkName(env) && p.subnets <= SubnetNames(env)
    ensures p.firewall != "" ==> p.firewall == FirewallName(env) && Guarded(t, env, ps)
  {
    hide HasNetwork, Guarded, SubnetNames;
    FirstSubnet(env);
  }

  lemma {:induction false} NetworkOnce(w: World, env: Env, ps: seq<Part>)
    requires VaultOk(w, env)
    ensures OneNetwork(CoreDocs(w, env, ps))
  {
    hide CoreDocs;
    var docs := CoreDocs(w, env, ps);
    forall j | 0 <= j < |docs| && docs[j].kind.Network? ensures j == |ProjectDocs(env)| {
      NetworkIndex(w, env, ps, j);
    }
  }

  lemma {:induction false} NetworkIndex(w: World, env: Env, ps: seq<Part>, j: nat)
    requires VaultOk(w, env) && j < |CoreDocs(w, env, ps)| && CoreDocs(w, env, ps)[j].kind.Network?
    ensures j == |ProjectDocs(env)| && HasNetwork(w.tables, env, ps)
  {
    hide Dispatch, Services, WiresOf, HasNetwork, Guarded;
    var wires := WiresOf(w.tables, env, ps);
    var shared, services := Shared(w, env, ps), Services(w, env, wires, ps, |ps|);
    var docs := CoreDocs(w, env, ps);
    if j < |shared| {
      assert docs[j] == shared[j];
    } else {
      assert j >= |shared + services| || docs[j] == services[j - |shared|];
      if j < |shared + services| {
        var i := ServiceOf(w, env, wires, ps, |ps|, j - |shared|);
        DispatchMatchesPlan(w, env, wires, ps, i);
        assert false;
      }
    }
  }

  /** Only the fix-ups write a providers block. */
  lemma {:induction false} NoProviders(w: World, env: Env, ps: seq<Part>)
    requires VaultOk(w, env)
    ensures forall doc :: doc in CoreDocs(w, env, ps) ==> !doc.kind.RequiredProviders?
  {
    hide Dispatch, Services, WiresOf, HasNetwork, Guarded;
    var wires := WiresOf(w.tables, env, ps);
    var services := Services(w, env, wires, ps, |ps|);
    forall j | 0 <= j < |services| ensures !services[j].kind.RequiredProviders? {
      var i := ServiceOf(w, env, wires, ps, |ps|, j);
      DispatchMatchesPlan(w, env, wires, ps, i);
    }
  }

  // ----- the firewall -----

  /** Everything the plan counts as a VM is rendered with the environment's firewall, natively
      or by substitution, and placed in the first subnet or in all of them. */
  lemma {:induction false} VMsAreGuarded(w: World, env: Env, ps: seq<Part>, i: nat)
    requires i < |ps| && Dispatch(w, env, WiresOf(w.tables, env, ps), ps, i).Emitted?
    requires PlansVM(w.tables, env.provider, ps[i])
    ensures var p := PlacementOf(Dispatch(w, env, WiresOf(w.tables, env, ps), ps, i).doc);
            && p.On? && p.subnets != [] && p.subnets[0] == SubnetNames(env)[0]
            && (ps[i].typ != SCALE_GROUP || Substituted(w.tables, env.provider, ps[i]) ==> |p.subnets| == 1)
            && p.firewall == if Guarded(w.tables, env, ps) then FirewallName(env) else ""
  {
    hide UnwiredType, Clustered, Guarded, SubnetNames;
    assert PlansNetwork(w.tables, env.provider, ps[i]);
    assert HasNetwork(w.tables, env, ps);
    FirstSubnet(env);
  }

  lemma {:induction false} FirstSubnet(env: Env)
    ensures SubnetNames(env) != []
  {
  }

  predicate Spread(typ: string) {
    typ == SCALE_GROUP || typ in {"managed-database", "cache", "load-balancer", "managed-kubernetes", "container-service"}
  }

  /** The services spread over zones get every subnet natively, at least two different ones
      when the environment leaves the subnets open, and all but the clusters the firewall. */
  lemma {:induction false} SpreadServices(w: World, env: Env, ps: seq<Part>, i: nat)
    requires i < |ps| && Dispatch(w, env, WiresOf(w.tables, env, ps), ps, i).Emitted?
    requires Spread(ps[i].typ) && !Substituted(w.tables, env.provider, ps[i])
    ensures var p := PlacementOf(Dispatch(w, env, WiresOf(w.tables, env, ps), ps, i).doc);
            && p.On? && p.subnets == SubnetNames(env)
            && p.firewall == if Guarded(w.tables, env, ps) && !IsCluster(ps[i]) then FirewallName(env) else ""
    ensures Distinct(SubnetNames(env)) && (env.subnets == [] ==> |SubnetNames(env)| == 2)
  {
    hide UnwiredType, Clustered, Guarded, SubnetNames;
    assert PlansNetwork(w.tables, env.provider, ps[i]);
    assert HasNetwork(w.tables, env, ps);
    SubnetNamesApart(env);
  }

  /** What only attaches to the network names it and nothing in it. */
  lemma {:induction false} AttachedServices(w: World, env: Env, ps: seq<Part>, i: nat)
    requires i < |ps| && Dispatch(w, env, WiresOf(w.tables, env, ps), ps, i).Emitted?
    requires ps[i].typ in {"attach-to-existing-alb", "key-value-store", "kv-store", "keyvalue-store", "dynamodb"}
    requires !Substituted(w.tables, env.provider, ps[i])
    ensures PlacementOf(Dispatch(w, env, WiresOf(w.tables, env, ps), ps, i).doc) == On(env.name + "-net", [], "")
  {
    hide UnwiredType, Clustered, Configured, HasNetwork, Guarded;
    assert NetworkedType(ps[i].typ);
    DispatchMatchesPlan(w, env, WiresOf(w.tables, env, ps), ps, i);
    AttachedTypes(ps[i].typ);
  }

  lemma {:induction false} AttachedTypes(typ: string)
    requires typ in {"attach-to-existing-alb", "key-value-store", "kv-store", "keyvalue-store", "dynamodb"}
    ensures typ != VIRTUAL_MACHINE && typ != SCALE_GROUP
    ensures typ !in {"managed-database", "cache", "load-balancer", "managed-kubernetes", "container-service"}
  {
    assert typ == "attach-to-existing-alb" ==> typ[1] == 't' && |typ| == 22;
    assert typ == "key-value-store" ==> typ[0] == 'k' && |typ| == 15;
    assert typ == "kv-store" ==> typ[0] == 'k';
    assert typ == "keyvalue-store" ==> typ[0] == 'k';
    assert typ == "dynamodb" ==> typ[0] == 'd';
  }

  lemma {:induction false} SubnetNamesApart(env: Env)
    ensures Distinct(SubnetNames(env)) && (env.subnets == [] ==> |SubnetNames(env)| == 2)
  {
    forall i, j | 0 <= i < j < |SubnetNames(env)| ensures SubnetNames(env)[i] != SubnetNames(env)[j] {
      Net.SubnetNamesDistinct(NetworkName(env), i, j);
    }
  }

  /** Runs on a VM for no other reason than that the author asked for it. */
  predicate ByChoiceAlone(t: Tables, provider: string, p: Part) {
    && p.placement == "vm" && t.explicit(p.typ)
    && !ComputeType(p.typ) && (t.mitigable(p.typ) ==> t.native(p.typ, provider))
  }

  predicate HasFirewallDoc(docs: seq<Doc>) {
    exists doc :: doc in docs && doc.kind.Firewall?
  }

  /** The documents hold a firewall exactly when there is a VM and either something is exposed or,
      under the baseline, some VM is there for another reason than its author's choice. The
      baseline is documented to lock down egress for all compute. */
  lemma {:induction false} BaselineFirewallIff(w: World, env: Env, ps: seq<Part>)
    requires VaultOk(w, env)
    ensures HasFirewallDoc(CoreDocs(w, env, ps)) <==>
            && (env.vault.Some? || exists i :: 0 <= i < |ps| && RunsOnVM(w.tables, env.provider, ps[i]))
            && (env.expose != [] || env.ingress != [] ||
                (env.baseline && exists i :: 0 <= i < |ps| && RunsOnVM(w.tables, env.provider, ps[i]) &&
                                             !ByChoiceAlone(w.tables, env.provider, ps[i])))
  {
    hide CoreDocs, RunsOnVM, ByChoiceAlone, PlansVM, BaselineCompute;
    FirewallShown(w, env, ps);
    forall i | 0 <= i < |ps| ensures RunsOnVM(w.tables, env.provider, ps[i]) <==> PlansVM(w.tables, env.provider, ps[i]) {
      VMReasons(w.tables, env.provider, ps[i]);
    }
    forall i | 0 <= i < |ps|
      ensures BaselineCompute(w.tables, env.provider, ps[i]) <==>
              RunsOnVM(w.tables, env.provider, ps[i]) && !ByChoiceAlone(w.tables, env.provider, ps[i])
    {
      VMReasons(w.tables, env.provider, ps[i]);
    }
  }

  /** A VM, a scale group, or a self-hosted service. */
  predicate RunsOnVM(t: Tables, provider: string, p: Part) {
    p.typ == "virtual-machine" || p.typ == "virtual-machine-scale-group" || SelfHosted(t, provider, p)
  }

  lemma {:induction false} VMReasons(t: Tables, provider: string, p: Part)
    ensures RunsOnVM(t, provider, p) <==> PlansVM(t, provider, p)
    ensures BaselineCompute(t, provider, p) <==> RunsOnVM(t, provider, p) && !ByChoiceAlone(t, provider, p)
  {
  }

  lemma {:induction false} FirewallShown(w: World, env: Env, ps: seq<Part>)
    requires VaultOk(w, env)
    ensures HasFirewallDoc(CoreDocs(w, env, ps)) <==> Guarded(w.tables, env, ps)
  {
    hide Dispatch, Services, WiresOf, HasNetwork, Guarded;
    var wires := WiresOf(w.tables, env, ps);
    var services := Services(w, env, wires, ps, |ps|);
    forall j | 0 <= j < |services| ensures !services[j].kind.Firewall? {
      var i := ServiceOf(w, env, wires, ps, |ps|, j);
      DispatchMatchesPlan(w, env, wires, ps, i);
    }
    if Guarded(w.tables, env, ps) {
      assert FirewallDoc(w, env, ps) in FirewallDocs(w, env, ps);
      assert FirewallDoc(w, env, ps) in CoreDocs(w, env, ps);
    }
  }

  /** A plain VM is always compute, so the tag pass and the firewall meet: under the baseline
      on DigitalOcean each tag of the pass is a selector of the firewall document. */
  lemma {:induction false} TaggedVMGuarded(w: World, env: Env, ps: seq<Part>, vs: seq<Part>, i: nat)
    requires env.baseline && env.provider == DIGITALOCEAN && VaultOk(w, env)
    requires |vs| == |ps| && AllTaggable(ps, |ps|) && TaggedBelow(env.name, ps, vs, |ps|)
    requires i < |ps| && PlainVM(ps[i])
    ensures FirewallDoc(w, env, vs) in CoreDocs(w, env, vs)
    ensures vs[i].vm.value.tag in FirewallDoc(w, env, vs).kind.tags
    ensures vs[i].vm.value.tag != "" && !EqualFold(vs[i].vm.value.tag, FLEET_TAG)
  {
    hide AllTaggable, TaggedBelow, Selectors, Services, VaultDocs;
    TaggedVMSelected(env.name, ps, vs, i);
    assert BaselineCompute(w.tables, env.provider, vs[i]) && PlansVM(w.tables, env.provider, vs[i]);
    assert FirewallDoc(w, env, vs) in FirewallDocs(w, env, vs);
    assert FirewallDoc(w, env, vs) in Shared(w, env, vs);
    LowerFixed();
  }

  lemma {:induction false} LowerFixed()
    ensures Lower(DIGITALOCEAN) == DIGITALOCEAN
  {
  }

  /** A data service placed on a VM by choice is not compute to the baseline: where the
      provider has the managed service, an environment of nothing else gets its VM and no
      firewall. */
  lemma {:induction false} ForcedPlacementUnguarded(t: Tables, env: Env, p: Part)
    requires env.baseline && env.expose == [] && env.ingress == []
    requires p.placement == "vm" && t.explicit(p.typ) && t.native(p.typ, env.provider) && !ComputeType(p.typ)
    ensures HasVM(t, env, [p]) && !Guarded(t, env, [p])
  {
    assert PlansVM(t, env.provider, [p][0]);
    assert !BaselineCompute(t, env.provider, p);
  }

  /** A cache on AWS is such a service. */
  lemma {:induction false} ForcedCacheOnAWS()
    ensures TABLES.explicit("cache") && TABLES.native("cache", "aws")
  {
    TrimSolid("cache");
    assert Lower("cache") == "cache" && Lower("aws") == "aws";
  }
}
