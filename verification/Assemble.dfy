/** The assembler's planning and dispatch passes: which shared documents an environment needs,
    and what each component is rendered with. */
module Assemble {
  import opened Wrappers
  import opened Text
  import opened HostPlacement
  import opened BaselineTags
  import opened Documents
  import Mitigation
  import Net = Network

  /** The routing predicates both passes consult. */
  datatype Tables = Tables(mitigable: string -> bool, native: (string, string) -> bool, explicit: string -> bool)

  const TABLES :=
    Tables(t => Mitigation.Mitigatable(t), (t, p) => Mitigation.NativelySupported(t, p),
           t => Mitigation.ExplicitVMPlacement(t))

  /** An environment; the vault option is the node count asked for, 0 when left open. */
  datatype Env = Env(
    name: string, provider: string, region: string, cidr: string, subnets: seq<string>,
    expose: seq<int>, ingress: seq<string>, baseline: bool, project: string, vault: Option<int>)

  /** The extra providers a rendered component pins. */
  datatype Flags = Flags(cloudflare: bool, kubernetes: bool, helm: bool) {
    function Or(f: Flags): Flags {
      Flags(cloudflare || f.cloudflare, kubernetes || f.kubernetes, helm || f.helm)
    }
  }

  const NO_FLAGS := Flags(false, false, false)

  datatype Body = Body(decls: seq<Decl>, refs: set<string>, flags: Flags)

  /** What a shared document declares and references. */
  datatype Sheet = Sheet(decls: seq<Decl>, refs: set<string>)

  /** What lies outside the assembler: rendering the network plan, translating and rendering the
      firewall, translating and rendering one component (the flag says whether by its VM
      substitute), and the Vault node renderer. */
  datatype World = World(
    tables: Tables, net: Net.World,
    network: Net.Plan -> Option<Sheet>, firewall: Kind -> Option<Sheet>,
    render: (nat, Part, Placement, bool) -> Option<Body>,
    vaultNodes: (string, int) -> Option<seq<Body>>)

  // ----- planning -----

  /** Runs on a VM instead of as a managed service. */
  predicate Substituted(t: Tables, provider: string, p: Part) {
    (t.mitigable(p.typ) && !t.native(p.typ, provider)) || (p.placement == "vm" && t.explicit(p.typ))
  }

  predicate ComputeType(typ: string) {
    typ == VIRTUAL_MACHINE || typ == SCALE_GROUP
  }

  predicate NetworkedType(typ: string) {
    typ in {"managed-database", "cache", "managed-kubernetes", "container-service", "load-balancer",
            "attach-to-existing-alb", "key-value-store", "kv-store", "keyvalue-store", "dynamodb"}
  }

  predicate PlansVM(t: Tables, provider: string, p: Part) {
    Substituted(t, provider, p) || ComputeType(p.typ)
  }

  predicate PlansNetwork(t: Tables, provider: string, p: Part) {
    PlansVM(t, provider, p) || NetworkedType(p.typ)
  }

  ghost predicate HasVM(t: Tables, env: Env, ps: seq<Part>) {
    env.vault.Some? || exists i :: 0 <= i < |ps| && PlansVM(t, env.provider, ps[i])
  }

  ghost predicate HasNetwork(t: Tables, env: Env, ps: seq<Part>) {
    env.vault.Some? || exists i :: 0 <= i < |ps| && PlansNetwork(t, env.provider, ps[i])
  }

  method Plan(t: Tables, env: Env, ps: seq<Part>) returns (hasVM: bool, hasNetworked: bool)
    ensures hasVM == HasVM(t, env, ps) && hasNetworked == HasNetwork(t, env, ps)
  {
    hasVM, hasNetworked := false, false;
    if env.vault.Some? {
      hasVM, hasNetworked := true, true;
    }
    for i := 0 to |ps|
      invariant hasVM <==> env.vault.Some? || exists j :: 0 <= j < i && PlansVM(t, env.provider, ps[j])
      invariant hasNetworked <==> env.vault.Some? || exists j :: 0 <= j < i && PlansNetwork(t, env.provider, ps[j])
    {
      if Substituted(t, env.provider, ps[i]) {
        hasVM, hasNetworked := true, true;
        assert PlansVM(t, env.provider, ps[i]) && PlansNetwork(t, env.provider, ps[i]);
      } else if ComputeType(ps[i].typ) {
        hasVM, hasNetworked := true, true;
        assert PlansVM(t, env.provider, ps[i]) && PlansNetwork(t, env.provider, ps[i]);
      } else if NetworkedType(ps[i].typ) {
        hasNetworked := true;
        assert PlansNetwork(t, env.provider, ps[i]);
      }
    }
  }

  // ----- baseline egress -----

  /** The components the derived baseline counts as compute: a forced VM placement is not one. */
  predicate BaselineCompute(t: Tables, provider: string, p: Part) {
    ComputeType(p.typ) || (t.mitigable(p.typ) && !t.native(p.typ, provider))
  }

  ghost predicate HasEgress(t: Tables, env: Env, ps: seq<Part>) {
    env.baseline && exists i :: 0 <= i < |ps| && BaselineCompute(t, env.provider, ps[i])
  }

  method DeriveEgress(t: Tables, env: Env, ps: seq<Part>) returns (egress: bool)
    ensures egress == HasEgress(t, env, ps)
  {
    if !env.baseline {
      return false;
    }
    egress := false;
    for i := 0 to |ps|
      invariant egress <==> exists j :: 0 <= j < i && BaselineCompute(t, env.provider, ps[j])
    {
      if BaselineCompute(t, env.provider, ps[i]) {
        egress := true;
      }
    }
  }

  // ----- the shared documents -----

  function NetworkName(env: Env): string {
    env.name + "-net"
  }

  function FirewallName(env: Env): string {
    env.name + "-sg"
  }

  function Subnets(env: Env): seq<string> {
    if env.subnets == [] then ["10.0.1.0/24", "10.0.2.0/24"] else env.subnets
  }

  function NetworkSpec(env: Env): Net.Spec {
    Net.Spec(NetworkName(env), env.region, env.provider, if env.cidr == "" then "10.0.0.0/16" else env.cidr,
             Subnets(env))
  }

  function SubnetNames(env: Env): seq<string> {
    seq(|Subnets(env)|, i requires 0 <= i < |Subnets(env)| => Net.SubnetName(NetworkName(env), i))
  }

  function Dressed(kind: Kind, sheet: Option<Sheet>): Doc {
    match sheet
    case None => Doc(kind, [], {})
    case Some(s) => Doc(kind, s.decls, s.refs)
  }

  function NetworkPlan(w: Net.World, env: Env): Net.Plan {
    var spec := NetworkSpec(env);
    var region := match w.resolveRegion(spec.region, spec.provider) { case Some(r) => r case None => "" };
    Net.Plan(Lower(spec.provider), region, Net.VpcName(spec), spec.cidr, Net.SubnetPlans(spec, region))
  }

  function NetworkDoc(w: World, env: Env): Doc {
    Dressed(Network(NetworkName(env), SubnetNames(env)), w.network(NetworkPlan(w.net, env)))
  }

  function FirewallKind(env: Env, ps: seq<Part>): Kind {
    var tags := if Lower(env.provider) == DIGITALOCEAN then Selectors(ps) else [];
    Firewall(FirewallName(env), NetworkName(env), tags)
  }

  function FirewallDoc(w: World, env: Env, ps: seq<Part>): Doc {
    Dressed(FirewallKind(env, ps), w.firewall(FirewallKind(env, ps)))
  }

  ghost predicate Guarded(t: Tables, env: Env, ps: seq<Part>) {
    HasVM(t, env, ps) && (env.expose != [] || env.ingress != [] || HasEgress(t, env, ps))
  }

  /** The names handed to the renderers. */
  datatype Wires = Wires(network: string, subnet: string, subnets: seq<string>, firewall: string)

  ghost function WiresOf(t: Tables, env: Env, ps: seq<Part>): Wires {
    Wires(NetworkName(env),
          if HasNetwork(t, env, ps) then SubnetNames(env)[0] else "",
          if HasNetwork(t, env, ps) then SubnetNames(env) else [],
          if Guarded(t, env, ps) then FirewallName(env) else "")
  }

  // ----- dispatch -----

  datatype Wiring = Unwired | NetworkOnly | AllSubnets | AllSubnetsGuarded | FirstSubnetGuarded

  const STORAGE_TYPES: set<string> := {
    "object-storage", "blob-storage", "static-site", "static-website", "static-hosting", "frontend-app", "spa",
    "container-registry", "image-registry", "vm-volume", "block-storage", "volume", "cdn-service", "cdn" }

  const SECURITY_TYPES: set<string> := {
    "access-policy", "iam", "secrets-manager", "kms", "encryption-key", "waf-service", "waf", "tls-certificate",
    "certificate", "cert-manager", "managed-certificate", "workload-identity", "instance-identity", "workload-id",
    "vault-ha", "vault", "vault-cluster" }

  const EDGE_TYPES: set<string> := {
    "dns", "reserved-ip", "static-ip", "elastic-ip", "vpn-access", "jit-access", "vpn-door", "prefix-list", "email",
    "email-service", "monitoring", "synthetics", "uptime-check", "tracing", "distributed-tracing", "tempo",
    "trace-collector", "otel-tracing" }

  const RUNTIME_TYPES: set<string> := {
    "managed-queue", "message-queue", "event-streaming", "event-bus", "serverless-function", "web-service",
    "app-service", "app-platform-service", "scheduled-trigger", "cron-job", "scheduled-task",
    "pipeline-control-plane", "pyx-lambda-control-plane", "pipeline-runner" }

  /** The types whose arm hands no network name on. */
  predicate UnwiredType(typ: string) {
    typ in STORAGE_TYPES || typ in SECURITY_TYPES || typ in EDGE_TYPES || typ in RUNTIME_TYPES
  }

  /** What the arm for a component type hands to its renderer; none for an unsupported type. */
  function WiringOf(typ: string): Option<Wiring> {
    if typ == VIRTUAL_MACHINE then Some(FirstSubnetGuarded)
    else if typ == SCALE_GROUP then Some(AllSubnetsGuarded)
    else if typ in {"managed-database", "cache", "load-balancer"} then Some(AllSubnetsGuarded)
    else if typ in {"managed-kubernetes", "container-service"} then Some(AllSubnets)
    else if typ in {"attach-to-existing-alb", "key-value-store", "kv-store", "keyvalue-store", "dynamodb"} then
      Some(NetworkOnly)
    else if UnwiredType(typ) then Some(Unwired)
    else None
  }

  /** The planning switch lists exactly the types whose dispatch arm uses the network. */
  lemma {:induction false} WiringMatchesPlan(typ: string)
    requires WiringOf(typ).Some?
    ensures WiringOf(typ).value != Unwired <==> ComputeType(typ) || NetworkedType(typ)
  {
    hide UnwiredType;
    if ComputeType(typ) || NetworkedType(typ) {
      WiredApart(typ);
    }
  }

  lemma {:induction false} WiredApart(typ: string)
    requires ComputeType(typ) || NetworkedType(typ)
    ensures !UnwiredType(typ)
  {
    ApartStorage(typ);
    ApartSecurity(typ);
    ApartEdge(typ);
    ApartRuntime(typ);
  }

  lemma {:induction false} ApartStorage(typ: string)
    requires ComputeType(typ) || NetworkedType(typ)
    ensures typ !in STORAGE_TYPES
  {
  }

  lemma {:induction false} ApartSecurity(typ: string)
    requires ComputeType(typ) || NetworkedType(typ)
    ensures typ !in SECURITY_TYPES
  {
  }

  lemma {:induction false} ApartEdge(typ: string)
    requires ComputeType(typ) || NetworkedType(typ)
    ensures typ !in EDGE_TYPES
  {
  }

  lemma {:induction false} ApartRuntime(typ: string)
    requires ComputeType(typ) || NetworkedType(typ)
    ensures typ !in RUNTIME_TYPES
  {
  }

  function Place(wires: Wires, wiring: Wiring): Placement {
    match wiring
    case Unwired => Nowhere
    case NetworkOnly => On(wires.network, [], "")
    case AllSubnets => On(wires.network, wires.subnets, "")
    case AllSubnetsGuarded => On(wires.network, wires.subnets, wires.firewall)
    case FirstSubnetGuarded => On(wires.network, [wires.subnet], wires.firewall)
  }

  /** The name of the first cluster component. */
  function InferCluster(ps: seq<Part>): string {
    if ps == [] then ""
    else if IsCluster(ps[0]) then ps[0].name
    else InferCluster(ps[1..])
  }

  /** The first cluster component decides, even when its name is empty. */
  method InferClusterName(ps: seq<Part>) returns (name: string)
    ensures name == InferCluster(ps)
    ensures name != "" ==>
              exists i :: 0 <= i < |ps| && IsCluster(ps[i]) && ps[i].name == name &&
                          forall j :: 0 <= j < i ==> !IsCluster(ps[j])
    ensures name == "" ==>
              forall i :: 0 <= i < |ps| && IsCluster(ps[i]) ==>
                            exists j :: 0 <= j <= i && IsCluster(ps[j]) && ps[j].name == ""
  {
    for i := 0 to |ps|
      invariant forall j :: 0 <= j < i ==> !IsCluster(ps[j])
      invariant InferCluster(ps) == InferCluster(ps[i..])
    {
      assert ps[i..][1..] == ps[i + 1..];
      if IsCluster(ps[i]) {
        return ps[i].name;
      }
    }
    name := "";
  }

  predicate IsCluster(p: Part) {
    p.typ == "managed-kubernetes" || p.typ == "container-service"
  }

  /** A secrets or key component on DigitalOcean runs on the Vault operator and needs a cluster. */
  predicate Clustered(env: Env, ps: seq<Part>, p: Part) {
    Lower(TrimSpace(env.provider)) == DIGITALOCEAN && p.typ in {"secrets-manager", "kms", "encryption-key"} ==>
      TrimSpace(p.vaultCluster) != "" || InferCluster(ps) != ""
  }

  /** The configuration the arm for a component insists on before translating. */
  predicate Configured(p: Part) {
    && (p.typ == VIRTUAL_MACHINE ==> p.vm.Some?)
    && (p.typ == SCALE_GROUP ==> p.scaleGroup.Some?)
    && (p.typ == "attach-to-existing-alb" ==> "attach_to_existing_alb" in p.configs)
    && (p.typ == "monitoring" ==> "monitoring" in p.configs)
    && (p.typ == "dns" ==> "dns" in p.configs)
    && (p.typ == "managed-database" ==> "managed_database" in p.configs)
    && (p.typ in {"cdn-service", "cdn"} ==> "cdn" in p.configs)
    && (p.typ in {"email", "email-service"} ==> "email" in p.configs)
    && (p.typ in {"vm-volume", "block-storage", "volume"} ==> "vm_volume" in p.configs || "block_storage" in p.configs)
    && (p.typ == "prefix-list" ==> "prefix_list" in p.configs)
  }

  datatype Outcome = Hosted | Failed | Emitted(doc: Doc, flags: Flags)

  function Render(w: World, i: nat, p: Part, placement: Placement, substitute: bool): Outcome {
    match w.render(i, p, placement, substitute)
    case None => Failed
    case Some(body) =>
      Emitted(Doc(Service(i, placement), body.decls, body.refs), if substitute then NO_FLAGS else body.flags)
  }

  function Dispatch(w: World, env: Env, wires: Wires, ps: seq<Part>, i: nat): Outcome
    requires i < |ps|
  {
    var p := ps[i];
    if p.placement != "" && p.placement != "vm" then Failed
    else if p.placement == "vm" && !w.tables.explicit(p.typ) then Failed
    else if p.hostVM != "" then Hosted
    else if Substituted(w.tables, env.provider, p) then Render(w, i, p, Place(wires, FirstSubnetGuarded), true)
    else if WiringOf(p.typ).None? || !Configured(p) || !Clustered(env, ps, p) then Failed
    else Render(w, i, p, Place(wires, WiringOf(p.typ).value), false)
  }

  function Services(w: World, env: Env, wires: Wires, ps: seq<Part>, n: nat): seq<Doc>
    requires n <= |ps|
  {
    if n == 0 then []
    else Services(w, env, wires, ps, n - 1) +
         match Dispatch(w, env, wires, ps, n - 1) { case Emitted(doc, _) => [doc] case _ => [] }
  }

  function ServiceFlags(w: World, env: Env, wires: Wires, ps: seq<Part>, n: nat): Flags
    requires n <= |ps|
  {
    if n == 0 then NO_FLAGS
    else
      var before := ServiceFlags(w, env, wires, ps, n - 1);
      match Dispatch(w, env, wires, ps, n - 1) { case Emitted(_, flags) => before.Or(flags) case _ => before }
  }

  predicate Dispatched(w: World, env: Env, wires: Wires, ps: seq<Part>, n: nat)
    requires n <= |ps|
  {
    forall i :: 0 <= i < n ==> Dispatch(w, env, wires, ps, i) != Failed
  }

  method DispatchAll(w: World, env: Env, wires: Wires, ps: seq<Part>) returns (r: Option<(seq<Doc>, Flags)>)
    ensures r.Some? <==> Dispatched(w, env, wires, ps, |ps|)
    ensures r.Some? ==> r.value == (Services(w, env, wires, ps, |ps|), ServiceFlags(w, env, wires, ps, |ps|))
  {
    hide Dispatch;
    var docs, flags := [], NO_FLAGS;
    for i := 0 to |ps|
      invariant Dispatched(w, env, wires, ps, i)
      invariant docs == Services(w, env, wires, ps, i) && flags == ServiceFlags(w, env, wires, ps, i)
    {
      match Dispatch(w, env, wires, ps, i) {
        case Failed => return None;
        case Hosted =>
        case Emitted(doc, more) => docs, flags := docs + [doc], flags.Or(more);
      }
    }
    r := Some((docs, flags));
  }

  // ----- the Vault nodes -----

  function NodeCount(n: int): int {
    if n == 0 then 3 else n
  }

  predicate VaultOk(w: World, env: Env) {
    env.vault.Some? ==>
      && Lower(env.provider) == DIGITALOCEAN && env.vault.value in {0, 1, 3}
      && w.vaultNodes(NetworkName(env), NodeCount(env.vault.value)).Some?
  }

  function VaultDocs(w: World, env: Env): seq<Doc>
    requires VaultOk(w, env)
  {
    if env.vault.None? then []
    else
      var bodies := w.vaultNodes(NetworkName(env), NodeCount(env.vault.value)).value;
      seq(|bodies|, i requires 0 <= i < |bodies| => Doc(VaultNode(NetworkName(env)), bodies[i].decls, bodies[i].refs))
  }
}
