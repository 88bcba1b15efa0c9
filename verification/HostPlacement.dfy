/** Services bound to an explicit host VM: their sealed bootstraps are appended to the host's
    user_data, on a clone of the host's payload. */
module HostPlacement {
  import opened Wrappers
  import opened Text
  import opened Template
  import opened Heredoc
  import opened Mitigation
  import V = VmHeredoc

  /** The fields of a VM payload the assembler only copies. */
  datatype Sizing = Sizing(architecture: string, cpu: string, ram: string, os: string, osVersion: string,
                           instanceProfile: string, sshKeys: seq<string>)

  /** A VM payload, shared by reference between the caller and the assembler. */
  class AssembleVM {
    const sizing: Sizing
    var userData: string
    var tag: string

    constructor (sizing: Sizing, userData: string, tag: string)
      ensures this.sizing == sizing && this.userData == userData && this.tag == tag
    {
      this.sizing, this.userData, this.tag := sizing, userData, tag;
    }
  }

  datatype ScaleGroup = ScaleGroup(userData: string, byProvider: seq<(string, string)>, sizing: Sizing)

  /** A component of the caller; configs names the configuration blocks it carries besides the
      two payloads. */
  datatype Component = Component(
    name: string, typ: string, count: int, hostVM: string, hostBootstrap: string, placement: string,
    vm: AssembleVM?, scaleGroup: Option<ScaleGroup>, configs: set<string>,
    vaultCluster: string)

  const VIRTUAL_MACHINE := "virtual-machine"
  const SHEBANG := "#!/bin/bash\n"

  // ----- components as values -----

  datatype VM = VM(sizing: Sizing, userData: string, tag: string)

  /** What a component says, payload included. */
  datatype Part = Part(
    name: string, typ: string, count: int, hostVM: string, hostBootstrap: string, placement: string,
    vm: Option<VM>, scaleGroup: Option<ScaleGroup>, configs: set<string>,
    vaultCluster: string)

  function Payloads(cs: seq<Component>): set<AssembleVM> {
    set c | c in cs && c.vm != null :: c.vm
  }

  function View(c: Component): Part
    reads c.vm
  {
    Part(c.name, c.typ, c.count, c.hostVM, c.hostBootstrap, c.placement,
         if c.vm == null then None else Some(VM(c.vm.sizing, c.vm.userData, c.vm.tag)), c.scaleGroup,
         c.configs, c.vaultCluster)
  }

  function Views(cs: seq<Component>): (ps: seq<Part>)
    reads Payloads(cs)
    ensures |ps| == |cs| && forall i :: 0 <= i < |cs| ==> ps[i] == View(cs[i])
  {
    if cs == [] then [] else Views(cs[..|cs| - 1]) + [View(cs[|cs| - 1])]
  }

  lemma {:induction false} ViewsUpdate(cs: seq<Component>, i: nat, c: Component)
    requires i < |cs|
    ensures Views(cs[i := c]) == Views(cs)[i := View(c)]
  {
  }

  /** Two components say the same exactly when they agree in every field, payloads included. */
  lemma {:induction false} ViewTells(c: Component, d: Component)
    ensures View(c) == View(d) <==>
            && c.(vm := null) == d.(vm := null)
            && (c.vm == null <==> d.vm == null)
            && (c.vm != null && d.vm != null ==>
                c.vm.sizing == d.vm.sizing && c.vm.userData == d.vm.userData && c.vm.tag == d.vm.tag)
  {
  }

  predicate IsHost(p: Part) {
    p.typ == VIRTUAL_MACHINE
  }

  // ----- scripts -----

  /** A script extended by a bootstrap on its own line. */
  function Attach(script: string, bootstrap: string): string {
    if script == "" then bootstrap else script + "\n" + bootstrap
  }

  function Script(original: string, bootstraps: seq<string>): string {
    if bootstraps == [] then original
    else Attach(Script(original, bootstraps[..|bootstraps| - 1]), bootstraps[|bootstraps| - 1])
  }

  predicate Sealed(script: string) {
    HasPrefix(script, SHEBANG)
  }

  predicate Compatible(script: string) {
    script == "" || Sealed(script)
  }

  /** A bound host's script is its original, if any, and its bootstraps, one after the other
      and joined by newlines. */
  lemma {:induction false} ScriptIsJoined(original: string, bootstraps: seq<string>)
    requires forall b :: b in bootstraps ==> b != ""
    ensures Script(original, bootstraps) == Join((if original == "" then [] else [original]) + bootstraps)
  {
    var head := if original == "" then [] else [original];
    if bootstraps == [] {
      assert head + bootstraps == head;
    } else {
      var init, last := bootstraps[..|bootstraps| - 1], bootstraps[|bootstraps| - 1];
      assert forall b :: b in init ==> b in bootstraps;
      ScriptIsJoined(original, init);
      assert head + bootstraps == (head + init) + [last];
      JoinLast(head + init, last);
      if init != [] {
        assert last in bootstraps && init[0] in bootstraps;
        JoinFilled(head + init);
      }
    }
  }

  lemma {:induction false} JoinLast(ls: seq<string>, last: string)
    ensures Join(ls + [last]) == if ls == [] then last else Join(ls) + "\n" + last
  {
    if ls != [] {
      assert (ls + [last])[1..] == ls[1..] + [last];
      JoinLast(ls[1..], last);
    }
  }

  lemma {:induction false} JoinFilled(ls: seq<string>)
    requires ls != [] && ls[0] != ""
    ensures Join(ls) != ""
  {
  }

  lemma {:induction false} ScriptSealed(original: string, bootstraps: seq<string>)
    requires Compatible(original)
    requires forall b :: b in bootstraps ==> Sealed(b)
    ensures Compatible(Script(original, bootstraps))
    ensures bootstraps != [] ==> Sealed(Script(original, bootstraps))
  {
    if bootstraps != [] {
      ScriptSealed(original, bootstraps[..|bootstraps| - 1]);
      assert bootstraps[|bootstraps| - 1] in bootstraps;
    }
  }

  /** A sealed script starts in column 0, so the VM renderer's heredoc reads it back
      literally: no bootstrap text becomes a live template. */
  lemma {:induction false} SealedScriptSurvives(script: string, k: nat)
    requires Sealed(script) && V.Fewest(k, Split(V.Normalise(script)))
    ensures Evaluate(V.Expression(V.Delimiter(k), EscapeLines(All, Split(V.Normalise(script)))))
            == Some(Literal(V.Normalise(script)))
  {
    assert script[0] == SHEBANG[0];
    V.UnindentedReadsBack(script, k);
  }

  // ----- what a host receives -----

  /** The bootstraps bound to a host among the first n components, in declaration order. */
  function Bootstraps(ps: seq<Part>, host: string, n: nat): seq<string>
    requires n <= |ps|
  {
    if n == 0 then []
    else Bootstraps(ps, host, n - 1) + if ps[n - 1].hostVM == host then [ps[n - 1].hostBootstrap] else []
  }

  /** The bootstraps a component receives from the first n components: none unless it is a
      host that a service can name. */
  function Received(ps: seq<Part>, i: nat, n: nat): seq<string>
    requires i < |ps| && n <= |ps|
  {
    if IsHost(ps[i]) && ps[i].name != "" then Bootstraps(ps, ps[i].name, n) else []
  }

  function BoundPart(p: Part, received: seq<string>): Part {
    if p.vm.None? then p else p.(vm := Some(p.vm.value.(userData := Script(p.vm.value.userData, received))))
  }

  /** Part k may be bound to host i. */
  predicate Binds(ps: seq<Part>, k: nat, i: nat)
    requires k < |ps| && i < |ps|
  {
    && IsHost(ps[i]) && ps[i].name == ps[k].hostVM
    && ps[i].vm.Some? && ps[i].count == 1
    && ps[k].placement == "vm" && ExplicitVMPlacement(ps[k].typ) && Sealed(ps[k].hostBootstrap)
    && Compatible(ps[i].vm.value.userData)
  }

  predicate DistinctHosts(ps: seq<Part>) {
    forall i, j :: 0 <= i < j < |ps| && IsHost(ps[i]) && IsHost(ps[j]) ==> ps[i].name != ps[j].name
  }

  predicate Placeable(ps: seq<Part>, k: nat)
    requires k < |ps|
  {
    if ps[k].hostVM == "" then ps[k].hostBootstrap == ""
    else exists i :: 0 <= i < |ps| && Binds(ps, k, i)
  }

  predicate PlaceableBelow(ps: seq<Part>, n: nat)
    requires n <= |ps|
  {
    forall k :: 0 <= k < n ==> Placeable(ps, k)
  }

  /** The component lists that can be bound. */
  predicate Hostable(ps: seq<Part>) {
    DistinctHosts(ps) && PlaceableBelow(ps, |ps|)
  }

  /** A data service that names a host: the one VM of that name and no other, counted once, with a
      payload, bare or already bash, and a sealed bash bootstrap to run on it. */
  predicate RunsOn(ps: seq<Part>, k: nat, i: nat)
    requires k < |ps| && i < |ps|
  {
    && ps[i].typ == "virtual-machine" && ps[i].name == ps[k].hostVM && ps[i].count == 1
    && ps[i].vm.Some? && (ps[i].vm.value.userData == "" || "#!/bin/bash\n" <= ps[i].vm.value.userData)
    && ps[k].placement == "vm" && Lower(TrimSpace(ps[k].typ)) in {"managed-database", "cache"}
    && "#!/bin/bash\n" <= ps[k].hostBootstrap
  }

  /** Which lists can be bound, in the author's terms. */
  lemma {:induction false} HostableIff(ps: seq<Part>)
    ensures Hostable(ps) <==>
            && (forall i, j :: 0 <= i < j < |ps| && ps[i].typ == "virtual-machine" && ps[j].typ == "virtual-machine" ==>
                  ps[i].name != ps[j].name)
            && (forall k :: 0 <= k < |ps| && ps[k].hostVM == "" ==> ps[k].hostBootstrap == "")
            && (forall k :: 0 <= k < |ps| && ps[k].hostVM != "" ==> exists i :: 0 <= i < |ps| && RunsOn(ps, k, i))
  {
    hide Binds, RunsOn, TrimSpace;
    forall k, i | 0 <= k < |ps| && 0 <= i < |ps| ensures RunsOn(ps, k, i) <==> Binds(ps, k, i) {
      BindsIff(ps, k, i);
    }
    forall k | 0 <= k < |ps|
      ensures Placeable(ps, k) <==>
              if ps[k].hostVM == "" then ps[k].hostBootstrap == "" else exists i :: 0 <= i < |ps| && RunsOn(ps, k, i)
    {
    }
  }

  lemma {:induction false} BindsIff(ps: seq<Part>, k: nat, i: nat)
    requires k < |ps| && i < |ps|
    ensures RunsOn(ps, k, i) <==> Binds(ps, k, i)
  {
    hide TrimSpace;
  }

  lemma {:induction false} BootstrapOf(ps: seq<Part>, host: string, n: nat, b: string) returns (k: nat)
    requires n <= |ps| && b in Bootstraps(ps, host, n)
    ensures k < n && ps[k].hostVM == host && ps[k].hostBootstrap == b
  {
    if ps[n - 1].hostVM == host && ps[n - 1].hostBootstrap == b {
      k := n - 1;
    } else {
      k := BootstrapOf(ps, host, n - 1, b);
    }
  }

  /** The bootstraps come from exactly the components bound to the host, each once and in
      declaration order: the j-th from component at[j]. */
  lemma {:induction false} BootstrapsInOrder(ps: seq<Part>, host: string, n: nat) returns (at: seq<nat>)
    requires n <= |ps|
    ensures |at| == |Bootstraps(ps, host, n)|
    ensures forall j :: 0 <= j < |at| ==>
              at[j] < n && ps[at[j]].hostVM == host && Bootstraps(ps, host, n)[j] == ps[at[j]].hostBootstrap
    ensures forall i, j :: 0 <= i < j < |at| ==> at[i] < at[j]
    ensures forall k :: 0 <= k < n && ps[k].hostVM == host ==> k in at
  {
    at := [];
    if n > 0 {
      at := BootstrapsInOrder(ps, host, n - 1);
      if ps[n - 1].hostVM == host {
        at := at + [n - 1];
      }
    }
  }

  lemma {:induction false} BoundTo(ps: seq<Part>, k: nat, i: nat)
    requires k < |ps| && i < |ps| && DistinctHosts(ps) && Placeable(ps, k)
    requires IsHost(ps[i]) && ps[i].name == ps[k].hostVM != ""
    ensures Binds(ps, k, i)
  {
    var j :| 0 <= j < |ps| && Binds(ps, k, j);
  }

  /** What a host received it received by bindings: its original script and every bootstrap
      are sealed, so the script it ends with is sealed too. */
  lemma {:induction false} HostScriptSealed(ps: seq<Part>, i: nat, n: nat)
    requires i < |ps| && n <= |ps| && DistinctHosts(ps) && PlaceableBelow(ps, n)
    requires Received(ps, i, n) != []
    ensures ps[i].vm.Some? && Compatible(ps[i].vm.value.userData)
    ensures forall b :: b in Received(ps, i, n) ==> Sealed(b)
    ensures Sealed(BoundPart(ps[i], Received(ps, i, n)).vm.value.userData)
  {
    forall b | b in Received(ps, i, n)
      ensures Sealed(b) && ps[i].vm.Some? && Compatible(ps[i].vm.value.userData)
    {
      var k := BootstrapOf(ps, ps[i].name, n, b);
      BoundTo(ps, k, i);
    }
    assert Received(ps, i, n)[0] in Received(ps, i, n);
    ScriptSealed(ps[i].vm.value.userData, Received(ps, i, n));
  }

  /** The check on a host's current script is the check on its original. */
  lemma {:induction false} StillCompatible(ps: seq<Part>, i: nat, n: nat)
    requires i < |ps| && n <= |ps| && DistinctHosts(ps) && PlaceableBelow(ps, n) && ps[i].vm.Some?
    ensures Compatible(BoundPart(ps[i], Received(ps, i, n)).vm.value.userData) <==> Compatible(ps[i].vm.value.userData)
  {
    if Received(ps, i, n) != [] {
      HostScriptSealed(ps, i, n);
    }
  }

  /** A hosted component leaves a host VM behind that is itself not hosted. */
  lemma {:induction false} HostIsPlain(ps: seq<Part>, k: nat) returns (i: nat)
    requires Hostable(ps) && k < |ps| && ps[k].hostVM != ""
    ensures i < |ps| && IsHost(ps[i]) && ps[i].hostVM == "" && ps[i].vm.Some?
  {
    assert Placeable(ps, k);
    i :| 0 <= i < |ps| && Binds(ps, k, i);
    assert Placeable(ps, i);
    assert TrimLeft(VIRTUAL_MACHINE) == VIRTUAL_MACHINE && TrimRight(VIRTUAL_MACHINE) == VIRTUAL_MACHINE;
    assert Lower(VIRTUAL_MACHINE)[0] == 'v';
  }

  // ----- binding -----

  ghost predicate Indexes(ps: seq<Part>, hosts: map<string, nat>) {
    && (forall h :: h in hosts ==> hosts[h] < |ps| && IsHost(ps[hosts[h]]) && ps[hosts[h]].name == h)
    && (forall i :: 0 <= i < |ps| && IsHost(ps[i]) ==> ps[i].name in hosts && hosts[ps[i].name] == i)
  }

  method FillHosts(cs: seq<Component>) returns (ok: bool, hosts: map<string, nat>)
    ensures ok == DistinctHosts(Views(cs))
    ensures ok ==> Indexes(Views(cs), hosts)
  {
    ghost var ps := Views(cs);
    hosts := map[];
    for i := 0 to |cs|
      invariant forall h :: h in hosts ==> hosts[h] < i && IsHost(ps[hosts[h]]) && ps[hosts[h]].name == h
      invariant forall j :: 0 <= j < i && IsHost(ps[j]) ==> ps[j].name in hosts && hosts[ps[j].name] == j
    {
      if cs[i].typ == VIRTUAL_MACHINE {
        assert IsHost(ps[i]);
        if cs[i].name in hosts {
          return false, hosts;
        }
        hosts := hosts[cs[i].name := i];
      }
    }
    ok := true;
  }

  /** What the components say after binding the first n. */
  function Bound(ps: seq<Part>, n: nat): (vs: seq<Part>)
    requires n <= |ps|
    ensures |vs| == |ps|
  {
    seq(|ps|, i requires 0 <= i < |ps| => BoundPart(ps[i], Received(ps, i, n)))
  }

  /** The components say what the parts say after binding the first n. */
  ghost predicate Shows(cs: seq<Component>, ps: seq<Part>, n: nat)
    reads Payloads(cs)
  {
    n <= |ps| && Views(cs) == Bound(ps, n)
  }

  /** Components that received nothing are passed on as they are. */
  predicate OthersKept(ps: seq<Part>, cs: seq<Component>, out: seq<Component>, n: nat)
    requires |out| == |cs| == |ps| && n <= |ps|
  {
    forall i :: 0 <= i < |ps| && Received(ps, i, n) == [] ==> out[i] == cs[i]
  }

  /** Succeeds exactly on the lists that can be bound. Every change is made on a fresh clone,
      so the caller's components and payloads keep what they said, shared or not. */
  method BindServiceHosts(cs: seq<Component>) returns (ok: bool, out: seq<Component>)
    ensures ok <==> Hostable(Views(cs))
    ensures !ok ==> out == cs
    ensures ok ==> Views(out) == Bound(Views(cs), |cs|) && OthersKept(Views(cs), cs, out, |cs|)
    ensures Clones(cs, out)
  {
    hide Placeable, BoundPart, Bound, OthersKept, Received;
    ghost var ps := Views(cs);
    var distinct, hosts := FillHosts(cs);
    if !distinct {
      return false, cs;
    }
    ok, out := BindAll(ps, cs, hosts);
    assert Views(cs) == ps;
  }

  /** Every payload that is not the caller's own is a new one. */
  twostate predicate Clones(cs: seq<Component>, new out: seq<Component>) {
    forall i :: 0 <= i < |cs| == |out| && out[i].vm != cs[i].vm ==> fresh(out[i].vm)
  }

  method BindAll(ghost ps: seq<Part>, cs: seq<Component>, hosts: map<string, nat>)
    returns (ok: bool, out: seq<Component>)
    requires ps == Views(cs) && DistinctHosts(ps) && Indexes(ps, hosts)
    ensures ok <==> PlaceableBelow(ps, |ps|)
    ensures !ok ==> out == cs
    ensures ok ==> Views(out) == Bound(ps, |ps|) && OthersKept(ps, cs, out, |ps|)
    ensures Clones(cs, out)
  {
    hide Placeable, Bound, OthersKept, View, Views, DistinctHosts, Indexes;
    BoundNone(ps, cs);
    out := cs;
    for k := 0 to |cs|
      invariant PlaceableBelow(ps, k) && Views(out) == Bound(ps, k) && OthersKept(ps, cs, out, k)
      invariant Clones(cs, out)
    {
      var next := BindOne(ps, cs, hosts, out, k);
      if next.None? {
        return false, cs;
      }
      out := next.value;
    }
    ok := true;
  }

  lemma {:induction false} BoundNone(ps: seq<Part>, cs: seq<Component>)
    requires |ps| == |cs|
    ensures Bound(ps, 0) == ps && OthersKept(ps, cs, cs, 0)
  {
    forall i | 0 <= i < |ps| ensures Bound(ps, 0)[i] == ps[i] {
      assert Received(ps, i, 0) == [];
    }
  }

  lemma {:induction false} ReceivedSkip(ps: seq<Part>, k: nat)
    requires k < |ps| && ps[k].hostVM == ""
    ensures forall i :: 0 <= i < |ps| ==> Received(ps, i, k + 1) == Received(ps, i, k)
  {
  }

  lemma {:induction false} PlaceableNext(ps: seq<Part>, k: nat)
    requires k < |ps| && PlaceableBelow(ps, k) && Placeable(ps, k)
    ensures PlaceableBelow(ps, k + 1)
  {
  }

  /** The host map answers what the search over all components would. */
  lemma {:induction false} PlaceableByIndex(ps: seq<Part>, hosts: map<string, nat>, k: nat)
    requires k < |ps| && ps[k].hostVM != "" && DistinctHosts(ps) && Indexes(ps, hosts)
    ensures Placeable(ps, k) <==> ps[k].hostVM in hosts && Binds(ps, k, hosts[ps[k].hostVM])
  {
    if Placeable(ps, k) {
      var j :| 0 <= j < |ps| && Binds(ps, k, j);
    }
  }

  method BindOne(ghost ps: seq<Part>, ghost cs: seq<Component>, hosts: map<string, nat>, before: seq<Component>, k: nat)
    returns (next: Option<seq<Component>>)
    requires k < |ps| == |cs| == |before| && DistinctHosts(ps) && Indexes(ps, hosts)
    requires PlaceableBelow(ps, k) && Views(before) == Bound(ps, k) && OthersKept(ps, cs, before, k)
    ensures next.Some? <==> Placeable(ps, k)
    ensures next.Some? ==> PlaceableBelow(ps, k + 1)
    ensures next.Some? ==> Views(next.value) == Bound(ps, k + 1) && OthersKept(ps, cs, next.value, k + 1)
    ensures next.Some? ==> Clones(before, next.value)
  {
    hide PlaceableBelow, Binds, Received, Views, Indexes;
    var c := before[k];
    assert View(c) == BoundPart(ps[k], Received(ps, k, k));
    if c.hostVM == "" {
      if c.hostBootstrap != "" {
        return None;
      }
      ReceivedSkip(ps, k);
      PlaceableNext(ps, k);
      return Some(before);
    }
    var host := HostOf(ps, hosts, before, k);
    if host.None? {
      return None;
    }
    PlaceableNext(ps, k);
    BoundStep(ps, host.value, k);
    ReceivedOnlyBy(ps, host.value, k);
    var out := AttachTo(before, host.value, c.hostBootstrap);
    next := Some(out);
  }

  /** Finds the host a component may be bound to. */
  method HostOf(ghost ps: seq<Part>, hosts: map<string, nat>, before: seq<Component>, k: nat)
    returns (host: Option<nat>)
    requires k < |ps| == |before| && ps[k].hostVM != "" && DistinctHosts(ps) && Indexes(ps, hosts)
    requires PlaceableBelow(ps, k) && Shows(before, ps, k)
    ensures host.Some? <==> Placeable(ps, k)
    ensures host.Some? ==>
              && host.value < |ps| && IsHost(ps[host.value]) && ps[host.value].name == ps[k].hostVM
              && before[host.value].vm != null && Compatible(before[host.value].vm.userData)
  {
    hide PlaceableBelow, Placeable, Received, Views;
    var c := before[k];
    assert View(c) == BoundPart(ps[k], Received(ps, k, k));
    PlaceableByIndex(ps, hosts, k);
    if c.hostVM !in hosts {
      return None;
    }
    var i := hosts[c.hostVM];
    assert View(before[i]) == BoundPart(ps[i], Received(ps, i, k));
    if before[i].vm == null || before[i].count != 1 || c.placement != "vm" || !ExplicitVMPlacement(c.typ)
      || !HasPrefix(c.hostBootstrap, SHEBANG)
    {
      return None;
    }
    StillCompatible(ps, i, k);
    if before[i].vm.userData != "" && !HasPrefix(before[i].vm.userData, SHEBANG) {
      return None;
    }
    host := Some(i);
  }

  /** Joining with a newline and trimming a leading one is attaching. */
  lemma {:induction false} AttachText(script: string, bootstrap: string)
    requires Compatible(script)
    ensures var text := script + "\n" + bootstrap;
            (if HasPrefix(text, "\n") then text[1..] else text) == Attach(script, bootstrap)
  {
    var text := script + "\n" + bootstrap;
    if script == "" {
      assert text == "\n" + bootstrap;
    } else {
      assert text[0] == script[0] == SHEBANG[0];
      assert "\n"[0] != SHEBANG[0];
    }
  }

  /** Replaces the payload of component i by a clone extended with a bootstrap. */
  method AttachTo(before: seq<Component>, i: nat, bootstrap: string) returns (out: seq<Component>)
    requires i < |before| && before[i].vm != null && Compatible(before[i].vm.userData)
    ensures Views(out) == Views(before)[i := BoundPart(View(before[i]), [bootstrap])]
    ensures |out| == |before| && out[..i] == before[..i] && out[i + 1..] == before[i + 1..]
    ensures Clones(before, out)
  {
    var script := before[i].vm.userData;
    var text := script + "\n" + bootstrap;
    if HasPrefix(text, "\n") {
      text := text[1..];
    }
    AttachText(script, bootstrap);
    assert Script(script, [bootstrap]) == Attach(script, bootstrap);
    var vm := new AssembleVM(before[i].vm.sizing, text, before[i].vm.tag);
    out := before[i := before[i].(vm := vm)];
  }

  lemma {:induction false} ReceivedOnlyBy(ps: seq<Part>, i: nat, k: nat)
    requires i < |ps| && k < |ps| && DistinctHosts(ps) && IsHost(ps[i]) && ps[i].name == ps[k].hostVM != ""
    ensures Received(ps, i, k + 1) == Received(ps, i, k) + [ps[k].hostBootstrap]
    ensures forall j :: 0 <= j < |ps| && j != i ==> Received(ps, j, k + 1) == Received(ps, j, k)
  {
  }

  lemma {:induction false} BoundStep(ps: seq<Part>, i: nat, k: nat)
    requires i < |ps| && k < |ps| && DistinctHosts(ps) && IsHost(ps[i]) && ps[i].name == ps[k].hostVM != ""
    ensures Bound(ps, k + 1) == Bound(ps, k)[i := BoundPart(Bound(ps, k)[i], [ps[k].hostBootstrap])]
  {
    var rs := Received(ps, i, k);
    ReceivedOnlyBy(ps, i, k);
    if ps[i].vm.Some? {
      var vm := ps[i].vm.value;
      ScriptAttach(vm.userData, rs, ps[k].hostBootstrap);
      assert BoundPart(ps[i], rs + [ps[k].hostBootstrap]) == BoundPart(BoundPart(ps[i], rs), [ps[k].hostBootstrap]);
    }
  }

  lemma {:induction false} ScriptAttach(original: string, rs: seq<string>, b: string)
    ensures Script(original, rs + [b]) == Script(Script(original, rs), [b])
  {
    assert (rs + [b])[..|rs|] == rs;
    assert [b][..0] == [];
  }
}
