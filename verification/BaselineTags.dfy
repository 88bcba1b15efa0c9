/** The tag pass of the assembler: under the security baseline every plain DigitalOcean VM
    carries the tag its firewall selects it by. */
module BaselineTags {
  import opened Wrappers
  import opened Text
  import opened HostPlacement

  const DIGITALOCEAN := "digitalocean"
  const FLEET_TAG := "pyxcloud"

  // ----- names -----

  function NameChar(c: char): char {
    if 'a' <= c <= 'z' || '0' <= c <= '9' || c == '_' || c == '-' then c else '_'
  }

  function NameChars(s: string): string {
    seq(|s|, i requires 0 <= i < |s| => NameChar(s[i]))
  }

  /** A Terraform resource name. */
  function TfName(s: string): string {
    var out := NameChars(Lower(s));
    if out == "" || '0' <= out[0] <= '9' then "n_" + out else out
  }

  predicate ValidName(s: string) {
    s != "" && !('0' <= s[0] <= '9') && forall c :: c in s ==> NameChar(c) == c
  }

  lemma {:induction false} TfNameValid(s: string)
    ensures ValidName(TfName(s))
  {
    var out := NameChars(Lower(s));
    forall c | c in TfName(s) ensures NameChar(c) == c {
      if c in out {
        var i :| 0 <= i < |out| && out[i] == c;
        assert out[i] == NameChar(Lower(s)[i]);
      }
    }
  }

  /** Exactly the valid names are left alone, so naming twice is naming once. */
  lemma {:induction false} TfNameFixedIff(s: string)
    ensures TfName(s) == s <==> ValidName(s)
    ensures TfName(TfName(s)) == TfName(s)
  {
    TfNameValid(s);
    TfNameFixes(TfName(s));
    if ValidName(s) {
      TfNameFixes(s);
    }
  }

  lemma {:induction false} TfNameFixes(s: string)
    requires ValidName(s)
    ensures TfName(s) == s
  {
    forall i | 0 <= i < |s| ensures NameChar(LowerChar(s[i])) == s[i] {
      assert s[i] in s;
    }
    assert NameChars(Lower(s)) == s;
  }

  /** Names equal up to case name one resource. */
  lemma {:induction false} TfNameFolds(s: string, t: string)
    requires EqualFold(s, t)
    ensures TfName(s) == TfName(t)
  {
  }

  /** What a resource name shows as an underscore. */
  predicate Blank(c: char) {
    !('a' <= c <= 'z' || '0' <= c <= '9' || c == '-')
  }

  /** Two names of one length give one resource name exactly when, letter case aside, they differ
      in nothing but what shows as an underscore. */
  lemma {:induction false} TfNamesAgreeIff(s: string, t: string)
    requires |s| == |t|
    ensures TfName(s) == TfName(t) <==>
            forall i :: 0 <= i < |s| ==>
              var a, b := LowerChar(s[i]), LowerChar(t[i]);
              a == b || (Blank(a) && Blank(b))
  {
    var x, y := NameChars(Lower(s)), NameChars(Lower(t));
    forall i | 0 <= i < |s|
      ensures x[i] == y[i] <==>
              var a, b := LowerChar(s[i]), LowerChar(t[i]);
              a == b || (Blank(a) && Blank(b))
    {
    }
    if x == "" || '0' <= x[0] <= '9' {
      assert ("n_" + x)[2..] == x;
    }
    if y == "" || '0' <= y[0] <= '9' {
      assert ("n_" + y)[2..] == y;
    }
    if TfName(s) == TfName(t) {
      assert |TfName(s)| - |x| == |TfName(t)| - |y|;
    }
  }

  // ----- tags -----

  predicate PlainVM(p: Part) {
    p.typ == VIRTUAL_MACHINE && p.vm.Some?
  }

  predicate Taggable(p: Part) {
    PlainVM(p) ==> TrimSpace(p.name) != "" && !EqualFold(TrimSpace(p.vm.value.tag), FLEET_TAG)
  }

  function DefaultTag(env: string, name: string): string {
    "pyx-" + TfName(env) + "-" + TfName(name)
  }

  function TagOf(env: string, p: Part): string
    requires PlainVM(p)
  {
    var tag := TrimSpace(p.vm.value.tag);
    if tag == "" then DefaultTag(env, p.name) else tag
  }

  function TaggedPart(env: string, p: Part): Part {
    if PlainVM(p) then p.(vm := Some(p.vm.value.(tag := TagOf(env, p)))) else p
  }

  /** Every plain VM leaves the pass with a tag of its own, never the fleet's. */
  lemma {:induction false} TagIsOwn(env: string, p: Part)
    requires PlainVM(p) && Taggable(p)
    ensures TaggedPart(env, p).vm.value.tag != ""
    ensures !EqualFold(TaggedPart(env, p).vm.value.tag, FLEET_TAG)
  {
    var own := DefaultTag(env, p.name);
    assert own[3] == '-';
    assert Lower(own)[3] == '-' && Lower(FLEET_TAG)[3] == 'c';
  }

  /** Two VMs of one environment share a default tag exactly when their Terraform names agree. */
  lemma {:induction false} DefaultTagsAgreeIff(env: string, a: string, b: string)
    ensures DefaultTag(env, a) == DefaultTag(env, b) <==> TfName(a) == TfName(b)
  {
    var stem := "pyx-" + TfName(env) + "-";
    assert DefaultTag(env, a) == stem + TfName(a) && DefaultTag(env, b) == stem + TfName(b);
    assert DefaultTag(env, a)[|stem|..] == TfName(a) && DefaultTag(env, b)[|stem|..] == TfName(b);
  }

  /** And one name in two environments exactly when the environments' Terraform names agree. */
  lemma {:induction false} EnvironmentTagsAgreeIff(e: string, f: string, name: string)
    ensures DefaultTag(e, name) == DefaultTag(f, name) <==> TfName(e) == TfName(f)
  {
    hide TfName;
    var a, b, n := TfName(e), TfName(f), TfName(name);
    SameEnd(("pyx-" + a) + "-", ("pyx-" + b) + "-", n);
    SameEnd("pyx-" + a, "pyx-" + b, "-");
    assert ("pyx-" + a)[4..] == a && ("pyx-" + b)[4..] == b;
  }

  lemma {:induction false} SameEnd(x: string, y: string, t: string)
    ensures x + t == y + t <==> x == y
  {
    assert |x + t| == |x| + |t| && |y + t| == |y| + |t|;
    assert (x + t)[..|x|] == x && (y + t)[..|y|] == y;
  }

  /** A tag the author chose is kept, trimmed; only a blank one gives way to the default. */
  lemma {:induction false} AuthorTagKept(env: string, p: Part)
    requires PlainVM(p)
    ensures TaggedPart(env, p).vm.value.tag ==
            if TrimSpace(p.vm.value.tag) != "" then TrimSpace(p.vm.value.tag)
            else "pyx-" + TfName(env) + "-" + TfName(p.name)
    ensures TaggedPart(env, p).vm.value.sizing == p.vm.value.sizing
    ensures TaggedPart(env, p).vm.value.userData == p.vm.value.userData
  {
    hide TrimSpace, TfName;
  }

  /** The pass refuses a plain VM without a name, and one that takes the fleet's tag. */
  lemma {:induction false} RefusedTagIff(p: Part)
    ensures !Taggable(p) <==>
            && p.typ == "virtual-machine" && p.vm.Some?
            && (TrimSpace(p.name) == "" || Lower(TrimSpace(p.vm.value.tag)) == "pyxcloud")
  {
    hide TrimSpace;
    assert Lower("pyxcloud") == "pyxcloud";
  }

  predicate AllTaggable(ps: seq<Part>, n: nat)
    requires n <= |ps|
  {
    forall i :: 0 <= i < n ==> Taggable(ps[i])
  }

  predicate TaggedBelow(env: string, ps: seq<Part>, vs: seq<Part>, n: nat)
    requires n <= |ps| == |vs|
  {
    forall i :: 0 <= i < |ps| ==> vs[i] == if i < n then TaggedPart(env, ps[i]) else ps[i]
  }

  /** Runs the pass on clones: on success each plain VM is a new payload that says what the
      caller's said except for the tag, and every other component is the caller's own. */
  method TagBaselineVMs(env: string, cs: seq<Component>) returns (ok: bool, out: seq<Component>)
    ensures ok <==> AllTaggable(Views(cs), |cs|)
    ensures !ok ==> out == cs
    ensures ok ==> |out| == |cs| && TaggedBelow(env, Views(cs), Views(out), |cs|)
    ensures ok ==> forall i :: 0 <= i < |cs| ==> if PlainVM(View(cs[i])) then fresh(out[i].vm) else out[i] == cs[i]
  {
    hide Taggable, TaggedPart, View, Views, PlainVM;
    ghost var ps := Views(cs);
    out := cs;
    for i := 0 to |cs|
      invariant |out| == |cs| && AllTaggable(ps, i)
      invariant TaggedBelow(env, ps, Views(out), i)
      invariant forall j :: 0 <= j < |cs| ==> if j < i && PlainVM(ps[j]) then fresh(out[j].vm) else out[j] == cs[j]
    {
      var next := TagOne(env, ps[i], out[i]);
      if next.None? {
        assert Views(cs) == ps;
        return false, cs;
      }
      ViewsUpdate(out, i, next.value);
      out := out[i := next.value];
    }
    ok := true;
    assert Views(cs) == ps;
  }

  method TagOne(env: string, ghost p: Part, c: Component) returns (next: Option<Component>)
    requires View(c) == p
    ensures next.Some? <==> Taggable(p)
    ensures next.Some? ==> View(next.value) == TaggedPart(env, p)
    ensures next.Some? ==> if PlainVM(p) then fresh(next.value.vm) else next.value == c
  {
    if c.typ != VIRTUAL_MACHINE || c.vm == null {
      return Some(c);
    }
    if TrimSpace(c.name) == "" {
      return None;
    }
    var tag := TrimSpace(c.vm.tag);
    if EqualFold(tag, FLEET_TAG) {
      return None;
    }
    if tag == "" {
      tag := "pyx-" + TfName(env) + "-" + TfName(c.name);
    }
    var vm := new AssembleVM(c.vm.sizing, c.vm.userData, tag);
    next := Some(c.(vm := vm));
  }

  // ----- selectors -----

  const SCALE_GROUP := "virtual-machine-scale-group"

  /** The tag a scale group's droplets carry. */
  function GroupTag(name: string): string {
    "pyx-" + TfName(name)
  }

  /** The tags by which one component asks to be selected. */
  function SelectorsOf(p: Part): seq<string> {
    if p.typ == SCALE_GROUP then [GroupTag(p.name)]
    else if PlainVM(p) && p.vm.value.tag != "" then [p.vm.value.tag]
    else []
  }

  function Selectors(ps: seq<Part>): seq<string> {
    if ps == [] then [] else Selectors(ps[..|ps| - 1]) + SelectorsOf(ps[|ps| - 1])
  }

  /** The list selects exactly the tags the components carry. */
  lemma {:induction false} SelectorsExact(ps: seq<Part>, t: string)
    ensures t in Selectors(ps) <==> exists i :: 0 <= i < |ps| && t in SelectorsOf(ps[i])
  {
    if ps != [] {
      var init, last := ps[..|ps| - 1], |ps| - 1;
      SelectorsExact(init, t);
      if t in Selectors(init) {
        var i :| 0 <= i < |init| && t in SelectorsOf(init[i]);
        assert t in SelectorsOf(ps[i]);
      }
      if t in SelectorsOf(ps[last]) {
        assert t in Selectors(ps);
      }
      if i :| 0 <= i < |ps| && t in SelectorsOf(ps[i]) && i != last {
        assert t in SelectorsOf(init[i]);
      }
    }
  }

  /** The droplets of a component carry a tag: a scale group's its own, a VM the one it was given. */
  predicate Carries(p: Part, t: string) {
    || (p.typ == "virtual-machine-scale-group" && t == "pyx-" + TfName(p.name))
    || (p.typ == "virtual-machine" && p.vm.Some? && p.vm.value.tag == t && t != "")
  }

  /** A tag is selected exactly when some component's droplets carry it. */
  lemma {:induction false} SelectorsMeaning(ps: seq<Part>, t: string)
    ensures t in Selectors(ps) <==>
            exists i :: 0 <= i < |ps| && Carries(ps[i], t)
  {
    hide TfName, Selectors;
    SelectorsExact(ps, t);
    SelectorTypes();
    forall i | 0 <= i < |ps| ensures t in SelectorsOf(ps[i]) <==> Carries(ps[i], t) {
    }
  }

  lemma {:induction false} SelectorTypes()
    ensures "virtual-machine-scale-group" != "virtual-machine"
  {
    assert |"virtual-machine-scale-group"| != |"virtual-machine"|;
  }

  /** After the pass every plain VM is selected by the firewall, by a tag other than the fleet's. */
  lemma {:induction false} TaggedVMSelected(env: string, ps: seq<Part>, vs: seq<Part>, i: nat)
    requires |vs| == |ps| && AllTaggable(ps, |ps|) && TaggedBelow(env, ps, vs, |ps|)
    requires i < |ps| && PlainVM(ps[i])
    ensures PlainVM(vs[i]) && vs[i].vm.value.tag in Selectors(vs)
    ensures vs[i].vm.value.tag != "" && !EqualFold(vs[i].vm.value.tag, FLEET_TAG)
  {
    TagIsOwn(env, ps[i]);
    SelectorsExact(vs, vs[i].vm.value.tag);
    assert vs[i].vm.value.tag in SelectorsOf(vs[i]);
  }

  method CollectSelectors(ps: seq<Part>) returns (tags: seq<string>)
    ensures tags == Selectors(ps)
  {
    tags := [];
    for i := 0 to |ps|
      invariant tags == Selectors(ps[..i])
    {
      assert ps[..i + 1][..i] == ps[..i];
      if ps[i].typ == SCALE_GROUP {
        tags := tags + [GroupTag(ps[i].name)];
      } else if ps[i].typ == VIRTUAL_MACHINE && ps[i].vm.Some? && ps[i].vm.value.tag != "" {
        tags := tags + [ps[i].vm.value.tag];
      }
    }
    assert ps[..|ps|] == ps;
  }
}
