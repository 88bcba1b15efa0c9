/** Managed databases: the plan-time guard against changes that would replace a live database,
    and the suggestions of a failed class lookup. */
module ManagedDatabase {
  import opened Wrappers
  import opened Text
  import opened Rows
  import opened Sizes

  /** The resolved plan of a database; `sizing` stands for what may change in place. */
  datatype Plan = Plan(provider: string, dbName: string, engine: string, family: string, encrypted: bool, sizing: string)

  datatype Violation = Violation(attribute: string, from: string, to: string)

  /** ErrDataSafetyForceReplace. */
  datatype ForceReplace = ForceReplace(dbName: string, provider: string, violations: seq<Violation>)

  function BoolStr(b: bool): string {
    if b then "true" else "false"
  }

  /** One attribute the guard compares: its name, its value in a plan, and whether two values
      count as unchanged. */
  datatype Attribute = Encrypted | Engine | Identifier | Family {
    function Name(): string {
      match this
      case Encrypted => "encrypted"
      case Engine => "engine"
      case Identifier => "identifier"
      case Family => "storage_type/class_family"
    }

    function Of(p: Plan): string {
      match this
      case Encrypted => BoolStr(p.encrypted)
      case Engine => p.engine
      case Identifier => p.dbName
      case Family => p.family
    }

    predicate Unchanged(p: Plan, q: Plan) {
      if this.Engine? || this.Family? then EqualFold(Of(p), Of(q)) else Of(p) == Of(q)
    }
  }

  predicate Same(p: Plan, q: Plan) {
    && p.encrypted == q.encrypted && p.dbName == q.dbName
    && EqualFold(p.engine, q.engine) && EqualFold(p.family, q.family)
  }

  function Entry(a: Attribute, p: Plan, q: Plan): seq<Violation> {
    if a.Unchanged(p, q) then [] else [Violation(a.Name(), a.Of(p), a.Of(q))]
  }

  function Changes(p: Plan, q: Plan): seq<Violation> {
    Entry(Encrypted, p, q) + Entry(Engine, p, q) + Entry(Identifier, p, q) + Entry(Family, p, q)
  }

  method CheckManagedDatabaseDataSafety(prior: Option<Plan>, next: Option<Plan>) returns (r: Result<(), ForceReplace>)
    ensures r.Ok? <==> Accepts(prior, next)
    ensures r.Err? ==> prior.Some? && next.Some?
    ensures r.Err? ==> r.error == ForceReplace(next.value.dbName, next.value.provider, Changes(prior.value, next.value))
  {
    if prior.None? || next.None? {
      return Ok(());
    }
    var p, q := prior.value, next.value;
    BoolStrInjective(p.encrypted, q.encrypted);
    var violations: seq<Violation> := [];
    if p.encrypted != q.encrypted {
      violations := violations + [Violation("encrypted", BoolStr(p.encrypted), BoolStr(q.encrypted))];
    }
    assert violations == Entry(Encrypted, p, q);
    if !EqualFold(p.engine, q.engine) {
      violations := violations + [Violation("engine", p.engine, q.engine)];
    }
    assert violations == Entry(Encrypted, p, q) + Entry(Engine, p, q);
    if p.dbName != q.dbName {
      violations := violations + [Violation("identifier", p.dbName, q.dbName)];
    }
    assert violations == Entry(Encrypted, p, q) + Entry(Engine, p, q) + Entry(Identifier, p, q);
    if !EqualFold(p.family, q.family) {
      violations := violations + [Violation("storage_type/class_family", p.family, q.family)];
    }
    assert violations == Changes(p, q);
    if violations != [] {
      return Err(ForceReplace(q.dbName, q.provider, violations));
    }
    return Ok(());
  }

  lemma {:induction false} BoolStrInjective(a: bool, b: bool)
    ensures BoolStr(a) == BoolStr(b) <==> a == b
  {
    assert "true"[0] != "false"[0];
  }

  predicate Accepts(prior: Option<Plan>, next: Option<Plan>) {
    prior.None? || next.None? || Same(prior.value, next.value)
  }

  /** A refusal names exactly the attributes that changed, each once and with both values. */
  lemma {:induction false} ChangesAreExact(p: Plan, q: Plan, v: Violation)
    ensures v in Changes(p, q) <==>
            exists a: Attribute :: !a.Unchanged(p, q) && v == Violation(a.Name(), a.Of(p), a.Of(q))
    ensures forall i, j :: 0 <= i < j < |Changes(p, q)| ==> Changes(p, q)[i].attribute != Changes(p, q)[j].attribute
  {
    var e0, e1, e2, e3 := Entry(Encrypted, p, q), Entry(Engine, p, q), Entry(Identifier, p, q), Entry(Family, p, q);
    assert forall a: Attribute :: v in Entry(a, p, q) <==>
             !a.Unchanged(p, q) && v == Violation(a.Name(), a.Of(p), a.Of(q));
    assert v in Changes(p, q) <==> v in e0 || v in e1 || v in e2 || v in e3;
    if v in Changes(p, q) {
      var a := if v in e0 then Encrypted else if v in e1 then Engine else if v in e2 then Identifier else Family;
      assert v in Entry(a, p, q);
    }
    NamesDiffer();
  }

  /** The report in the plan's own terms. */
  lemma {:induction false} ChangesSay(p: Plan, q: Plan)
    ensures Violation("encrypted", "true", "false") in Changes(p, q) <==> p.encrypted && !q.encrypted
    ensures Violation("encrypted", "false", "true") in Changes(p, q) <==> !p.encrypted && q.encrypted
    ensures Violation("engine", p.engine, q.engine) in Changes(p, q) <==> !EqualFold(p.engine, q.engine)
    ensures Violation("identifier", p.dbName, q.dbName) in Changes(p, q) <==> p.dbName != q.dbName
    ensures Violation("storage_type/class_family", p.family, q.family) in Changes(p, q) <==> !EqualFold(p.family, q.family)
  {
    hide EqualFold, Changes;
    var from := [Violation("encrypted", "true", "false"), Violation("encrypted", "false", "true"),
                 Violation("engine", p.engine, q.engine), Violation("identifier", p.dbName, q.dbName),
                 Violation("storage_type/class_family", p.family, q.family)];
    NamesDiffer();
    BoolStrInjective(p.encrypted, q.encrypted);
    assert "true"[0] != "false"[0];
    assert Encrypted.Name() == "encrypted" && Engine.Name() == "engine" && Identifier.Name() == "identifier";
    assert Family.Name() == "storage_type/class_family";
    forall v | v in from ensures v in Changes(p, q) <==>
        exists a: Attribute :: !a.Unchanged(p, q) && v == Violation(a.Name(), a.Of(p), a.Of(q))
    {
      ChangesAreExact(p, q, v);
    }
    assert forall k :: 0 <= k < 5 ==> from[k] in from;
    assert from[0] in from && from[1] in from && from[2] in from && from[3] in from && from[4] in from;
  }

  lemma {:induction false} NamesDiffer()
    ensures forall a: Attribute, b: Attribute :: a.Name() == b.Name() ==> a == b
  {
    assert "encrypted"[1] == 'n' && "engine"[1] == 'n' && "identifier"[1] == 'd' && "storage_type/class_family"[1] == 't';
    assert "encrypted"[2] == 'c' && "engine"[2] == 'g';
  }

  // ----- runs -----

  /** A history of plans in which each passed the guard against the one before. */
  predicate AcceptedRun(run: seq<Option<Plan>>) {
    forall i :: 0 < i < |run| ==> Accepts(run[i - 1], run[i])
  }

  predicate Alive(run: seq<Option<Plan>>, i: int, j: int)
    requires 0 <= i <= j < |run|
  {
    forall k :: i <= k <= j ==> run[k].Some?
  }

  lemma {:induction false} SameTransitive(p: Plan, q: Plan, r: Plan)
    requires Same(p, q) && Same(q, r)
    ensures Same(p, r)
  {
  }

  lemma {:induction false} LifetimeKeepsIdentity(run: seq<Option<Plan>>, i: nat, j: nat)
    requires AcceptedRun(run) && i <= j < |run| && Alive(run, i, j)
    ensures Same(run[i].value, run[j].value)
  {
    if i < j {
      LifetimeKeepsIdentity(run, i, j - 1);
      assert Accepts(run[j - 1], run[j]);
      SameTransitive(run[i].value, run[j - 1].value, run[j].value);
    }
  }

  /** Over whole histories: the guard accepts every step exactly when, as long as the database
      lives, encryption and identifier never change and engine and family only change case. */
  lemma {:induction false} AcceptedRunIff(run: seq<Option<Plan>>)
    ensures AcceptedRun(run) <==>
            forall i, j :: 0 <= i <= j < |run| && Alive(run, i, j) ==> Same(run[i].value, run[j].value)
  {
    if AcceptedRun(run) {
      forall i, j | 0 <= i <= j < |run| && Alive(run, i, j) ensures Same(run[i].value, run[j].value) {
        LifetimeKeepsIdentity(run, i, j);
      }
    }
    if forall i, j :: 0 <= i <= j < |run| && Alive(run, i, j) ==> Same(run[i].value, run[j].value) {
      forall i | 0 < i < |run| ensures Accepts(run[i - 1], run[i]) {
        if run[i - 1].Some? && run[i].Some? {
          assert Alive(run, i - 1, i);
        }
      }
    }
  }

  // ----- suggestions -----

  function SizeOf(r: MDBRow): Size {
    Size(r.name, r.cpu, r.ram)
  }

  method NearestDBSizes(candidates: seq<MDBRow>, cpu: int, ram: int, n: nat) returns (out: seq<MDBRow>)
    ensures IsNearest(candidates, SizeOf, cpu, ram, n, out)
  {
    out := Nearest(candidates, SizeOf, cpu, ram, n);
  }

  /** Nothing left out of the suggestions is nearer than what is in them, in the classes' own
      sizes, nor as near with a smaller name. */
  lemma {:induction false} NearestClasses(candidates: seq<MDBRow>, cpu: int, ram: int, n: nat, out: seq<MDBRow>, i: nat,
        r: MDBRow)
    requires IsNearest(candidates, SizeOf, cpu, ram, n, out)
    requires i < |out| && r in multiset(candidates) - multiset(out)
    ensures var taken := 4 * Abs(out[i].cpu - cpu) + Abs(out[i].ram - ram);
            var omitted := 4 * Abs(r.cpu - cpu) + Abs(r.ram - ram);
            taken < omitted || (taken == omitted && !Less(r.name, out[i].name))
  {
    assert !Before(SizeOf(r), SizeOf(out[i]), cpu, ram);
  }
}
