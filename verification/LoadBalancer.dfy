/** Layer-7 routing rules and listeners of a load balancer. */
module LoadBalancer {
  import opened Wrappers
  import opened Text
  import opened Sorting

  datatype Rule = Rule(priority: int, hostHeaders: seq<string>, pathPatterns: seq<string>,
                       adminVPNCIDRs: seq<string>, targetName: string)

  datatype RulePlan = RulePlan(priority: int, hostHeaders: seq<string>, pathPatterns: seq<string>,
                               adminVPNCIDRs: seq<string>, targetName: string)

  datatype RuleError =
    | NoCondition(rule: nat)
    | PriorityOutOfRange(rule: nat)
    | DuplicatePriority(rule: nat)
    | TooManyConditions(rule: nat)

  const CONDITION_VALUES_MAX := 5
  const PRIORITY_MIN := 1
  const PRIORITY_MAX := 50000
  const AWS := "aws"

  predicate IsAWS(provider: string) {
    Lower(TrimSpace(provider)) == AWS
  }

  predicate HasCondition(r: Rule) {
    r.hostHeaders != [] || r.pathPatterns != []
  }

  predicate InRange(r: Rule) {
    PRIORITY_MIN <= r.priority <= PRIORITY_MAX
  }

  predicate WithinQuota(provider: string, r: Rule) {
    IsAWS(provider) ==> |r.hostHeaders| + |r.pathPatterns| + |r.adminVPNCIDRs| <= CONDITION_VALUES_MAX
  }

  predicate RuleValid(provider: string, r: Rule) {
    HasCondition(r) && InRange(r) && WithinQuota(provider, r)
  }

  /** The first n rules are expressible and have distinct priorities. */
  predicate ValidUpTo(provider: string, rules: seq<Rule>, n: nat)
    requires n <= |rules|
  {
    && (forall i :: 0 <= i < n ==> RuleValid(provider, rules[i]))
    && (forall i, j :: 0 <= i < j < n ==> rules[i].priority != rules[j].priority)
  }

  /** The rule sets a plan may contain. */
  predicate RulesValid(provider: string, rules: seq<Rule>) {
    ValidUpTo(provider, rules, |rules|)
  }

  method ValidateRoutingRules(provider: string, rules: seq<Rule>) returns (r: Result<(), RuleError>)
    ensures r.Ok? <==> RulesValid(provider, rules)
    ensures r.Err? ==> r.error.rule < |rules| && ValidUpTo(provider, rules, r.error.rule)
    ensures r.Err? ==> match r.error
                       case NoCondition(j) => !HasCondition(rules[j])
                       case PriorityOutOfRange(j) => !InRange(rules[j])
                       case DuplicatePriority(j) => exists i :: 0 <= i < j && rules[i].priority == rules[j].priority
                       case TooManyConditions(j) => !WithinQuota(provider, rules[j])
  {
    if |rules| == 0 {
      return Ok(());
    }
    var seenPriority: set<int> := {};
    for j := 0 to |rules|
      invariant ValidUpTo(provider, rules, j)
      invariant forall p :: p in seenPriority <==> exists i :: 0 <= i < j && rules[i].priority == p
    {
      var r := rules[j];
      if |r.hostHeaders| == 0 && |r.pathPatterns| == 0 {
        return Err(NoCondition(j));
      }
      if r.priority < PRIORITY_MIN || r.priority > PRIORITY_MAX {
        return Err(PriorityOutOfRange(j));
      }
      if r.priority in seenPriority {
        return Err(DuplicatePriority(j));
      }
      seenPriority := seenPriority + {r.priority};
      if Lower(TrimSpace(provider)) == AWS {
        var total := |r.hostHeaders| + |r.pathPatterns| + |r.adminVPNCIDRs|;
        if total > CONDITION_VALUES_MAX {
          return Err(TooManyConditions(j));
        }
      }
    }
    return Ok(());
  }

  /** A rule alone is accepted exactly when it has a host or a path, a priority from 1 to 50000
      and, on AWS, at most five condition values. */
  lemma {:induction false} RuleAloneIff(provider: string, r: Rule)
    ensures RulesValid(provider, [r]) <==>
            && |r.hostHeaders| + |r.pathPatterns| > 0 && 1 <= r.priority <= 50000
            && (EqualFold(TrimSpace(provider), "aws") ==>
                |r.hostHeaders| + |r.pathPatterns| + |r.adminVPNCIDRs| <= 5)
  {
    hide TrimSpace;
    assert Lower("aws") == "aws";
    assert RulesValid(provider, [r]) <==> RuleValid(provider, [r][0]);
  }

  /** And rules together exactly when each is alone and no two share a priority. */
  lemma {:induction false} RulesTogetherIff(provider: string, rules: seq<Rule>)
    ensures RulesValid(provider, rules) <==>
            && (forall i :: 0 <= i < |rules| ==> RulesValid(provider, [rules[i]]))
            && (forall i, j :: 0 <= i < j < |rules| ==> rules[i].priority != rules[j].priority)
  {
    hide RuleValid;
    forall i | 0 <= i < |rules| ensures RulesValid(provider, [rules[i]]) <==> RuleValid(provider, rules[i]) {
      assert RulesValid(provider, [rules[i]]) <==> RuleValid(provider, [rules[i]][0]);
    }
  }

  // ----- resolution -----

  function Resolved(r: Rule): RulePlan {
    RulePlan(r.priority, r.hostHeaders, r.pathPatterns, r.adminVPNCIDRs, TrimSpace(r.targetName))
  }

  function ResolvedAll(rules: seq<Rule>): seq<RulePlan> {
    Map(Resolved, rules)
  }

  function ByPriority(): (RulePlan, RulePlan) -> bool {
    (a: RulePlan, b: RulePlan) => a.priority <= b.priority
  }

  function ResolvedRules(rules: seq<Rule>): seq<RulePlan> {
    Sort(ByPriority(), ResolvedAll(rules))
  }

  method ResolveRoutingRules(rules: seq<Rule>) returns (out: seq<RulePlan>)
    ensures out == ResolvedRules(rules)
  {
    if |rules| == 0 {
      return [];
    }
    out := [];
    for i := 0 to |rules|
      invariant |out| == i && forall k :: 0 <= k < i ==> out[k] == Resolved(rules[k])
    {
      var r := rules[i];
      out := out + [RulePlan(r.priority, r.hostHeaders, r.pathPatterns, r.adminVPNCIDRs, TrimSpace(r.targetName))];
    }
    assert out == ResolvedAll(rules);
    out := Sort(ByPriority(), out);
  }

  lemma {:induction false} ByPriorityIsPreorder()
    ensures Preorder(ByPriority())
  {
  }

  /** Rules that pass validation resolve to a canonical list: strictly ascending priorities,
      the same rules up to trimming, and the same list for every order they are written in. */
  lemma {:induction false} ResolvedCanonical(provider: string, rules: seq<Rule>, reordered: seq<Rule>)
    requires RulesValid(provider, rules)
    requires multiset(reordered) == multiset(rules)
    ensures var out := ResolvedRules(rules);
            && (forall i, j :: 0 <= i < j < |out| ==> out[i].priority < out[j].priority)
            && multiset(out) == multiset(ResolvedAll(rules))
            && ResolvedRules(reordered) == out
  {
    var xs, ys := ResolvedAll(rules), ResolvedAll(reordered);
    ByPriorityIsPreorder();
    MapMultiset(Resolved, reordered, rules);
    SortSorted(ByPriority(), ys);
    SortMultiset(ByPriority(), ys);
    CanonicalOrder(ByPriority(), xs, ResolvedRules(reordered));
  }

  /** The rule a listener applies: the first that matches the request. */
  function FirstMatch(rules: seq<RulePlan>, matches: RulePlan -> bool): Option<RulePlan> {
    if rules == [] then None else if matches(rules[0]) then Some(rules[0]) else FirstMatch(rules[1..], matches)
  }

  /** For every request, the rule applied is the matching rule of least priority among the
      rules as written; none is applied only if none matches. */
  lemma {:induction false} FirstMatchIsLeast(provider: string, rules: seq<Rule>, matches: RulePlan -> bool)
    requires RulesValid(provider, rules)
    ensures match FirstMatch(ResolvedRules(rules), matches)
            case None => forall r :: r in rules ==> !matches(Resolved(r))
            case Some(m) =>
              && (exists r :: r in rules && m == Resolved(r) && matches(m))
              && (forall r :: r in rules && matches(Resolved(r)) && Resolved(r) != m ==> m.priority < r.priority)
  {
    var out, xs := ResolvedRules(rules), ResolvedAll(rules);
    ResolvedCanonical(provider, rules, rules);
    forall r | r in rules ensures Resolved(r) in out {
      var i :| 0 <= i < |rules| && rules[i] == r;
      assert xs[i] in multiset(out);
    }
    forall m | m in out ensures exists r :: r in rules && m == Resolved(r) {
      assert m in multiset(xs);
      var i :| 0 <= i < |xs| && xs[i] == m;
      assert rules[i] in rules;
    }
    FirstMatchInOrder(out, matches);
  }

  lemma {:induction false} FirstMatchInOrder(out: seq<RulePlan>, matches: RulePlan -> bool)
    requires forall i, j :: 0 <= i < j < |out| ==> out[i].priority < out[j].priority
    ensures match FirstMatch(out, matches)
            case None => forall m :: m in out ==> !matches(m)
            case Some(m) =>
              && m in out && matches(m)
              && (forall q :: q in out && matches(q) && q != m ==> m.priority < q.priority)
  {
    if out != [] {
      FirstMatchInOrder(out[1..], matches);
      assert out == [out[0]] + out[1..];
    }
  }

  /** The conditions of a rule as the author wrote them. */
  predicate AppliesTo(request: (seq<string>, seq<string>, seq<string>) -> bool, r: Rule) {
    request(r.hostHeaders, r.pathPatterns, r.adminVPNCIDRs)
  }

  /** In the author's terms: whatever a request asks of the hosts, the paths and the admin ranges
      of a rule, the plan applied carries the conditions and the trimmed target of the rule of
      least priority whose own conditions meet it. */
  lemma {:induction false} LeastRuleApplies(provider: string, rules: seq<Rule>,
        request: (seq<string>, seq<string>, seq<string>) -> bool)
    requires RulesValid(provider, rules)
    ensures var matches := (m: RulePlan) => request(m.hostHeaders, m.pathPatterns, m.adminVPNCIDRs);
            match FirstMatch(ResolvedRules(rules), matches)
            case None => forall r :: r in rules ==> !AppliesTo(request, r)
            case Some(m) =>
              exists r :: r in rules && AppliesTo(request, r)
                && m.priority == r.priority && m.hostHeaders == r.hostHeaders && m.pathPatterns == r.pathPatterns
                && m.adminVPNCIDRs == r.adminVPNCIDRs && m.targetName == TrimSpace(r.targetName)
                && forall q :: q in rules && AppliesTo(request, q) ==> q == r || r.priority < q.priority
  {
    hide FirstMatch, ResolvedRules, RuleValid;
    var matches := (m: RulePlan) => request(m.hostHeaders, m.pathPatterns, m.adminVPNCIDRs);
    FirstMatchIsLeast(provider, rules, matches);
    forall r | r in rules ensures matches(Resolved(r)) <==> AppliesTo(request, r) {
    }
    match FirstMatch(ResolvedRules(rules), matches) {
      case None =>
      case Some(m) =>
        var r :| r in rules && m == Resolved(r) && matches(m);
        assert AppliesTo(request, r);
        forall q | q in rules && AppliesTo(request, q) ensures q == r || r.priority < q.priority {
          assert matches(Resolved(q));
          SamePriority(provider, rules, q, r);
        }
    }
  }

  lemma {:induction false} SamePriority(provider: string, rules: seq<Rule>, q: Rule, r: Rule)
    requires RulesValid(provider, rules) && q in rules && r in rules
    ensures q.priority == r.priority ==> q == r
  {
    var i :| 0 <= i < |rules| && rules[i] == q;
    var j :| 0 <= j < |rules| && rules[j] == r;
  }

  // ----- listeners -----

  datatype Listener = Listener(port: int, protocol: string, conditions: seq<string>, rules: seq<Rule>)

  datatype ListenerPlan = ListenerPlan(port: int, protocol: string, conditions: seq<string>, rules: seq<RulePlan>)

  function CanonicalProto(p: string): string {
    var t := Lower(TrimSpace(p));
    if t == "https" || t == "ssl" then "https" else if t == "tcp" || t == "l4" then "tcp" else "http"
  }

  function ResolvedListener(l: Listener): ListenerPlan {
    ListenerPlan(l.port, CanonicalProto(l.protocol), l.conditions, ResolvedRules(l.rules))
  }

  function ResolvedListeners(ls: seq<Listener>): seq<ListenerPlan> {
    Map(ResolvedListener, ls)
  }

  function ByPort(): (ListenerPlan, ListenerPlan) -> bool {
    (a: ListenerPlan, b: ListenerPlan) => a.port <= b.port
  }

  method ResolveListeners(ls: seq<Listener>) returns (out: seq<ListenerPlan>)
    ensures out == Sort(ByPort(), ResolvedListeners(ls))
  {
    out := [];
    for i := 0 to |ls|
      invariant |out| == i && forall k :: 0 <= k < i ==> out[k] == ResolvedListener(ls[k])
    {
      var rules := ResolveRoutingRules(ls[i].rules);
      out := out + [ListenerPlan(ls[i].port, CanonicalProto(ls[i].protocol), ls[i].conditions, rules)];
    }
    assert out == ResolvedListeners(ls);
    out := Sort(ByPort(), out);
  }

  /** What a listener's plan says, field by field. */
  predicate PlanOf(l: Listener, p: ListenerPlan) {
    && p.port == l.port && p.conditions == l.conditions && p.rules == ResolvedRules(l.rules)
    && p.protocol in ["http", "https", "tcp"]
    && (p.protocol == "https" <==> EqualFold(TrimSpace(l.protocol), "https") || EqualFold(TrimSpace(l.protocol), "ssl"))
    && (p.protocol == "tcp" <==> EqualFold(TrimSpace(l.protocol), "tcp") || EqualFold(TrimSpace(l.protocol), "l4"))
  }

  function OnPort(port: int): ListenerPlan -> bool {
    (p: ListenerPlan) => p.port == port
  }

  /** The plan has ascending ports, one entry for each listener, and listeners that share a port
      in the order they were written. */
  lemma {:induction false} ListenersInPlan(ls: seq<Listener>)
    ensures var out := Sort(ByPort(), ResolvedListeners(ls));
            && (forall i, j :: 0 <= i < j < |out| ==> out[i].port <= out[j].port)
            && |out| == |ls|
            && (forall l :: l in ls ==> exists p :: p in out && PlanOf(l, p))
            && (forall p :: p in out ==> exists l :: l in ls && PlanOf(l, p))
            && forall port :: Filter(OnPort(port), out) == Filter(OnPort(port), ResolvedListeners(ls))
  {
    hide ResolvedRules, PlanOf, Sort, CanonicalProto, Filter;
    var plans, out := ResolvedListeners(ls), Sort(ByPort(), ResolvedListeners(ls));
    SortSorted(ByPort(), plans);
    SortMultiset(ByPort(), plans);
    forall l | l in ls ensures exists p :: p in out && PlanOf(l, p) {
      var i :| 0 <= i < |ls| && ls[i] == l;
      ListenerSays(l);
      assert plans[i] in multiset(out);
    }
    forall p | p in out ensures exists l :: l in ls && PlanOf(l, p) {
      assert p in multiset(plans);
      var i :| 0 <= i < |plans| && plans[i] == p;
      ListenerSays(ls[i]);
    }
    forall port ensures Filter(OnPort(port), out) == Filter(OnPort(port), plans) {
      SortStable(ByPort(), OnPort(port), plans);
    }
  }

  lemma {:induction false} ListenerSays(l: Listener)
    ensures PlanOf(l, ResolvedListener(l))
  {
    hide ResolvedRules, TrimSpace;
    assert Lower("https") == "https" && Lower("ssl") == "ssl" && Lower("tcp") == "tcp" && Lower("l4") == "l4";
    assert |"https"| == 5 && |"http"| == 4 && |"ssl"| == 3 && "tcp"[0] != "ssl"[0];
  }

  /** Listener order is documented as independent of the input order. It is, exactly when
      listeners on the same port resolve alike; validation does not ask for that. */
  lemma {:induction false} ListenerOrderIff(ls: seq<Listener>)
    ensures (forall other | multiset(other) == multiset(ls) ::
               Sort(ByPort(), ResolvedListeners(other)) == Sort(ByPort(), ResolvedListeners(ls)))
            <==> (forall a, b :: a in ls && b in ls && a.port == b.port ==> ResolvedListener(a) == ResolvedListener(b))
  {
    hide ResolvedListener;
    if forall a, b :: a in ls && b in ls && a.port == b.port ==> ResolvedListener(a) == ResolvedListener(b) {
      forall other | multiset(other) == multiset(ls)
        ensures Sort(ByPort(), ResolvedListeners(other)) == Sort(ByPort(), ResolvedListeners(ls))
      {
        AlikeIsCanonical(ls, other);
      }
    } else {
      var i, j :| 0 <= i < |ls| && 0 <= j < |ls| && ls[i].port == ls[j].port &&
                  ResolvedListener(ls[i]) != ResolvedListener(ls[j]);
      var other := OrderShows(ls, i, j);
    }
  }

  lemma {:induction false} AlikeIsCanonical(ls: seq<Listener>, other: seq<Listener>)
    requires forall a, b :: a in ls && b in ls && a.port == b.port ==> ResolvedListener(a) == ResolvedListener(b)
    requires multiset(other) == multiset(ls)
    ensures Sort(ByPort(), ResolvedListeners(other)) == Sort(ByPort(), ResolvedListeners(ls))
  {
    hide ResolvedRules;
    var plans := ResolvedListeners(ls);
    forall p, q | p in plans && q in plans && p.port == q.port ensures p == q {
      var i, j :| 0 <= i < |plans| && 0 <= j < |plans| && plans[i] == p && plans[j] == q;
      assert ls[i] in ls && ls[j] in ls;
    }
    assert Antisymmetric(ByPort(), plans);
    MapMultiset(ResolvedListener, other, ls);
    SortCanonical(ByPort(), plans, ResolvedListeners(other));
  }

  /** Two listeners on a port that resolve differently, each brought forward, sort differently. */
  lemma {:induction false} OrderShows(ls: seq<Listener>, i: nat, j: nat) returns (other: seq<Listener>)
    requires i < |ls| && j < |ls| && ls[i].port == ls[j].port
    requires ResolvedListener(ls[i]) != ResolvedListener(ls[j])
    ensures multiset(other) == multiset(ls)
    ensures Sort(ByPort(), ResolvedListeners(other)) != Sort(ByPort(), ResolvedListeners(ls))
  {
    hide ResolvedRules;
    var first, second := [ls[i]] + (ls[..i] + ls[i + 1..]), [ls[j]] + (ls[..j] + ls[j + 1..]);
    BringForward(ls, i);
    BringForward(ls, j);
    HeadsShow(ByPort(), ResolvedListeners(first), ResolvedListeners(second));
    other := if Sort(ByPort(), ResolvedListeners(first)) != Sort(ByPort(), ResolvedListeners(ls)) then first else second;
  }

  /** The same two listeners in the two orders, giving two different plans. */
  lemma {:induction false} ListenerOrderMatters()
    ensures var a := Listener(80, "http", [], []); var b := Listener(80, "tcp", [], []);
            Sort(ByPort(), ResolvedListeners([a, b])) != Sort(ByPort(), ResolvedListeners([b, a]))
  {
    var a, b := ListenerPlan(80, "http", [], []), ListenerPlan(80, "tcp", [], []);
    var la, lb := Listener(80, "http", [], []), Listener(80, "tcp", [], []);
    assert TrimSpace("http") == "http" && TrimSpace("tcp") == "tcp";
    assert Lower("http") == "http" && Lower("tcp") == "tcp";
    assert CanonicalProto("http") == "http" && CanonicalProto("tcp") == "tcp" && "http" != "tcp";
    assert ResolvedListener(la) == a && ResolvedListener(lb) == b;
    assert ResolvedListeners([la, lb]) == [a, b] && ResolvedListeners([lb, la]) == [b, a];
    assert Sort(ByPort(), [a]) == [a] && Sort(ByPort(), [b]) == [b];
    assert [a, b][1..] == [b] && [b, a][1..] == [a];
    assert Sort(ByPort(), [a, b]) == [a, b] && Sort(ByPort(), [b, a]) == [b, a];
    assert [a, b][0] != [b, a][0];
  }
}
