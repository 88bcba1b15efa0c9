/** A place's network: CIDR containment, zones, and the subnets of the plan. */
module Network {
  import opened Wrappers
  import opened Text
  import opened Providers

  // ----- CIDR blocks (section 3.1 of RFC 4632) -----

  /** An address with a prefix length, in a family of `width`-bit addresses (32 or 128). */
  datatype Cidr = Cidr(addr: nat, ones: nat)

  function Pow2(n: nat): (p: nat)
    ensures p >= 1
  {
    if n == 0 then 1 else 2 * Pow2(n - 1)
  }

  predicate WellFormed(width: nat, c: Cidr) {
    c.ones <= width && c.addr < Pow2(width)
  }

  /** The size of a block is a power of two, and the block is the addresses that share the
      quotient by it: those with the same first `ones` bits. */
  function BlockSize(width: nat, c: Cidr): nat
    requires WellFormed(width, c)
  {
    Pow2(width - c.ones)
  }

  predicate InBlock(width: nat, c: Cidr, a: nat)
    requires WellFormed(width, c)
  {
    a / BlockSize(width, c) == c.addr / BlockSize(width, c)
  }

  ghost predicate Subset(width: nat, sub: Cidr, vpc: Cidr)
    requires WellFormed(width, sub) && WellFormed(width, vpc)
  {
    forall a: nat :: InBlock(width, sub, a) ==> InBlock(width, vpc, a)
  }

  lemma {:induction false} Pow2Splits(m: nat, n: nat)
    requires m <= n
    ensures Pow2(n) == Pow2(n - m) * Pow2(m)
  {
    if m > 0 {
      Pow2Splits(m - 1, n - 1);
      assert Pow2(n) == 2 * (Pow2(n - m) * Pow2(m - 1));
    }
  }

  lemma {:induction false} Pow2Grows(m: nat, n: nat)
    requires m < n
    ensures Pow2(m) < Pow2(n)
  {
    if m + 1 < n {
      Pow2Grows(m, n - 1);
    }
  }

  /** A block is a run of addresses: as many as the bits after the prefix allow, from a multiple
      of that number on, the block's address among them. */
  lemma {:induction false} BlockIsRange(width: nat, c: Cidr, a: nat)
    requires WellFormed(width, c)
    ensures var size := BlockSize(width, c);
            var first := c.addr - c.addr % size;
            && size * Pow2(c.ones) == Pow2(width) && first % size == 0 && first <= c.addr < first + size
            && (InBlock(width, c, a) <==> first <= a < first + size)
    ensures Pow2(8) == 256 && Pow2(32) == 0x1_0000_0000
  {
    hide Pow2;
    Pow2Splits(c.ones, width);
    PowersOfTwo();
    QuotientRange(c.addr, BlockSize(width, c), a);
  }

  lemma {:induction false} QuotientRange(x: nat, d: nat, a: nat)
    requires d >= 1
    ensures var first := x - x % d;
            && first % d == 0 && first <= x < first + d
            && (a / d == x / d <==> first <= a < first + d)
  {
    var q := x / d;
    var first := q * d;
    assert x == first + x % d;
    DivUnique(first, d, q, 0);
    assert first == first / d * d + first % d;
    assert a == a / d * d + a % d;
    if first <= a < first + d {
      DivUnique(a, d, q, a - first);
    }
  }

  lemma {:induction false} PowersOfTwo()
    ensures Pow2(8) == 256 && Pow2(32) == 0x1_0000_0000
  {
    Pow2Splits(16, 32);
    Pow2Splits(8, 16);
    assert Pow2(8) == 256;
  }

  /** Coarser quotients follow from finer ones. */
  lemma {:induction false} QuotientsNest(a: nat, b: nat, fine: nat, k: nat)
    requires fine >= 1 && k >= 1 && a / fine == b / fine
    ensures a / (k * fine) == b / (k * fine)
  {
    QuotientOfQuotient(a, fine, k);
    QuotientOfQuotient(b, fine, k);
  }

  lemma {:induction false} QuotientOfQuotient(a: nat, d: nat, k: nat)
    requires d >= 1 && k >= 1
    ensures k * d >= 1
    ensures a / (k * d) == (a / d) / k
  {
    var q, r := a / d, a % d;
    Times(1, k, d);
    Regroup(q / k, q % k, k, d, r);
    DivUnique(a, k * d, q / k, (q % k) * d + r);
  }

  lemma {:induction false} Times(lo: nat, hi: nat, d: nat)
    requires lo <= hi
    ensures lo * d <= hi * d && hi * d - lo * d == (hi - lo) * d
  {
    assert (hi - lo) * d >= 0;
  }

  lemma {:induction false} Regroup(u: nat, v: nat, k: nat, d: nat, r: nat)
    requires v < k && r < d
    ensures (u * k + v) * d + r == u * (k * d) + (v * d + r)
    ensures v * d + r < k * d
  {
    Times(v + 1, k, d);
    assert (v + 1) * d == v * d + d;
    assert (u * k + v) * d == u * k * d + v * d;
    assert u * k * d == u * (k * d);
  }

  lemma {:induction false} Below(d: nat, p: nat, s: nat, q: nat)
    requires p < q && s < d
    ensures p * d + s < q * d
  {
    Times(p + 1, q, d);
    assert (p + 1) * d == p * d + d;
  }

  lemma {:induction false} Unique(d: nat, p: nat, s: nat, q: nat, r: nat)
    requires p * d + s == q * d + r && s < d && r < d
    ensures p == q
  {
    if p < q {
      Below(d, p, s, q);
    } else if q < p {
      Below(d, q, r, p);
    }
  }

  lemma {:induction false} NextBlock(a: nat, d: nat)
    requires d >= 1
    ensures (a + d) / d == a / d + 1
  {
    var p := a / d;
    assert a == p * d + a % d && (p + 1) * d == p * d + d;
    DivUnique(a + d, d, p + 1, a % d);
  }

  lemma {:induction false} DivUnique(a: nat, d: nat, q: nat, r: nat)
    requires d >= 1 && a == q * d + r && r < d
    ensures a / d == q
  {
    var p := a / d;
    assert a == p * d + a % d;
    Unique(d, p, a % d, q, r);
  }

  /** The address check of the subnet loop, exactly: the subnet's address lies in the VPC
      block and its prefix is at least as long if and only if every one of its addresses lies
      in the VPC block. */
  lemma {:induction false} ContainmentIff(width: nat, sub: Cidr, vpc: Cidr)
    requires WellFormed(width, sub) && WellFormed(width, vpc)
    ensures InBlock(width, vpc, sub.addr) && sub.ones >= vpc.ones <==> Subset(width, sub, vpc)
  {
    if InBlock(width, vpc, sub.addr) && sub.ones >= vpc.ones {
      LongerPrefixNests(width, sub, vpc);
    }
    if Subset(width, sub, vpc) {
      assert InBlock(width, sub, sub.addr);
      if sub.ones < vpc.ones {
        ShorterPrefixEscapes(width, sub, vpc);
      }
    }
  }

  lemma {:induction false} LongerPrefixNests(width: nat, sub: Cidr, vpc: Cidr)
    requires WellFormed(width, sub) && WellFormed(width, vpc)
    requires InBlock(width, vpc, sub.addr) && sub.ones >= vpc.ones
    ensures Subset(width, sub, vpc)
  {
    var fine, k := BlockSize(width, sub), Pow2(sub.ones - vpc.ones);
    Pow2Splits(width - sub.ones, width - vpc.ones);
    assert BlockSize(width, vpc) == k * fine;
    forall a: nat | InBlock(width, sub, a) ensures InBlock(width, vpc, a) {
      QuotientsNest(a, sub.addr, fine, k);
    }
  }

  /** A block larger than the VPC's has addresses outside it. */
  lemma {:induction false} ShorterPrefixEscapes(width: nat, sub: Cidr, vpc: Cidr)
    requires WellFormed(width, sub) && WellFormed(width, vpc) && sub.ones < vpc.ones
    ensures !Subset(width, sub, vpc)
  {
    Pow2Grows(width - vpc.ones, width - sub.ones);
    var a := Escapee(sub.addr, Pow2(width - sub.ones), vpc.addr, Pow2(width - vpc.ones));
    assert InBlock(width, sub, a) && !InBlock(width, vpc, a);
  }

  /** Two addresses of the larger block lie a whole smaller block apart: one escapes. */
  lemma {:induction false} Escapee(x: nat, d: nat, y: nat, step: nat) returns (a: nat)
    requires 1 <= step < d
    ensures a / d == x / d && a / step != y / step
  {
    var q := x / d;
    a := q * d;
    DivUnique(a, d, q, 0);
    if a / step == y / step {
      NextBlock(a, step);
      a := a + step;
      DivUnique(a, d, q, step);
    }
  }

  // ----- zones -----

  const LETTERS := "abcdef"

  predicate KnownProvider(provider: string) {
    ProviderToCSP(provider).Some?
  }

  /** How many zones a provider cycles through; 0 where it does not cycle. */
  function Cycle(provider: string): nat {
    if provider == "aws" || provider == "alicloud" || provider == "gcp" then 6
    else if provider == "ibm" || provider == "stackit" then 3
    else 0
  }

  function ZoneName(provider: string, cspRegion: string, k: nat): string
    requires Cycle(provider) > 0 && k < Cycle(provider)
  {
    if provider == "aws" || provider == "alicloud" then cspRegion + [LETTERS[k]]
    else if provider == "gcp" then cspRegion + "-" + [LETTERS[k]]
    else cspRegion + "-" + Decimal(k + 1)
  }

  /** Providers whose plan carries one zone per subnet. */
  predicate Zonal(provider: string) {
    Cycle(provider) > 0 || provider == "oracle"
  }

  function Zone(provider: string, cspRegion: string, i: nat): string
    requires Zonal(provider)
  {
    if provider == "oracle" then Decimal(i + 1) else ZoneName(provider, cspRegion, i % Cycle(provider))
  }

  function Zones(provider: string, cspRegion: string, n: nat): seq<string> {
    if Zonal(provider) then seq(n, i requires 0 <= i < n => Zone(provider, cspRegion, i)) else []
  }

  method DeriveZones(provider: string, cspRegion: string, n: int) returns (zones: seq<string>)
    ensures zones == Zones(provider, cspRegion, Max(n, 0))
  {
    if n <= 0 {
      return [];
    }
    zones := [];
    if provider == "aws" || provider == "alicloud" {
      for i := 0 to n
        invariant |zones| == i && forall k :: 0 <= k < i ==> zones[k] == Zone(provider, cspRegion, k)
      {
        zones := zones + [cspRegion + [LETTERS[i % |LETTERS|]]];
      }
    } else if provider == "gcp" {
      for i := 0 to n
        invariant |zones| == i && forall k :: 0 <= k < i ==> zones[k] == Zone(provider, cspRegion, k)
      {
        zones := zones + [cspRegion + "-" + [LETTERS[i % |LETTERS|]]];
      }
    } else if provider == "ibm" || provider == "stackit" {
      for i := 0 to n
        invariant |zones| == i && forall k :: 0 <= k < i ==> zones[k] == Zone(provider, cspRegion, k)
      {
        zones := zones + [cspRegion + "-" + Decimal(i % 3 + 1)];
      }
    } else if provider == "oracle" {
      for i := 0 to n
        invariant |zones| == i && forall k :: 0 <= k < i ==> zones[k] == Zone(provider, cspRegion, k)
      {
        zones := zones + [Decimal(i + 1)];
      }
    }
  }

  lemma {:induction false} ZoneNamesDistinct(provider: string, cspRegion: string, j: nat, k: nat)
    requires j != k && j < Cycle(provider) && k < Cycle(provider)
    ensures ZoneName(provider, cspRegion, j) != ZoneName(provider, cspRegion, k)
  {
    var a, b := ZoneName(provider, cspRegion, j), ZoneName(provider, cspRegion, k);
    if provider == "ibm" || provider == "stackit" {
      var stem := cspRegion + "-";
      assert a[|stem|..] == Decimal(j + 1) && b[|stem|..] == Decimal(k + 1);
      DecimalDistinct(j + 1, k + 1);
    } else {
      assert a[|a| - 1] == LETTERS[j] && b[|b| - 1] == LETTERS[k];
      assert LETTERS[j] != LETTERS[k];
    }
  }

  lemma {:induction false} ResiduesDiffer(i: nat, j: nat, c: nat) returns (a: nat, b: nat)
    requires (c == 3 || c == 6) && i < j < i + c
    ensures a == i % c && b == j % c && a < c && b < c && a != b
  {
    a, b := i % c, j % c;
  }

  /** A window no longer than the cycle uses each zone at most once; on Oracle, any window. */
  lemma {:induction false} WindowDistinct(provider: string, cspRegion: string, n: nat, i: nat, j: nat)
    requires Zonal(provider) && i < j < n && (provider == "oracle" || j - i < Cycle(provider))
    ensures Zones(provider, cspRegion, n)[i] != Zones(provider, cspRegion, n)[j]
  {
    ZonesApart(provider, cspRegion, i, j);
  }

  lemma {:induction false} ZonesApart(provider: string, cspRegion: string, i: nat, j: nat)
    requires Zonal(provider) && i < j && (provider == "oracle" || j - i < Cycle(provider))
    ensures Zone(provider, cspRegion, i) != Zone(provider, cspRegion, j)
  {
    if provider == "oracle" {
      DecimalDistinct(i + 1, j + 1);
    } else {
      var a, b := ResiduesDiffer(i, j, Cycle(provider));
      ZoneNamesDistinct(provider, cspRegion, a, b);
    }
  }

  /** How often a zone is used. */
  function Uses(zones: seq<string>, z: string): nat {
    if zones == [] then 0 else Uses(zones[..|zones| - 1], z) + if zones[|zones| - 1] == z then 1 else 0
  }

  /** How many of the first n numbers are k modulo c. */
  function Residues(n: nat, c: nat, k: nat): nat
    requires k < c
  {
    (n + c - 1 - k) / c
  }

  lemma {:induction false} ResidueStep(n: nat, c: nat, k: nat) returns (j: nat)
    requires (c == 3 || c == 6) && k < c && n > 0
    ensures j == (n - 1) % c && j < c
    ensures Residues(n, c, k) == Residues(n - 1, c, k) + if j == k then 1 else 0
  {
    j := (n - 1) % c;
  }

  /** The k-th zone of the cycle is used every c subnets, starting with the k-th. */
  lemma {:induction false} UsesOfZone(provider: string, cspRegion: string, n: nat, k: nat)
    requires Cycle(provider) > 0 && k < Cycle(provider)
    ensures Uses(Zones(provider, cspRegion, n), ZoneName(provider, cspRegion, k)) == Residues(n, Cycle(provider), k)
  {
    hide ZoneName, Zones, Residues;
    if n == 0 {
      assert Zones(provider, cspRegion, 0) == [] by { NextZone(provider, cspRegion, 0); }
      assert Residues(0, Cycle(provider), k) == 0 by { NoResidues(provider, k); }
    } else {
      UsesOfZone(provider, cspRegion, n - 1, k);
      var j := ResidueStep(n, Cycle(provider), k);
      NextZone(provider, cspRegion, n);
      if j != k {
        ZoneNamesDistinct(provider, cspRegion, j, k);
      }
    }
  }

  lemma {:induction false} NoResidues(provider: string, k: nat)
    requires k < Cycle(provider)
    ensures Residues(0, Cycle(provider), k) == 0
  {
  }

  lemma {:induction false} NextZone(provider: string, cspRegion: string, n: nat)
    requires Cycle(provider) > 0
    ensures |Zones(provider, cspRegion, n)| == n
    ensures n > 0 ==> Zones(provider, cspRegion, n)[..n - 1] == Zones(provider, cspRegion, n - 1)
    ensures n > 0 ==> Zones(provider, cspRegion, n)[n - 1] == ZoneName(provider, cspRegion, (n - 1) % Cycle(provider))
  {
    hide ZoneName;
  }

  /** Subnets spread evenly: the use counts of any two zones of the cycle differ by at most one. */
  lemma {:induction false} ZonesBalanced(provider: string, cspRegion: string, n: nat, j: nat, k: nat)
    requires j < Cycle(provider) && k < Cycle(provider)
    ensures var zones := Zones(provider, cspRegion, n);
            -1 <= Uses(zones, ZoneName(provider, cspRegion, j)) - Uses(zones, ZoneName(provider, cspRegion, k)) <= 1
  {
    UsesOfZone(provider, cspRegion, n, j);
    UsesOfZone(provider, cspRegion, n, k);
  }

  // ----- validation and translation -----

  datatype Spec = Spec(name: string, region: string, provider: string, cidr: string, subnets: seq<string>)

  datatype SubnetPlan = SubnetPlan(name: string, cidr: string, zone: string)

  datatype Plan = Plan(provider: string, cspRegion: string, vpcName: string, cidr: string, subnets: seq<SubnetPlan>)

  datatype Error =
    | RegionRequired | ProviderRequired | UnknownProvider | CidrRequired | InvalidCidr
    | InvalidSubnet(at: nat) | SubnetOutside(at: nat) | SubnetWider(at: nat) | RegionNotFound

  /** What lies outside this component: parsing addresses of one family, and the region catalog. */
  datatype World = World(width: nat, parse: string -> Option<Cidr>, resolveRegion: (string, string) -> Option<string>) {
    ghost predicate Valid() {
      forall s: string :: parse(s).Some? ==> WellFormed(width, parse(s).value)
    }
  }

  predicate HeaderValid(w: World, spec: Spec) {
    && TrimSpace(spec.region) != "" && TrimSpace(spec.provider) != "" && KnownProvider(spec.provider)
    && TrimSpace(spec.cidr) != "" && w.parse(spec.cidr).Some?
  }

  ghost predicate SubnetInside(w: World, spec: Spec, s: string)
    requires w.Valid() && HeaderValid(w, spec)
  {
    w.parse(s).Some? && Subset(w.width, w.parse(s).value, w.parse(spec.cidr).value)
  }

  /** Accepts exactly the specifications whose subnets consist of VPC addresses only. */
  method ValidateSpec(w: World, spec: Spec) returns (r: Result<(), Error>)
    requires w.Valid()
    ensures r.Ok? <==> HeaderValid(w, spec) && forall s :: s in spec.subnets ==> SubnetInside(w, spec, s)
  {
    if TrimSpace(spec.region) == "" {
      return Err(RegionRequired);
    }
    if TrimSpace(spec.provider) == "" {
      return Err(ProviderRequired);
    }
    if !KnownProvider(spec.provider) {
      return Err(UnknownProvider);
    }
    if TrimSpace(spec.cidr) == "" {
      return Err(CidrRequired);
    }
    var vpc := w.parse(spec.cidr);
    if vpc.None? {
      return Err(InvalidCidr);
    }
    for i := 0 to |spec.subnets|
      invariant forall k :: 0 <= k < i ==> SubnetInside(w, spec, spec.subnets[k])
    {
      var s := spec.subnets[i];
      assert s in spec.subnets;
      var sub := w.parse(s);
      if sub.None? {
        return Err(InvalidSubnet(i));
      }
      ContainmentIff(w.width, sub.value, vpc.value);
      if !InBlock(w.width, vpc.value, sub.value.addr) {
        return Err(SubnetOutside(i));
      }
      if sub.value.ones < vpc.value.ones {
        return Err(SubnetWider(i));
      }
    }
    return Ok(());
  }

  function VpcName(spec: Spec): string {
    if spec.name == "" then "pyxcloud" else spec.name
  }

  function SubnetName(vpc: string, i: nat): string {
    vpc + "-subnet-" + Decimal(i + 1)
  }

  /** The i-th subnet with the i-th zone, or none where the provider has no zones. */
  function SubnetAt(spec: Spec, cspRegion: string, i: nat): SubnetPlan
    requires i < |spec.subnets|
  {
    var provider := Lower(spec.provider);
    SubnetPlan(SubnetName(VpcName(spec), i), spec.subnets[i],
               if Zonal(provider) then Zone(provider, cspRegion, i) else "")
  }

  function SubnetPlans(spec: Spec, cspRegion: string): seq<SubnetPlan> {
    seq(|spec.subnets|, i requires 0 <= i < |spec.subnets| => SubnetAt(spec, cspRegion, i))
  }

  method TranslateNetwork(w: World, spec: Spec) returns (r: Result<Plan, Error>)
    requires w.Valid()
    ensures r.Ok? <==>
            && HeaderValid(w, spec) && (forall s :: s in spec.subnets ==> SubnetInside(w, spec, s))
            && w.resolveRegion(spec.region, spec.provider).Some?
    ensures r.Ok? ==>
              var region := w.resolveRegion(spec.region, spec.provider).value;
              r.value == Plan(Lower(spec.provider), region, VpcName(spec), spec.cidr, SubnetPlans(spec, region))
  {
    var valid := ValidateSpec(w, spec);
    if valid.Err? {
      return Err(valid.error);
    }
    var row := w.resolveRegion(spec.region, spec.provider);
    if row.None? {
      return Err(RegionNotFound);
    }
    var name := spec.name;
    if name == "" {
      name := "pyxcloud";
    }
    var provider := Lower(spec.provider);
    var zones := DeriveZones(provider, row.value, |spec.subnets|);
    var subnets := PairSubnets(spec, row.value, name, zones);
    return Ok(Plan(provider, row.value, name, spec.cidr, subnets));
  }

  /** The loop that pairs each subnet with the zone at its index, if there is one. */
  method PairSubnets(spec: Spec, cspRegion: string, name: string, zones: seq<string>) returns (subnets: seq<SubnetPlan>)
    requires name == VpcName(spec) && zones == Zones(Lower(spec.provider), cspRegion, |spec.subnets|)
    ensures subnets == SubnetPlans(spec, cspRegion)
  {
    subnets := [];
    for i := 0 to |spec.subnets|
      invariant |subnets| == i && forall k :: 0 <= k < i ==> subnets[k] == SubnetAt(spec, cspRegion, k)
    {
      var zone := "";
      if i < |zones| {
        zone := zones[i];
      }
      subnets := subnets + [SubnetPlan(SubnetName(name, i), spec.subnets[i], zone)];
    }
  }

  lemma {:induction false} SubnetNamesDistinct(vpc: string, i: nat, j: nat)
    requires i != j
    ensures SubnetName(vpc, i) != SubnetName(vpc, j)
  {
    var stem := vpc + "-subnet-";
    assert SubnetName(vpc, i)[|stem|..] == Decimal(i + 1) && SubnetName(vpc, j)[|stem|..] == Decimal(j + 1);
    DecimalDistinct(i + 1, j + 1);
  }

  /** Every zone is one of the region's own: the k-th letter or number of the provider's cycle,
      counted from the subnet's place; on Oracle the place itself. */
  lemma {:induction false} ZoneShape(provider: string, cspRegion: string, i: nat)
    requires Zonal(provider)
    ensures provider in ["aws", "alicloud"] ==> Zone(provider, cspRegion, i) == cspRegion + ["abcdef"[i % 6]]
    ensures provider == "gcp" ==> Zone(provider, cspRegion, i) == cspRegion + "-" + ["abcdef"[i % 6]]
    ensures provider in ["ibm", "stackit"] ==> Zone(provider, cspRegion, i) == cspRegion + "-" + Decimal(i % 3 + 1)
    ensures provider == "oracle" ==> AtoiOrZero(Zone(provider, cspRegion, i)) == Min(i + 1, 0x7fff_ffff_ffff_ffff)
    ensures provider in ["aws", "alicloud", "gcp", "ibm", "stackit", "oracle"]
  {
    hide AtoiOrZero, Decimal;
    assert |"aws"| == 3 && |"gcp"| == 3 && |"ibm"| == 3 && |"stackit"| == 7 && |"alicloud"| == 8 && |"oracle"| == 6;
    assert "aws"[0] != "gcp"[0] && "aws"[0] != "ibm"[0] && "gcp"[0] != "ibm"[0];
    AtoiNumeral(i + 1);
  }

  /** The network keeps the subnets of the specification, in order, under names of their own
      that extend the network's; a zonal provider's get the zone of their place, the rest none. */
  lemma {:induction false} SubnetsKept(spec: Spec, cspRegion: string, i: nat)
    requires i < |spec.subnets|
    ensures |SubnetPlans(spec, cspRegion)| == |spec.subnets|
    ensures var s := SubnetPlans(spec, cspRegion)[i];
            && s.cidr == spec.subnets[i]
            && s.name == (if spec.name == "" then "pyxcloud" else spec.name) + "-subnet-" + Decimal(i + 1)
            && s.zone == if Zonal(Lower(spec.provider)) then Zone(Lower(spec.provider), cspRegion, i) else ""
  {
    hide Zone, Decimal, Cycle;
  }
}
