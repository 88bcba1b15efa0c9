/** Object storage: globally safe bucket names and canonical lifecycle rules. */
module ObjectStorage {
  import opened Wrappers
  import opened Text
  import opened Keys
  import opened Sorting

  // ----- bucket names -----

  const MAX_BUCKET_NAME_LEN := 63
  const BUCKET_HASH_LEN := 10

  predicate Alnum(c: char) {
    'a' <= c <= 'z' || '0' <= c <= '9'
  }

  /** Letters, digits and single inner hyphens. */
  predicate BucketSafe(s: string) {
    && (forall i :: 0 <= i < |s| ==> Alnum(s[i]) || s[i] == '-')
    && (forall i :: 0 < i < |s| ==> s[i - 1] != '-' || s[i] != '-')
    && (s != "" ==> s[0] != '-' && s[|s| - 1] != '-')
  }

  /** Every run of other characters becomes one hyphen. */
  function Squeeze(lastHyphen: bool, s: string): string
    decreases s
  {
    if s == "" then ""
    else if Alnum(s[0]) then [s[0]] + Squeeze(false, s[1..])
    else (if lastHyphen then "" else "-") + Squeeze(true, s[1..])
  }

  function TrimHyphensLeft(s: string): string {
    if s != "" && s[0] == '-' then TrimHyphensLeft(s[1..]) else s
  }

  function TrimHyphensRight(s: string): string {
    if s != "" && s[|s| - 1] == '-' then TrimHyphensRight(s[..|s| - 1]) else s
  }

  /** strings.Trim(s, "-") */
  function TrimHyphens(s: string): string {
    TrimHyphensRight(TrimHyphensLeft(s))
  }

  function Sanitised(s: string): string {
    TrimHyphens(Squeeze(false, Lower(s)))
  }

  /** What is written for a character. */
  function Squeezed(lastHyphen: bool, c: char): string {
    if Alnum(c) then [c] else if lastHyphen then "" else "-"
  }

  lemma {:induction false} SqueezeStep(out: string, lastHyphen: bool, s: string, i: nat)
    requires i < |s|
    ensures out + Squeeze(lastHyphen, s[i..]) ==
            (out + Squeezed(lastHyphen, s[i])) + Squeeze(!Alnum(s[i]), s[i + 1..])
  {
    assert s[i..][0] == s[i] && s[i..][1..] == s[i + 1..];
    assert Squeeze(lastHyphen, s[i..]) == Squeezed(lastHyphen, s[i]) + Squeeze(!Alnum(s[i]), s[i + 1..]);
  }

  method SanitiseBucketPrefix(s: string) returns (out: string)
    ensures out == Sanitised(s)
  {
    var lower := Lower(s);
    out := "";
    assert lower[0..] == lower;
    var lastHyphen := false;
    for i := 0 to |lower|
      invariant out + Squeeze(lastHyphen, lower[i..]) == Squeeze(false, lower)
    {
      var r := lower[i];
      SqueezeStep(out, lastHyphen, lower, i);
      var written := "";
      if 'a' <= r <= 'z' || '0' <= r <= '9' {
        written := [r];
        lastHyphen := false;
      } else if !lastHyphen {
        written := "-";
        lastHyphen := true;
      }
      out := out + written;
    }
    assert lower[|lower|..] == "" && out + "" == out;
    out := TrimHyphens(out);
  }

  /** Bucket-safe except that a hyphen may stand at either end. */
  predicate Hyphenated(s: string) {
    && (forall i :: 0 <= i < |s| ==> Alnum(s[i]) || s[i] == '-')
    && (forall i :: 0 < i < |s| ==> s[i - 1] != '-' || s[i] != '-')
  }

  lemma {:induction false} SqueezeHyphenated(lastHyphen: bool, s: string)
    ensures Hyphenated(Squeeze(lastHyphen, s))
    ensures lastHyphen && Squeeze(lastHyphen, s) != "" ==> Squeeze(lastHyphen, s)[0] != '-'
    decreases s
  {
    if s != "" {
      SqueezeHyphenated(!Alnum(s[0]), s[1..]);
    }
  }

  /** One hyphen at most stands at an end of a hyphenated text, so trimming is safe. */
  lemma {:induction false} TrimMakesSafe(s: string)
    requires Hyphenated(s)
    ensures BucketSafe(TrimHyphens(s)) && |TrimHyphens(s)| <= |s|
    ensures s != "" && s[0] != '-' ==> TrimHyphens(s) != "" && TrimHyphens(s)[0] == s[0]
  {
    var l := TrimHyphensLeft(s);
    if s != "" && s[0] == '-' {
      assert s[1..] != "" ==> s[1..][0] == s[1] != '-';
      assert TrimHyphensLeft(s[1..]) == s[1..];
    }
    if l != "" && l[|l| - 1] == '-' {
      var m := l[..|l| - 1];
      assert m != "" ==> m[|m| - 1] == l[|l| - 2] != '-';
      assert TrimHyphensRight(m) == m;
    }
  }

  lemma {:induction false} SanitisedIsSafe(s: string)
    ensures BucketSafe(Sanitised(s))
  {
    SqueezeHyphenated(false, Lower(s));
    TrimMakesSafe(Squeeze(false, Lower(s)));
  }

  lemma {:induction false} SqueezeFixed(lastHyphen: bool, s: string)
    requires Hyphenated(s) && !(lastHyphen && s != "" && s[0] == '-')
    ensures Squeeze(lastHyphen, s) == s
    decreases s
  {
    if s != "" {
      assert Hyphenated(s[1..]) && s == [s[0]] + s[1..];
      SqueezeFixed(!Alnum(s[0]), s[1..]);
    }
  }

  /** Safe prefixes are exactly the ones sanitising leaves alone; so sanitising is idempotent. */
  lemma {:induction false} SanitisedFixedIff(s: string)
    ensures Sanitised(s) == s <==> BucketSafe(s)
    ensures Sanitised(Sanitised(s)) == Sanitised(s)
  {
    SanitisedIsSafe(s);
    SafeIsFixed(Sanitised(s));
    if BucketSafe(s) {
      SafeIsFixed(s);
    }
  }

  lemma {:induction false} SafeIsFixed(s: string)
    requires BucketSafe(s)
    ensures Sanitised(s) == s
  {
    assert Lower(s) == s;
    SqueezeFixed(false, s);
    if s != "" {
      assert TrimHyphensLeft(s) == s && TrimHyphensRight(s) == s;
    }
  }

  /** The letters and digits of a text, in order. */
  function Alnums(s: string): string {
    if s == "" then "" else if Alnum(s[0]) then [s[0]] + Alnums(s[1..]) else Alnums(s[1..])
  }

  lemma {:induction false} AlnumsConcat(s: string, t: string)
    ensures Alnums(s + t) == Alnums(s) + Alnums(t)
  {
    if s == "" {
      assert s + t == t;
    } else {
      assert (s + t)[0] == s[0] && (s + t)[1..] == s[1..] + t;
      AlnumsConcat(s[1..], t);
      assert [s[0]] + (Alnums(s[1..]) + Alnums(t)) == ([s[0]] + Alnums(s[1..])) + Alnums(t);
    }
  }

  lemma {:induction false} SqueezeKeeps(lastHyphen: bool, s: string)
    ensures Alnums(Squeeze(lastHyphen, s)) == Alnums(s)
    decreases s
  {
    if s != "" {
      SqueezeKeeps(!Alnum(s[0]), s[1..]);
      AlnumsConcat(Squeezed(lastHyphen, s[0]), Squeeze(!Alnum(s[0]), s[1..]));
      assert Alnums(Squeezed(lastHyphen, s[0])) == if Alnum(s[0]) then [s[0]] else "";
    }
  }

  lemma {:induction false} TrimKeeps(s: string)
    ensures Alnums(TrimHyphensLeft(s)) == Alnums(s) && Alnums(TrimHyphensRight(s)) == Alnums(s)
  {
    if s != "" && s[0] == '-' {
      TrimKeeps(s[1..]);
    }
    if s != "" && s[|s| - 1] == '-' {
      TrimKeeps(s[..|s| - 1]);
      AlnumsConcat(s[..|s| - 1], "-");
      assert s == s[..|s| - 1] + "-" && Alnums("-") == "";
    }
  }

  /** Every letter and digit survives, in order and in lower case. */
  lemma {:induction false} AlnumsSurvive(s: string)
    ensures Alnums(Sanitised(s)) == Alnums(Lower(s))
  {
    var q := Squeeze(false, Lower(s));
    SqueezeKeeps(false, Lower(s));
    TrimKeeps(q);
    TrimKeeps(TrimHyphensLeft(q));
  }

  /** Two texts parted by other characters are sanitised apart and joined by one hyphen. */
  lemma {:induction false} SanitisedParts(a: string, sep: string, b: string)
    requires a != "" && b != "" && Alnum(LowerChar(a[|a| - 1])) && Alnum(LowerChar(b[0]))
    requires sep != "" && forall i :: 0 <= i < |sep| ==> !Alnum(LowerChar(sep[i]))
    ensures Sanitised(a + sep + b) == Sanitised(a) + "-" + Sanitised(b)
  {
    hide TrimHyphensLeft, TrimHyphensRight;
    var la, ls, lb := Lower(a), Lower(sep), Lower(b);
    assert Lower(a + sep + b) == la + (ls + lb);
    var qa, qb := Squeeze(false, la), Squeeze(false, lb);
    SqueezeSplit(false, la, ls + lb);
    SqueezeSeparator(ls, lb);
    SqueezeLast(false, la);
    SqueezeFirst(lb);
    assert Squeeze(false, la + (ls + lb)) == qa + "-" + qb;
    TrimApart(qa, qb);
  }

  /** Squeezing goes on after a letter or digit as at the start. */
  lemma {:induction false} SqueezeSplit(lastHyphen: bool, s: string, t: string)
    requires s != "" && Alnum(s[|s| - 1])
    ensures Squeeze(lastHyphen, s + t) == Squeeze(lastHyphen, s) + Squeeze(false, t)
    decreases s
  {
    assert (s + t)[1..] == s[1..] + t;
    if |s| > 1 {
      SqueezeSplit(!Alnum(s[0]), s[1..], t);
    } else {
      assert s[1..] + t == t;
    }
  }

  lemma {:induction false} SqueezeSeparator(sep: string, t: string)
    requires sep != "" && (forall i :: 0 <= i < |sep| ==> !Alnum(sep[i])) && t != "" && Alnum(t[0])
    ensures Squeeze(false, sep + t) == "-" + Squeeze(false, t)
  {
    assert (sep + t)[1..] == sep[1..] + t;
    SqueezeNothing(sep[1..], t);
  }

  lemma {:induction false} SqueezeNothing(sep: string, t: string)
    requires (forall i :: 0 <= i < |sep| ==> !Alnum(sep[i])) && t != "" && Alnum(t[0])
    ensures Squeeze(true, sep + t) == Squeeze(false, t)
  {
    if sep == "" {
      assert sep + t == t;
    } else {
      assert (sep + t)[1..] == sep[1..] + t;
      SqueezeNothing(sep[1..], t);
    }
  }

  lemma {:induction false} SqueezeLast(lastHyphen: bool, s: string)
    requires s != "" && Alnum(s[|s| - 1])
    ensures var q := Squeeze(lastHyphen, s); q != "" && q[|q| - 1] == s[|s| - 1]
    decreases s
  {
    if |s| > 1 {
      SqueezeLast(!Alnum(s[0]), s[1..]);
    } else {
      assert Squeeze(lastHyphen, s) == [s[0]] + Squeeze(false, "");
    }
  }

  lemma {:induction false} SqueezeFirst(s: string)
    requires s != "" && Alnum(s[0])
    ensures Squeeze(false, s) != "" && Squeeze(false, s)[0] == s[0]
  {
  }

  lemma {:induction false} TrimApart(x: string, y: string)
    requires x != "" && y != "" && x[|x| - 1] != '-' && y[0] != '-'
    ensures TrimHyphens(x + "-" + y) == TrimHyphens(x) + "-" + TrimHyphens(y)
  {
    TrimLeftPart(x, "-" + y);
    var l := TrimHyphensLeft(x);
    assert x + ("-" + y) == x + "-" + y && l + ("-" + y) == l + "-" + y;
    TrimRightPart(l + "-", y);
    assert TrimHyphensRight(l) == l && TrimHyphensLeft(y) == y;
    assert l + "-" + y == (l + "-") + y;
  }

  lemma {:induction false} TrimLeftPart(x: string, t: string)
    requires x != "" && x[|x| - 1] != '-'
    ensures TrimHyphensLeft(x + t) == TrimHyphensLeft(x) + t
    ensures TrimHyphensLeft(x) != "" && TrimHyphensLeft(x)[|TrimHyphensLeft(x)| - 1] == x[|x| - 1]
  {
    if x[0] == '-' {
      assert (x + t)[1..] == x[1..] + t;
      TrimLeftPart(x[1..], t);
    }
  }

  lemma {:induction false} TrimRightPart(t: string, y: string)
    requires y != "" && y[0] != '-'
    ensures TrimHyphensRight(t + y) == t + TrimHyphensRight(y)
  {
    if y[|y| - 1] == '-' {
      assert (t + y)[..|t + y| - 1] == t + y[..|y| - 1];
      TrimRightPart(t, y[..|y| - 1]);
    }
  }

  predicate Hex(c: char) {
    '0' <= c <= '9' || 'a' <= c <= 'f'
  }

  /** The hexadecimal text of a 256-bit digest. */
  predicate HexDigest(h: string) {
    |h| == 64 && forall i :: 0 <= i < |h| ==> Hex(h[i])
  }

  function BucketSeed(name: string, csp: string, cspRegion: string): string {
    csp + "|" + cspRegion + "|" + name
  }

  /** The seed tells provider, region and name apart. */
  lemma {:induction false} SeedInjective(name: string, csp: string, region: string, name': string, csp': string,
        region': string)
    requires BarFree(csp) && BarFree(region) && BarFree(csp') && BarFree(region')
    ensures BucketSeed(name, csp, region) == BucketSeed(name', csp', region') <==>
            name == name' && csp == csp' && region == region'
  {
    assert csp + "|" + region + "|" + name == csp + "|" + (region + "|" + name);
    assert csp' + "|" + region' + "|" + name' == csp' + "|" + (region' + "|" + name');
    if BucketSeed(name, csp, region) == BucketSeed(name', csp', region') {
      FirstBar(csp, csp', region + "|" + name, region' + "|" + name');
      FirstBar(region, region', name, name');
    }
  }

  /** What is kept of the digest of a text. */
  function Digest(sha256Hex: string -> string, x: string): string
    requires forall x :: HexDigest(sha256Hex(x))
  {
    assert HexDigest(sha256Hex(x));
    sha256Hex(x)[..BUCKET_HASH_LEN]
  }

  /** The bucket name derived for a place. */
  function BucketName(name: string, csp: string, cspRegion: string, sha256Hex: string -> string): string
    requires forall x :: HexDigest(sha256Hex(x))
  {
    var prefix := if |Sanitised(name)| <= 52 then Sanitised(name) else TrimHyphens(Sanitised(name)[..52]);
    (if prefix == "" then "pyx" else prefix) + "-" + Digest(sha256Hex, BucketSeed(name, csp, cspRegion))
  }

  /** Unless the digest's first ten characters collide on the two, different names, and one name
      in different places, get different buckets. */
  lemma {:induction false} PlacesGetTheirOwnBuckets(name: string, csp: string, region: string, name': string, csp': string,
        region': string, sha256Hex: string -> string)
    requires forall x :: HexDigest(sha256Hex(x))
    requires var x, y := csp + "|" + region + "|" + name, csp' + "|" + region' + "|" + name';
             Digest(sha256Hex, x) == Digest(sha256Hex, y) ==> x == y
    requires BarFree(csp) && BarFree(region) && BarFree(csp') && BarFree(region')
    ensures BucketName(name, csp, region, sha256Hex) == BucketName(name', csp', region', sha256Hex) <==>
            name == name' && csp == csp' && region == region'
  {
    hide Sanitised;
    SeedInjective(name, csp, region, name', csp', region');
    var a, b := BucketName(name, csp, region, sha256Hex), BucketName(name', csp', region', sha256Hex);
    assert a[|a| - 10..] == Digest(sha256Hex, BucketSeed(name, csp, region));
    assert b[|b| - 10..] == Digest(sha256Hex, BucketSeed(name', csp', region'));
  }

  method DeriveBucketName(name: string, csp: string, cspRegion: string,
        sha256Hex: string -> string) returns (bucket: string)
    requires forall x :: HexDigest(sha256Hex(x))
    ensures 12 <= |bucket| <= MAX_BUCKET_NAME_LEN
    ensures BucketSafe(bucket)
    ensures bucket == BucketName(name, csp, cspRegion, sha256Hex)
    ensures var digest := sha256Hex(BucketSeed(name, csp, cspRegion));
            HexDigest(digest) && bucket[|bucket| - 11..] == "-" + digest[..BUCKET_HASH_LEN]
    ensures var prefix := bucket[..|bucket| - 11];
            if Sanitised(name) == "" then prefix == "pyx"
            else if |Sanitised(name)| <= 52 then prefix == Sanitised(name)
            else prefix == TrimHyphens(Sanitised(name)[..52])
  {
    var sanitised := SanitiseBucketPrefix(name);
    SanitisedIsSafe(name);
    var suffix := sha256Hex(csp + "|" + cspRegion + "|" + name)[..BUCKET_HASH_LEN];
    var maxPrefix := MAX_BUCKET_NAME_LEN - BUCKET_HASH_LEN - 1;
    if |sanitised| > maxPrefix {
      TrimMakesSafe(sanitised[..maxPrefix]);
      sanitised := TrimHyphens(sanitised[..maxPrefix]);
    }
    if sanitised == "" {
      sanitised := "pyx";
    }
    bucket := sanitised + "-" + suffix;
    assert bucket[|bucket| - 11..] == "-" + suffix && bucket[..|bucket| - 11] == sanitised;
    SafeWithSuffix(sanitised, suffix);
  }

  lemma {:induction false} SafeWithSuffix(prefix: string, suffix: string)
    requires BucketSafe(prefix) && prefix != "" && suffix != "" && forall i :: 0 <= i < |suffix| ==> Hex(suffix[i])
    ensures BucketSafe(prefix + "-" + suffix)
  {
    var b := prefix + "-" + suffix;
    assert b == prefix + ("-" + suffix);
    forall i | 0 <= i < |b| ensures Alnum(b[i]) || b[i] == '-' {
      assert b[i] == if i < |prefix| then prefix[i] else if i == |prefix| then '-' else suffix[i - |prefix| - 1];
    }
  }

  // ----- lifecycle rules -----

  datatype LifecycleRule = LifecycleRule(
    id: string, prefix: string, enabled: bool,
    expireDays: int, noncurrentVersionExpireDays: int, abortIncompleteMultipartDays: int)

  datatype LifecycleError = NoId(rule: nat) | DuplicateId(rule: nat) | NegativeDays(rule: nat) | NoAction(rule: nat)

  predicate HasId(r: LifecycleRule) {
    TrimSpace(r.id) != ""
  }

  predicate DaysOk(r: LifecycleRule) {
    r.expireDays >= 0 && r.noncurrentVersionExpireDays >= 0 && r.abortIncompleteMultipartDays >= 0
  }

  predicate HasAction(r: LifecycleRule) {
    r.expireDays != 0 || r.noncurrentVersionExpireDays != 0 || r.abortIncompleteMultipartDays != 0
  }

  predicate RuleValid(r: LifecycleRule) {
    HasId(r) && DaysOk(r) && HasAction(r)
  }

  /** The first n rules are well formed and have distinct ids. */
  predicate ValidUpTo(rules: seq<LifecycleRule>, n: nat)
    requires n <= |rules|
  {
    && (forall i :: 0 <= i < n ==> RuleValid(rules[i]))
    && (forall i, j :: 0 <= i < j < n ==> TrimSpace(rules[i].id) != TrimSpace(rules[j].id))
  }

  predicate LifecycleValid(rules: seq<LifecycleRule>) {
    ValidUpTo(rules, |rules|)
  }

  function Trimmed(r: LifecycleRule): LifecycleRule {
    r.(id := TrimSpace(r.id), prefix := TrimSpace(r.prefix))
  }

  function TrimmedAll(rules: seq<LifecycleRule>): seq<LifecycleRule> {
    Map(Trimmed, rules)
  }

  function ById(): (LifecycleRule, LifecycleRule) -> bool {
    (a: LifecycleRule, b: LifecycleRule) => !Less(b.id, a.id)
  }

  function ResolvedLifecycle(rules: seq<LifecycleRule>): seq<LifecycleRule> {
    Sort(ById(), TrimmedAll(rules))
  }

  method ResolveLifecycle(rules: seq<LifecycleRule>) returns (r: Result<seq<LifecycleRule>, LifecycleError>)
    ensures r.Ok? <==> LifecycleValid(rules)
    ensures r.Ok? ==> r.value == ResolvedLifecycle(rules)
    ensures r.Err? ==> r.error.rule < |rules| && ValidUpTo(rules, r.error.rule)
  {
    if |rules| == 0 {
      return Ok([]);
    }
    var seen: set<string> := {};
    var out: seq<LifecycleRule> := [];
    for i := 0 to |rules|
      invariant ValidUpTo(rules, i)
      invariant seen == set k | 0 <= k < i :: TrimSpace(rules[k].id)
      invariant |out| == i && forall k :: 0 <= k < i ==> out[k] == Trimmed(rules[k])
    {
      var rule := rules[i];
      var id := TrimSpace(rule.id);
      if id == "" {
        return Err(NoId(i));
      }
      if id in seen {
        return Err(DuplicateId(i));
      }
      seen := seen + {id};
      if rule.expireDays < 0 || rule.noncurrentVersionExpireDays < 0 || rule.abortIncompleteMultipartDays < 0 {
        return Err(NegativeDays(i));
      }
      if rule.expireDays == 0 && rule.noncurrentVersionExpireDays == 0 && rule.abortIncompleteMultipartDays == 0 {
        return Err(NoAction(i));
      }
      out := out + [rule.(id := id, prefix := TrimSpace(rule.prefix))];
    }
    assert out == TrimmedAll(rules);
    return Ok(Sort(ById(), out));
  }

  lemma {:induction false} ByIdIsPreorder()
    ensures Preorder(ById())
  {
    forall a: LifecycleRule, b: LifecycleRule ensures ById()(a, b) || ById()(b, a) {
      if Less(b.id, a.id) {
        LessAsymmetric(b.id, a.id);
      }
    }
    forall a: LifecycleRule, b: LifecycleRule, c: LifecycleRule | ById()(a, b) && ById()(b, c) ensures ById()(a, c) {
      NotAfterTransitive(a.id, b.id, c.id);
    }
  }

  /** Accepted rules have one order, strictly ascending by id, whatever order they are written
      in: the library's unstable sort has only one answer here. */
  lemma {:induction false} LifecycleCanonical(rules: seq<LifecycleRule>, reordered: seq<LifecycleRule>,
        sorted: seq<LifecycleRule>)
    requires LifecycleValid(rules) && multiset(reordered) == multiset(rules)
    requires Sorted(ById(), sorted) && multiset(sorted) == multiset(TrimmedAll(reordered))
    ensures sorted == ResolvedLifecycle(rules)
    ensures multiset(sorted) == multiset(TrimmedAll(rules))
    ensures forall i, j :: 0 <= i < j < |sorted| ==> Less(sorted[i].id, sorted[j].id)
  {
    var xs := TrimmedAll(rules);
    ByIdIsPreorder();
    MapMultiset(Trimmed, reordered, rules);
    forall i, j | 0 <= i < j < |xs| ensures !(ById()(xs[i], xs[j]) && ById()(xs[j], xs[i])) {
      LessConnected(xs[i].id, xs[j].id);
    }
    CanonicalOrder(ById(), xs, sorted);
  }

  /** Each accepted rule is in the resolved list with its switch and its days as they were, its
      id and prefix trimmed, and the list holds nothing else. */
  lemma {:induction false} LifecycleKeepsRules(rules: seq<LifecycleRule>, id: string, prefix: string, enabled: bool,
        expire: int, noncurrent: int, abort: int)
    ensures LifecycleRule(id, prefix, enabled, expire, noncurrent, abort) in ResolvedLifecycle(rules) <==>
            exists r :: r in rules && TrimSpace(r.id) == id && TrimSpace(r.prefix) == prefix && r.enabled == enabled
              && r.expireDays == expire && r.noncurrentVersionExpireDays == noncurrent
              && r.abortIncompleteMultipartDays == abort
    ensures |ResolvedLifecycle(rules)| == |rules|
  {
    hide TrimSpace, Sort;
    var xs, out := TrimmedAll(rules), ResolvedLifecycle(rules);
    var q := LifecycleRule(id, prefix, enabled, expire, noncurrent, abort);
    SortMultiset(ById(), xs);
    assert q in out <==> q in multiset(out);
    assert q in xs <==> q in multiset(xs);
    if q in xs {
      var i :| 0 <= i < |xs| && xs[i] == q;
      assert rules[i] in rules;
    }
    if r :| r in rules && Trimmed(r) == q {
      var i :| 0 <= i < |rules| && rules[i] == r;
      assert xs[i] == q;
    }
  }
}
