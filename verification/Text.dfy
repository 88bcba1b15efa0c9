/** The string operations of the Go standard library the provider relies on.
    Case folding and white space are those of ASCII. */
module Text {
  function Concat(parts: seq<string>): string {
    if parts == [] then "" else Concat(parts[..|parts| - 1]) + parts[|parts| - 1]
  }

  predicate HasPrefix(s: string, prefix: string) {
    prefix <= s
  }

  predicate Contains(s: string, sub: string) {
    sub <= s || (s != "" && Contains(s[1..], sub))
  }

  lemma {:induction false} ContainsAt(s: string, sub: string, at: nat)
    requires at <= |s| && sub <= s[at..]
    ensures Contains(s, sub)
  {
    if at > 0 {
      assert s[1..][at - 1..] == s[at..];
      ContainsAt(s[1..], sub, at - 1);
    }
  }

  lemma {:induction false} ContainsWitness(s: string, sub: string) returns (at: nat)
    requires Contains(s, sub)
    ensures at <= |s| && sub <= s[at..]
  {
    if sub <= s {
      at := 0;
    } else {
      var rest := ContainsWitness(s[1..], sub);
      at := rest + 1;
      assert s[1..][rest..] == s[at..];
    }
  }

  /** A text found inside one part is found in the concatenation, whatever surrounds it. */
  lemma {:induction false} ContainsInConcat(parts: seq<string>, i: nat, sub: string)
    requires i < |parts| && Contains(parts[i], sub)
    ensures Contains(Concat(parts), sub)
  {
    var init, last := Concat(parts[..|parts| - 1]), parts[|parts| - 1];
    if i == |parts| - 1 {
      var at := ContainsWitness(last, sub);
      assert (init + last)[|init| + at..] == last[at..];
      ContainsAt(init + last, sub, |init| + at);
    } else {
      ContainsInConcat(parts[..|parts| - 1], i, sub);
      var at := ContainsWitness(init, sub);
      assert (init + last)[at..] == init[at..] + last;
      ContainsAt(init + last, sub, at);
    }
  }

  // ----- white space -----

  predicate IsSpace(c: char) {
    c == ' ' || c == '\t' || c == '\n' || c == '\r' || c == '\U{0B}' || c == '\U{0C}'
  }

  function TrimLeft(s: string): (t: string)
    ensures |t| <= |s|
  {
    if s != "" && IsSpace(s[0]) then TrimLeft(s[1..]) else s
  }

  function TrimRight(s: string): (t: string)
    ensures |t| <= |s|
  {
    if s != "" && IsSpace(s[|s| - 1]) then TrimRight(s[..|s| - 1]) else s
  }

  function TrimSpace(s: string): string {
    TrimRight(TrimLeft(s))
  }

  /** Trimming takes white space off both ends and nothing else. */
  lemma {:induction false} TrimSpaceExact(s: string) returns (i: nat, j: nat)
    ensures i <= j <= |s| && TrimSpace(s) == s[i..j]
    ensures forall k :: 0 <= k < |s| && !(i <= k < j) ==> IsSpace(s[k])
    ensures i < j ==> !IsSpace(s[i]) && !IsSpace(s[j - 1])
  {
    i := TrimLeftAt(s);
    j := TrimRightAt(s[i..]);
    assert forall k :: i <= k < |s| ==> s[i..][k - i] == s[k];
    j := i + j;
  }

  lemma {:induction false} TrimLeftAt(s: string) returns (i: nat)
    ensures i <= |s| && TrimLeft(s) == s[i..]
    ensures forall k :: 0 <= k < i ==> IsSpace(s[k])
    ensures i < |s| ==> !IsSpace(s[i])
  {
    i := 0;
    if s != "" && IsSpace(s[0]) {
      i := TrimLeftAt(s[1..]);
      assert forall k :: 0 < k < |s| ==> s[k] == s[1..][k - 1];
      assert s[1..][i..] == s[i + 1..];
      i := i + 1;
    }
  }

  lemma {:induction false} TrimRightAt(s: string) returns (j: nat)
    ensures j <= |s| && TrimRight(s) == s[..j]
    ensures forall k :: j <= k < |s| ==> IsSpace(s[k])
    ensures j > 0 ==> !IsSpace(s[j - 1])
  {
    j := |s|;
    if s != "" && IsSpace(s[|s| - 1]) {
      j := TrimRightAt(s[..|s| - 1]);
      assert forall k :: 0 <= k < |s| - 1 ==> s[k] == s[..|s| - 1][k];
      assert s[..|s| - 1][..j] == s[..j];
    }
  }

  lemma {:induction false} TrimSolid(s: string)
    requires s == "" || (!IsSpace(s[0]) && !IsSpace(s[|s| - 1]))
    ensures TrimSpace(s) == s
  {
    assert TrimLeft(s) == s;
  }

  // ----- letter case -----

  function LowerChar(c: char): char {
    if 'A' <= c <= 'Z' then (c as int + 32) as char else c
  }

  function Lower(s: string): string {
    seq(|s|, i requires 0 <= i < |s| => LowerChar(s[i]))
  }

  predicate EqualFold(s: string, t: string) {
    Lower(s) == Lower(t)
  }

  const CAPITALS := "ABCDEFGHIJKLMNOPQRSTUVWXYZ"
  const SMALLS := "abcdefghijklmnopqrstuvwxyz"

  /** One letter in two cases. */
  predicate CasePair(a: char, b: char) {
    exists k :: 0 <= k < 26 && a == CAPITALS[k] && b == SMALLS[k]
  }

  /** Two texts are equal up to case exactly when each character is the same or the same letter
      in the other case. */
  lemma {:induction false} EqualFoldMeaning(s: string, t: string)
    ensures EqualFold(s, t) <==>
            |s| == |t| && forall i :: 0 <= i < |s| ==> s[i] == t[i] || CasePair(s[i], t[i]) || CasePair(t[i], s[i])
  {
    if |s| == |t| {
      forall i | 0 <= i < |s|
        ensures Lower(s)[i] == Lower(t)[i] <==> s[i] == t[i] || CasePair(s[i], t[i]) || CasePair(t[i], s[i])
      {
        SameLetter(s[i], t[i]);
      }
    } else {
      assert |Lower(s)| != |Lower(t)|;
    }
  }

  lemma {:induction false} SameLetter(a: char, b: char)
    ensures LowerChar(a) == LowerChar(b) <==> a == b || CasePair(a, b) || CasePair(b, a)
  {
    Alphabet();
    if LowerChar(a) == LowerChar(b) && 'A' <= a <= 'Z' && a != b {
      assert CAPITALS[a as int - 65] == a && SMALLS[a as int - 65] == b;
    }
    if LowerChar(a) == LowerChar(b) && 'A' <= b <= 'Z' && a != b {
      assert CAPITALS[b as int - 65] == b && SMALLS[b as int - 65] == a;
    }
  }

  lemma {:induction false} Alphabet()
    ensures forall k :: 0 <= k < 26 ==> CAPITALS[k] as int == 65 + k && SMALLS[k] as int == 97 + k
  {
  }

  // ----- the byte order on strings, and its laws -----

  predicate Less(a: string, b: string) {
    b != "" && (a == "" || a[0] < b[0] || (a[0] == b[0] && Less(a[1..], b[1..])))
  }

  /** The first difference decides, and a proper prefix comes first. */
  lemma {:induction false} LessIff(a: string, b: string)
    ensures Less(a, b) <==>
            || (|a| < |b| && a == b[..|a|])
            || exists i :: 0 <= i < |a| && i < |b| && a[..i] == b[..i] && a[i] < b[i]
  {
    if a != "" && b != "" && a[0] == b[0] {
      LessIff(a[1..], b[1..]);
      assert a == [a[0]] + a[1..] && b == [b[0]] + b[1..];
      if i :| 0 <= i < |a[1..]| && i < |b[1..]| && a[1..][..i] == b[1..][..i] && a[1..][i] < b[1..][i] {
        assert a[..i + 1] == [a[0]] + a[1..][..i] && b[..i + 1] == [b[0]] + b[1..][..i];
        assert a[i + 1] == a[1..][i] && b[i + 1] == b[1..][i];
      }
      if i :| 0 <= i < |a| && i < |b| && a[..i] == b[..i] && a[i] < b[i] {
        assert a[1..][..i - 1] == a[..i][1..] && b[1..][..i - 1] == b[..i][1..];
        assert a[1..][i - 1] < b[1..][i - 1];
      }
      if |a| < |b| && a == b[..|a|] {
        assert a[1..] == b[1..][..|a[1..]|];
      }
      if |a[1..]| < |b[1..]| && a[1..] == b[1..][..|a[1..]|] {
        assert b[..|a|] == [b[0]] + b[1..][..|a| - 1];
      }
    } else if a != "" && b != "" {
      assert forall i :: 0 < i < |a| && i < |b| ==> a[..i][0] != b[..i][0];
      assert |a| < |b| ==> b[..|a|][0] != a[0];
      assert a[..0] == b[..0];
    } else if a == "" {
      assert b[..0] == "";
    }
  }

  lemma {:induction false} LessIrreflexive(a: string)
    ensures !Less(a, a)
  {
    if a != "" {
      LessIrreflexive(a[1..]);
    }
  }

  lemma {:induction false} LessConnected(a: string, b: string)
    ensures Less(a, b) || a == b || Less(b, a)
  {
    if a != "" && b != "" && a[0] == b[0] {
      LessConnected(a[1..], b[1..]);
      assert a[1..] == b[1..] ==> a == [a[0]] + a[1..] == [b[0]] + b[1..] == b;
    }
  }

  lemma {:induction false} LessTransitive(a: string, b: string, c: string)
    requires Less(a, b) && Less(b, c)
    ensures Less(a, c)
  {
    if a != "" && a[0] == b[0] && b[0] == c[0] {
      LessTransitive(a[1..], b[1..], c[1..]);
    }
  }

  lemma {:induction false} LessAsymmetric(a: string, b: string)
    requires Less(a, b)
    ensures !Less(b, a)
  {
    if Less(b, a) {
      LessTransitive(a, b, a);
      LessIrreflexive(a);
    }
  }

  lemma {:induction false} NotAfterTransitive(a: string, b: string, c: string)
    requires !Less(b, a) && !Less(c, b)
    ensures !Less(c, a)
  {
    if Less(c, a) {
      LessConnected(a, b);
      if a != b {
        LessTransitive(c, a, b);
      }
    }
  }

  // ----- decimal numerals -----

  function Digit(n: nat): char
    requires n < 10
  {
    (n + '0' as int) as char
  }

  function Decimal(n: nat): (s: string)
    ensures s != "" && forall i :: 0 <= i < |s| ==> '0' <= s[i] <= '9'
  {
    if n < 10 then [Digit(n)] else Decimal(n / 10) + [Digit(n % 10)]
  }

  /** Distinct numbers have distinct numerals. */
  lemma {:induction false} DecimalInjective(m: nat, n: nat)
    requires Decimal(m) == Decimal(n)
    ensures m == n
  {
    var s, t := Decimal(m), Decimal(n);
    assert s[|s| - 1] == Digit(m % 10) && t[|t| - 1] == Digit(n % 10);
    assert m % 10 == n % 10;
    if m >= 10 && n >= 10 {
      assert s[..|s| - 1] == Decimal(m / 10) && t[..|t| - 1] == Decimal(n / 10);
      DecimalInjective(m / 10, n / 10);
    }
  }

  lemma {:induction false} DecimalDistinct(m: nat, n: nat)
    requires m != n
    ensures Decimal(m) != Decimal(n)
  {
    if Decimal(m) == Decimal(n) {
      DecimalInjective(m, n);
    }
  }

  /** strconv.Atoi with its error ignored: malformed text is 0, and a number that does not
      fit a 64-bit integer is clamped to the nearest one that does. */
  function AtoiOrZero(s: string): int {
    var t := TrimSpace(s);
    var signed := t != "" && (t[0] == '-' || t[0] == '+');
    var digits := if signed then t[1..] else t;
    if digits == "" || !AllDigits(digits) then 0
    else
      var v: int := Value(digits);
      if signed && t[0] == '-' then Max(-v, -0x8000_0000_0000_0000) else Min(v, 0x7fff_ffff_ffff_ffff)
  }

  predicate AllDigits(s: string) {
    forall i :: 0 <= i < |s| ==> '0' <= s[i] <= '9'
  }

  function Value(digits: string): nat
    requires AllDigits(digits)
  {
    if digits == "" then 0
    else 10 * Value(digits[..|digits| - 1]) + (digits[|digits| - 1] as int - '0' as int)
  }

  /** A number as it is written, with its sign. */
  function Numeral(n: int): string {
    if n < 0 then "-" + Decimal(-n) else Decimal(n)
  }

  predicate FitsInt64(n: int) {
    -0x8000_0000_0000_0000 <= n <= 0x7fff_ffff_ffff_ffff
  }

  lemma {:induction false} ValueDecimal(n: nat)
    ensures AllDigits(Decimal(n)) && Value(Decimal(n)) == n
  {
    var s := Decimal(n);
    if n < 10 {
      assert s[..0] == "" && Value(s) == 10 * Value(s[..0]) + (s[0] as int - '0' as int);
    } else {
      ValueDecimal(n / 10);
      assert s[..|s| - 1] == Decimal(n / 10) && s[|s| - 1] == Digit(n % 10);
    }
  }

  /** A written number is read back, clamped to 64 bits. */
  lemma {:induction false} AtoiNumeral(n: int)
    ensures AtoiOrZero(Numeral(n)) == Max(-0x8000_0000_0000_0000, Min(n, 0x7fff_ffff_ffff_ffff))
    ensures FitsInt64(n) ==> AtoiOrZero(Numeral(n)) == n
  {
    hide Decimal, Value, TrimSpace;
    if n < 0 {
      AtoiDigits("-", Decimal(-n));
      ValueDecimal(-n);
      assert "-"[0] == '-';
    } else {
      AtoiDigits("", Decimal(n));
      ValueDecimal(n);
      assert "" + Decimal(n) == Decimal(n);
    }
  }

  lemma {:induction false} AtoiDigits(sign: string, digits: string)
    requires sign in ["", "-"] && digits != "" && AllDigits(digits)
    ensures var v: int := Value(digits);
            AtoiOrZero(sign + digits) ==
            if sign == "-" then Max(-v, -0x8000_0000_0000_0000) else Min(v, 0x7fff_ffff_ffff_ffff)
  {
    hide Value, TrimSpace;
    var t := sign + digits;
    assert t[|t| - 1] == digits[|digits| - 1] && t[0] == if sign == "" then digits[0] else '-';
    TrimSolid(t);
    if sign == "-" {
      assert t[1..] == digits;
    } else {
      assert t == digits;
    }
  }

  /** Text that holds anything but digits after its sign is no number. */
  lemma {:induction false} AtoiMalformed(s: string, i: nat)
    requires i < |s| && s == TrimSpace(s) && !('0' <= s[i] <= '9') && (s[i] in "+-" ==> i > 0 || |s| == 1)
    ensures AtoiOrZero(s) == 0
  {
    var signed := s[0] == '-' || s[0] == '+';
    var digits := if signed then s[1..] else s;
    if digits != "" {
      assert i > 0 || !signed;
      assert digits[if signed then i - 1 else i] == s[i];
    }
  }

  function Min(a: int, b: int): int { if a <= b then a else b }

  function Max(a: int, b: int): int { if a <= b then b else a }
}
