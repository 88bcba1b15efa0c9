/** How Terraform reads a template: the "Template Literals" rule of the HCL Native Syntax
    Specification. A sigil (`$` or `%`) before `{` opens a live sequence; doubling the sigil
    escapes it. Also the two escaping printers of the provider, and what reading them gives. */
module Template {
  import opened Text

  /** One character of a template's value. A live sequence is marked on its sigil. */
  datatype Token = Lit(c: char) | Live(c: char)

  predicate Sigil(c: char) {
    c == '$' || c == '%'
  }

  /** The text opens with a sigil and a brace. */
  predicate Opens(t: string) {
    |t| >= 2 && Sigil(t[0]) && t[1] == '{'
  }

  /** The text opens with a doubled sigil and a brace. */
  predicate OpensEscaped(t: string) {
    |t| >= 3 && t[0] == t[1] && Opens(t[1..])
  }

  function Read(t: string): (r: seq<Token>) {
    if t == "" then []
    else if OpensEscaped(t) then [Lit(t[0]), Lit('{')] + Read(t[3..])
    else if Opens(t) then [Live(t[0]), Lit('{')] + Read(t[2..])
    else [Lit(t[0])] + Read(t[1..])
  }

  function Literal(s: string): seq<Token> {
    seq(|s|, i requires 0 <= i < |s| => Lit(s[i]))
  }

  /** The text of a value, live sequences written as they stand. */
  function Flatten(r: seq<Token>): string {
    seq(|r|, i requires 0 <= i < |r| => r[i].c)
  }

  // ----- the printers -----

  /** `${var.` and `${data.` are references Terraform must keep interpolating. */
  predicate Reference(t: string) {
    HasPrefix(t, "${var.") || HasPrefix(t, "${data.")
  }

  /** `All` escapes every template sequence; `Bash` only the shell's own `${`, leaving
      sequences already escaped and references to variables and data sources. */
  datatype Mode = All | Bash

  predicate Doubles(mode: Mode, afterDollar: bool, s: string) {
    Opens(s) && (mode.All? || (s[0] == '$' && !afterDollar && !Reference(s)))
  }

  function Escape(mode: Mode, afterDollar: bool, s: string): (t: string)
    ensures s != "" ==> t != "" && t[0] == s[0]
    ensures s == "" ==> t == ""
    decreases s
  {
    if s == "" then ""
    else (if Doubles(mode, afterDollar, s) then [s[0], s[0]] else [s[0]]) + Escape(mode, s[0] == '$', s[1..])
  }

  lemma {:induction false} EscapeOpening(mode: Mode, afterDollar: bool, s: string)
    requires Opens(s)
    ensures Escape(mode, afterDollar, s) ==
            (if Doubles(mode, afterDollar, s) then [s[0], s[0], '{'] else [s[0], '{']) + Escape(mode, false, s[2..])
  {
    assert s[1..][1..] == s[2..] && s[1..][0] == '{';
    assert Escape(mode, s[0] == '$', s[1..]) == ['{'] + Escape(mode, false, s[2..]);
  }

  lemma {:induction false} EscapeBashOpeningEscaped(afterDollar: bool, s: string)
    requires OpensEscaped(s)
    ensures Escape(Bash, afterDollar, s) == [s[0], s[0], '{'] + Escape(Bash, false, s[3..])
  {
    assert s[1..][2..] == s[3..];
    EscapeOpening(Bash, s[0] == '$', s[1..]);
    assert !Doubles(Bash, s[0] == '$', s[1..]);
    assert Escape(Bash, afterDollar, s) == [s[0]] + Escape(Bash, s[0] == '$', s[1..]);
  }

  /** Go's strings.ReplaceAll for a non-empty pattern. */
  function ReplaceAll(s: string, pattern: string, replacement: string): string
    requires pattern != ""
  {
    if s == "" then ""
    else if HasPrefix(s, pattern) then replacement + ReplaceAll(s[|pattern|..], pattern, replacement)
    else [s[0]] + ReplaceAll(s[1..], pattern, replacement)
  }

  /** escapeBashExpansionsForHeredoc: the index loop over a string builder. */
  method EscapeBashExpansionsForHeredoc(s: string) returns (out: string)
    ensures out == Escape(Bash, false, s)
  {
    out := "";
    var i := 0;
    assert s[0..] == s;
    while i < |s|
      invariant 0 <= i <= |s|
      invariant out + Escape(Bash, i > 0 && s[i - 1] == '$', s[i..]) == Escape(Bash, false, s)
    {
      EscapeStep(out, s, i);
      var written := [s[i]];
      if s[i] == '$' && i + 1 < |s| && s[i + 1] == '{' {
        if i > 0 && s[i - 1] == '$' {
          // already escaped
        } else if HasPrefix(s[i..], "${var.") || HasPrefix(s[i..], "${data.") {
          // a reference
        } else {
          written := "$$";
        }
      }
      out := out + written;
      i := i + 1;
    }
    assert s[|s|..] == "" && out + "" == out;
  }

  lemma {:induction false} EscapeStep(out: string, s: string, i: nat)
    requires i < |s|
    ensures var afterDollar := i > 0 && s[i - 1] == '$';
            var doubled := s[i] == '$' && i + 1 < |s| && s[i + 1] == '{' && !afterDollar && !Reference(s[i..]);
            out + Escape(Bash, afterDollar, s[i..]) ==
            (out + if doubled then "$$" else [s[i]]) + Escape(Bash, s[i] == '$', s[i + 1..])
  {
    assert s[i..][1..] == s[i + 1..];
  }

  // ----- everything escaped: the value is the script, all of it literal -----

  lemma {:induction false} EscapeAllReadsLiteral(afterDollar: bool, s: string)
    ensures Read(Escape(All, afterDollar, s)) == Literal(s)
    decreases s
  {
    if s == "" {
    } else if Opens(s) {
      EscapeOpening(All, afterDollar, s);
      var t := Escape(All, afterDollar, s);
      assert OpensEscaped(t) && t[3..] == Escape(All, false, s[2..]);
      EscapeAllReadsLiteral(false, s[2..]);
      assert Literal(s) == [Lit(s[0]), Lit('{')] + Literal(s[2..]);
    } else {
      var rest := Escape(All, s[0] == '$', s[1..]);
      var t := Escape(All, afterDollar, s);
      assert t == [s[0]] + rest && t[1..] == rest;
      assert s[1..] != "" ==> rest[0] == s[1];
      assert !Opens(t) && !OpensEscaped(t);
      EscapeAllReadsLiteral(s[0] == '$', s[1..]);
      assert Literal(s) == [Lit(s[0])] + Literal(s[1..]);
    }
  }

  /** The flag only matters where bash expansions are told apart. */
  lemma {:induction false} EscapeAllFlag(p: bool, q: bool, s: string)
    ensures Escape(All, p, s) == Escape(All, q, s)
  {
  }

  lemma {:induction false} ReplaceAllHit(pattern: string, rest: string, replacement: string)
    requires pattern != ""
    ensures ReplaceAll(pattern + rest, pattern, replacement) == replacement + ReplaceAll(rest, pattern, replacement)
  {
    assert (pattern + rest)[|pattern|..] == rest;
  }

  lemma {:induction false} ReplaceAllMiss(c: char, rest: string, pattern: string, replacement: string)
    requires |pattern| == 2 && (c != pattern[0] || rest == "" || rest[0] != pattern[1])
    ensures ReplaceAll([c] + rest, pattern, replacement) == [c] + ReplaceAll(rest, pattern, replacement)
  {
    assert ([c] + rest)[1..] == rest;
    assert ([c] + rest)[0] == c && (rest != "" ==> ([c] + rest)[1] == rest[0]);
  }

  /** What indentUserData does to the script before indenting it. */
  function ReplaceBoth(s: string): string {
    ReplaceAll(ReplaceAll(s, "${", "$${"), "%{", "%%{")
  }

  lemma {:induction false} ReplaceBothDollar(rest: string)
    ensures ReplaceBoth("${" + rest) == "$${" + ReplaceBoth(rest)
  {
    var one := ReplaceAll(rest, "${", "$${");
    ReplaceAllHit("${", rest, "$${");
    assert "$${" + one == ['$'] + (['$'] + (['{'] + one));
    ReplaceAllMiss('{', one, "%{", "%%{");
    ReplaceAllMiss('$', ['{'] + one, "%{", "%%{");
    ReplaceAllMiss('$', ['$'] + (['{'] + one), "%{", "%%{");
    assert ['$'] + (['$'] + (['{'] + ReplaceBoth(rest))) == "$${" + ReplaceBoth(rest);
  }

  lemma {:induction false} ReplaceBothPercent(rest: string)
    ensures ReplaceBoth("%{" + rest) == "%%{" + ReplaceBoth(rest)
  {
    var one := ReplaceAll(rest, "${", "$${");
    ReplaceAllMiss('{', rest, "${", "$${");
    ReplaceAllMiss('%', "{" + rest, "${", "$${");
    assert ['%'] + ("{" + rest) == "%{" + rest && ['%'] + ("{" + one) == "%{" + one;
    ReplaceAllHit("%{", one, "%%{");
  }

  lemma {:induction false} ReplaceBothPlain(c: char, rest: string)
    requires !Opens([c] + rest)
    ensures ReplaceBoth([c] + rest) == [c] + ReplaceBoth(rest)
  {
    var one := ReplaceAll(rest, "${", "$${");
    assert rest != "" ==> ([c] + rest)[1] == rest[0];
    ReplaceAllMiss(c, rest, "${", "$${");
    ReplaceAllHead(rest);
    ReplaceAllMiss(c, one, "%{", "%%{");
  }

  /** The two successive replacements of indentUserData do not interfere: together they are
      one left-to-right pass that doubles the sigil of every template sequence. */
  lemma {:induction false} TwoReplacements(s: string)
    ensures ReplaceBoth(s) == Escape(All, false, s)
  {
    if s == "" {
    } else if Opens(s) {
      EscapeOpening(All, false, s);
      TwoReplacements(s[2..]);
      if s[0] == '$' {
        assert s == "${" + s[2..];
        ReplaceBothDollar(s[2..]);
      } else {
        assert s == "%{" + s[2..];
        ReplaceBothPercent(s[2..]);
      }
    } else {
      assert s == [s[0]] + s[1..];
      ReplaceBothPlain(s[0], s[1..]);
      TwoReplacements(s[1..]);
      EscapeAllFlag(s[0] == '$', false, s[1..]);
    }
  }

  lemma {:induction false} ReplaceAllHead(s: string)
    ensures var t := ReplaceAll(s, "${", "$${"); if s == "" then t == "" else t != "" && t[0] == s[0]
  {
  }

  // ----- bash expansions only -----

  /** The shell script already contains an escaped template sequence. */
  predicate HasEscaped(s: string) {
    s != "" && (OpensEscaped(s) || HasEscaped(s[1..]))
  }

  /** Every `${` not preceded by `$` is a reference to a variable or a data source. */
  predicate OnlyReferences(afterDollar: bool, t: string)
    decreases t
  {
    t == "" ||
    ((Opens(t) && t[0] == '$' && !afterDollar ==> Reference(t)) && OnlyReferences(t[0] == '$', t[1..]))
  }

  lemma {:induction false} EscapeKeepsPlainPrefix(afterDollar: bool, s: string, w: string)
    requires HasPrefix(s, w) && forall i :: 0 <= i < |w| ==> !Sigil(w[i])
    ensures HasPrefix(Escape(Bash, afterDollar, s), w)
    decreases w
  {
    if w != "" {
      assert s[0] == w[0] && HasPrefix(s[1..], w[1..]);
      EscapeKeepsPlainPrefix(s[0] == '$', s[1..], w[1..]);
      assert w == [w[0]] + w[1..];
    }
  }

  lemma {:induction false} EscapeKeepsReference(afterDollar: bool, s: string)
    requires Reference(s)
    ensures Reference(Escape(Bash, afterDollar, s))
  {
    if HasPrefix(s, "${var.") {
      KeepsReference(afterDollar, s, "{var.", "${var.");
    } else {
      KeepsReference(afterDollar, s, "{data.", "${data.");
    }
  }

  lemma {:induction false} KeepsReference(afterDollar: bool, s: string, w: string, reference: string)
    requires Reference(s) && HasPrefix(s, reference) && reference == "$" + w
    requires forall i :: 0 <= i < |w| ==> !Sigil(w[i])
    ensures HasPrefix(Escape(Bash, afterDollar, s), reference)
  {
    assert s[0] == reference[0] == '$';
    assert HasPrefix(s[1..], w);
    EscapeKeepsPlainPrefix(true, s[1..], w);
    assert Escape(Bash, afterDollar, s) == "$" + Escape(Bash, true, s[1..]);
  }

  lemma {:induction false} EscapeLeavesOnlyReferences(afterDollar: bool, s: string)
    ensures OnlyReferences(afterDollar, Escape(Bash, afterDollar, s))
    decreases s
  {
    if s != "" {
      var t, rest := Escape(Bash, afterDollar, s), Escape(Bash, s[0] == '$', s[1..]);
      EscapeLeavesOnlyReferences(s[0] == '$', s[1..]);
      if Doubles(Bash, afterDollar, s) {
        assert t == "$$" + rest && t[1..] == "$" + rest && t[1..][1..] == rest;
        assert !Opens(t);
      } else {
        assert t == [s[0]] + rest && t[1..] == rest;
        if Opens(t) {
          assert rest[0] == s[1];
          if Reference(s) {
            EscapeKeepsReference(afterDollar, s);
          }
        }
      }
    }
  }

  lemma {:induction false} OnlyReferencesIsFixed(afterDollar: bool, t: string)
    requires OnlyReferences(afterDollar, t)
    ensures Escape(Bash, afterDollar, t) == t
    decreases t
  {
    if t != "" {
      OnlyReferencesIsFixed(t[0] == '$', t[1..]);
    }
  }

  /** Escaping twice is escaping once, for every script. */
  lemma {:induction false} EscapeBashIdempotent(s: string)
    ensures Escape(Bash, false, Escape(Bash, false, s)) == Escape(Bash, false, s)
  {
    EscapeLeavesOnlyReferences(false, s);
    OnlyReferencesIsFixed(false, Escape(Bash, false, s));
  }

  /** What a script without escaped sequences means after the bash escape: its own characters,
      live exactly at references and at `%{`, which the escape does not handle. */
  function Marked(s: string): seq<Token> {
    seq(|s|, i requires 0 <= i < |s| =>
      if Opens(s[i..]) && (s[i] == '%' || Reference(s[i..])) then Live(s[i]) else Lit(s[i]))
  }

  lemma {:induction false} MarkedStep(s: string, n: nat)
    requires n <= |s|
    ensures Marked(s)[n..] == Marked(s[n..])
  {
    forall i | 0 <= i < |s| - n ensures Marked(s)[n..][i] == Marked(s[n..])[i] {
      assert s[n..][i..] == s[n + i..];
    }
  }

  lemma {:induction false} EscapeBashReads(afterDollar: bool, s: string)
    requires !HasEscaped(s) && !(afterDollar && Opens(s) && s[0] == '$')
    ensures Read(Escape(Bash, afterDollar, s)) == Marked(s)
    decreases s
  {
    if s == "" {
    } else if Opens(s) {
      var rest := Escape(Bash, false, s[2..]);
      EscapeOpening(Bash, afterDollar, s);
      EscapeBashReads(false, s[2..]);
      MarkedStep(s, 2);
      assert s[0..] == s;
      assert Marked(s)[1] == Lit('{');
      assert Marked(s) == [Marked(s)[0], Lit('{')] + Marked(s)[2..];
      var t := Escape(Bash, afterDollar, s);
      if Doubles(Bash, afterDollar, s) {
        assert t == "$${" + rest && t[3..] == rest && OpensEscaped(t);
      } else {
        assert t == [s[0], '{'] + rest && t[2..] == rest && !OpensEscaped(t);
      }
    } else {
      var rest := Escape(Bash, s[0] == '$', s[1..]);
      var t := Escape(Bash, afterDollar, s);
      assert t == [s[0]] + rest && t[1..] == rest;
      UndoubledTail(s);
      assert !OpensEscaped(t) && !Opens(t);
      assert s[1..] != "" && Opens(s[1..]) && s[0] == '$' ==> s[1] != '$';
      EscapeBashReads(s[0] == '$', s[1..]);
      MarkedStep(s, 1);
      assert s[0..] == s;
      assert Marked(s) == [Lit(s[0])] + Marked(s)[1..];
    }
  }

  /** After a lone sigil the escaped rest neither opens nor completes a sequence. */
  lemma {:induction false} UndoubledTail(s: string)
    requires s != "" && !OpensEscaped(s) && !Opens(s)
    ensures var t := [s[0]] + Escape(Bash, s[0] == '$', s[1..]); !OpensEscaped(t) && !Opens(t)
  {
    var rest := Escape(Bash, s[0] == '$', s[1..]);
    if s[1..] != "" {
      assert rest[0] == s[1];
      if Sigil(s[0]) && s[1] == s[0] && s[1..][1..] != "" {
        assert s[1..][1..] == s[2..];
        assert !Opens(s[1..]);
      }
    }
  }

  /** The value is never longer than the script, and shorter when it holds an escaped sequence. */
  lemma {:induction false} EscapeBashReadLength(afterDollar: bool, s: string)
    requires !(afterDollar && Opens(s) && s[0] == '$')
    ensures |Read(Escape(Bash, afterDollar, s))| <= |s|
    ensures HasEscaped(s) ==> |Read(Escape(Bash, afterDollar, s))| < |s|
    decreases s
  {
    var t := Escape(Bash, afterDollar, s);
    if s == "" {
    } else if OpensEscaped(s) {
      EscapeBashOpeningEscaped(afterDollar, s);
      EscapeBashReadLength(false, s[3..]);
      assert t[3..] == Escape(Bash, false, s[3..]);
    } else if Opens(s) {
      EscapeOpening(Bash, afterDollar, s);
      EscapeBashReadLength(false, s[2..]);
      assert HasEscaped(s) <==> HasEscaped(s[1..]);
      assert HasEscaped(s[1..]) <==> HasEscaped(s[1..][1..]);
      assert s[1..][1..] == s[2..];
      assert t[if OpensEscaped(t) then 3 else 2..] == Escape(Bash, false, s[2..]);
    } else {
      assert t[1..] == Escape(Bash, s[0] == '$', s[1..]);
      UndoubledTail(s);
      EscapeBashReadLength(s[0] == '$', s[1..]);
    }
  }

  lemma {:induction false} FlattenMarked(s: string)
    ensures Flatten(Marked(s)) == s
  {
  }

  /** The script comes back, as text, exactly when it holds no escaped sequence of its own. */
  lemma {:induction false} EscapeBashRoundTrip(s: string)
    ensures Flatten(Read(Escape(Bash, false, s))) == s <==> !HasEscaped(s)
    ensures !HasEscaped(s) ==> Read(Escape(Bash, false, s)) == Marked(s)
  {
    EscapeBashReadLength(false, s);
    if !HasEscaped(s) {
      EscapeBashReads(false, s);
      FlattenMarked(s);
    }
  }

  /** A sequence that was escaped already is read as one character fewer. */
  lemma {:induction false} EscapedTextIsLost()
    ensures Flatten(Read(Escape(Bash, false, "$${x}"))) != "$${x}"
  {
    assert OpensEscaped("$${x}");
    EscapeBashRoundTrip("$${x}");
  }
}
