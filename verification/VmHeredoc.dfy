/** vmHeredoc: user-derived user_data printed so that it reads back literally. The delimiter
    grows underscores until no line of the script can close the heredoc. */
module VmHeredoc {
  import opened Wrappers
  import opened Text
  import opened Template
  import opened Heredoc

  /** Unix line ends and a final newline. */
  function Normalise(s: string): string {
    var t := ReplaceAll(s, "\r\n", "\n");
    if t != "" && t[|t| - 1] == '\n' then t else t + "\n"
  }

  /** A line without the carriage return before its newline. */
  function Chopped(l: string): string {
    if l != "" && l[|l| - 1] == '\r' then l[..|l| - 1] else l
  }

  /** Normalising goes line by line: each line loses one carriage return at its end, and a last
      line that was not closed is closed. */
  lemma {:induction false} NormaliseByLine(l: string, rest: string)
    requires Line(l)
    ensures Normalise(l + "\n" + rest) == Chopped(l) + "\n" + if rest == "" then "" else Normalise(rest)
    ensures Normalise(l) == l + "\n"
  {
    hide ReplaceAll;
    var t, r := Chopped(l) + "\n", ReplaceAll(rest, "\r\n", "\n");
    ReplaceLine(l, rest);
    ReplaceLast(l);
    NothingReplaced(rest);
    if l != "" {
      assert l[|l| - 1] != '\n';
    }
    if rest == "" {
      assert t + r == t && t + "" == t;
    } else {
      assert r != "" && (t + r)[|t + r| - 1] == r[|r| - 1] && (t + r) + "\n" == t + (r + "\n");
    }
  }

  lemma {:induction false} ReplaceLine(l: string, rest: string)
    requires Line(l)
    ensures ReplaceAll(l + "\n" + rest, "\r\n", "\n") == Chopped(l) + "\n" + ReplaceAll(rest, "\r\n", "\n")
  {
    var s := l + "\n" + rest;
    if l == "" {
      assert s[1..] == rest && s[0] == '\n';
    } else if l == "\r" {
      assert s[..2] == "\r\n" && s[2..] == rest;
    } else {
      assert s[1..] == l[1..] + "\n" + rest && s[0] == l[0] && s[1] == (l[1..] + "\n")[0];
      assert !HasPrefix(s, "\r\n") by {
        assert "\r\n"[1] == '\n' && (|l| > 1 ==> s[1] == l[1] != '\n');
      }
      ReplaceLine(l[1..], rest);
      assert Chopped(l) == [l[0]] + Chopped(l[1..]);
    }
  }

  lemma {:induction false} ReplaceLast(l: string)
    requires Line(l)
    ensures ReplaceAll(l, "\r\n", "\n") == l
  {
    if l != "" {
      assert !HasPrefix(l, "\r\n") by { assert "\r\n"[1] == '\n'; }
      ReplaceLast(l[1..]);
      assert l == [l[0]] + l[1..];
    }
  }

  lemma {:induction false} NothingReplaced(s: string)
    ensures ReplaceAll(s, "\r\n", "\n") == "" <==> s == ""
  {
  }

  function Delimiter(k: nat): string {
    if k == 0 then "PYXUSERDATA" else Delimiter(k - 1) + "_"
  }

  predicate Collides(delim: string, lines: seq<string>) {
    exists i :: 0 <= i < |lines| && TrimSpace(lines[i]) == delim
  }

  /** k underscores are the fewest that avoid every line. */
  predicate Fewest(k: nat, lines: seq<string>) {
    !Collides(Delimiter(k), lines) && forall j :: 0 <= j < k ==> Collides(Delimiter(j), lines)
  }

  function Expression(delim: string, escaped: seq<string>): string {
    "<<-" + delim + "\n" + Join(escaped) + delim + "\n  "
  }

  function Longest(ls: seq<string>): (n: nat)
    ensures forall i :: 0 <= i < |ls| ==> |ls[i]| <= n
  {
    if ls == [] then 0 else Max(|ls[0]|, Longest(ls[1..]))
  }

  method VmHeredoc(s: string) returns (out: string)
    ensures exists k: nat :: Fewest(k, Split(Normalise(s))) &&
              out == Expression(Delimiter(k), EscapeLines(All, Split(Normalise(s))))
  {
    var text := ReplaceAll(s, "\r\n", "\n");
    if !(text != "" && text[|text| - 1] == '\n') {
      text := text + "\n";
    }
    var lines := EscapeEach(Split(text));
    var delim := GrowDelimiter(lines);
    ghost var k: nat :| delim == Delimiter(k) && Fewest(k, lines);
    FewestEscaped(k, Split(text));
    out := Expression(delim, lines);
  }

  method EscapeEach(plain: seq<string>) returns (lines: seq<string>)
    ensures lines == EscapeLines(All, plain)
  {
    lines := plain;
    for i := 0 to |lines|
      invariant |lines| == |plain|
      invariant forall j :: 0 <= j < i ==> lines[j] == Escape(All, false, plain[j])
      invariant forall j :: i <= j < |lines| ==> lines[j] == plain[j]
    {
      TwoReplacements(lines[i]);
      lines := lines[i := ReplaceBoth(lines[i])];
    }
  }

  method GrowDelimiter(lines: seq<string>) returns (delim: string)
    ensures exists k: nat :: delim == Delimiter(k) && Fewest(k, lines)
  {
    hide Collides, Longest;
    delim := "PYXUSERDATA";
    ghost var k: nat := 0;
    while true
      invariant delim == Delimiter(k)
      invariant forall j :: 0 <= j < k ==> Collides(Delimiter(j), lines)
      decreases if |delim| > Longest(lines) then 0 else Longest(lines) + 1 - |delim|
    {
      var collides := Collision(delim, lines);
      if !collides {
        assert Fewest(k, lines);
        break;
      }
      CollisionIsShort(delim, lines);
      assert Collides(Delimiter(k), lines);
      delim := delim + "_";
      k := k + 1;
    }
  }

  method Collision(delim: string, lines: seq<string>) returns (collides: bool)
    ensures collides == Collides(delim, lines)
  {
    collides := false;
    for l := 0 to |lines|
      invariant !collides && forall j :: 0 <= j < l ==> TrimSpace(lines[j]) != delim
    {
      if TrimSpace(lines[l]) == delim {
        return true;
      }
    }
  }

  lemma {:induction false} CollisionIsShort(delim: string, lines: seq<string>)
    requires Collides(delim, lines)
    ensures |delim| <= Longest(lines)
  {
    var l :| 0 <= l < |lines| && TrimSpace(lines[l]) == delim;
    assert |TrimSpace(lines[l])| <= |TrimLeft(lines[l])| <= |lines[l]| <= Longest(lines);
  }

  lemma {:induction false} FewestEscaped(k: nat, ls: seq<string>)
    ensures Fewest(k, EscapeLines(All, ls)) == Fewest(k, ls)
  {
    forall j: nat | j <= k ensures Collides(Delimiter(j), EscapeLines(All, ls)) == Collides(Delimiter(j), ls) {
      CollidesEscaped(j, ls);
    }
  }

  lemma {:induction false} DelimiterPlain(k: nat)
    ensures var d := Delimiter(k); '{' !in d && Line(d) && d != "" && d[0] == 'P' && !IsSpace(d[|d| - 1])
  {
    if k > 0 {
      DelimiterPlain(k - 1);
    }
  }

  lemma {:induction false} CollidesEscaped(k: nat, ls: seq<string>)
    ensures Collides(Delimiter(k), EscapeLines(All, ls)) == Collides(Delimiter(k), ls)
  {
    DelimiterPlain(k);
    var d := Delimiter(k);
    forall i | 0 <= i < |ls| ensures TrimSpace(EscapeLines(All, ls)[i]) == d <==> TrimSpace(ls[i]) == d {
      EscapeMarker(All, ls[i], d);
    }
  }

  lemma {:induction false} NoCollisionNoMarker(marker: string, ls: seq<string>)
    requires !Collides(marker, ls)
    ensures FindMarker(marker, ls) == |ls|
  {
    if ls != [] {
      assert TrimSpace(ls[0]) != marker;
      forall i | 0 <= i < |ls[1..]| ensures TrimSpace(ls[1..][i]) != marker {
        assert ls[1..][i] == ls[i + 1];
      }
      NoCollisionNoMarker(marker, ls[1..]);
    }
  }

  lemma {:induction false} SplitEnd(s: string)
    requires s != "" && s[|s| - 1] == '\n'
    ensures |Split(s)| >= 2 && Split(s)[|Split(s)| - 1] == ""
  {
    if |s| > 1 {
      assert s[1..][|s[1..]| - 1] == '\n';
      SplitEnd(s[1..]);
    } else {
      assert Split(s[1..]) == [""];
    }
  }

  /** What the printed lines evaluate to, whatever they are. */
  lemma {:induction false} PrintedReads(delim: string, ls: seq<string>)
    requires Lines(ls) && Line(delim) && '{' !in delim && TrimSpace(delim) == delim && !Collides(delim, ls)
    ensures Evaluate(Expression(delim, EscapeLines(All, ls + [""]))) == Some(Literal(Unlines(Dedent(ls))))
  {
    var es := EscapeLines(All, ls);
    assert EscapeLines(All, ls + [""]) == es + [""];
    JoinUnlines(es);
    EscapeKeepsLines(All, ls);
    ExpressionText(delim, Unlines(es));
    EvaluatePrinted(delim, es, delim, "  ");
    EscapeBody(All, delim, ls);
    NoCollisionNoMarker(delim, ls);
    assert ls[..|ls|] == ls;
    DedentLines(ls);
    EscapeUnlines(All, Dedent(ls));
    EscapeAllReadsLiteral(false, Unlines(Dedent(ls)));
  }

  lemma {:induction false} ExpressionText(delim: string, body: string)
    ensures "<<-" + delim + "\n" + body + delim + "\n  " == "<<-" + (delim + "\n" + (body + (delim + "\n" + "  ")))
  {
    assert "\n  " == "\n" + "  ";
  }

  /** For every script the expression evaluates, all of it literally; the value is the
      normalised script exactly when stripping the common indentation leaves it alone. */
  lemma {:induction false} VmHeredocRoundTrip(s: string, k: nat)
    requires Fewest(k, Split(Normalise(s)))
    ensures var value := Evaluate(Expression(Delimiter(k), EscapeLines(All, Split(Normalise(s)))));
            && value.Some?
            && (forall i :: 0 <= i < |value.value| ==> value.value[i].Lit?)
            && (value.value == Literal(Normalise(s)) <==> Flush(Split(Normalise(s))))
  {
    var n := Normalise(s);
    var ls := NormalisedLines(s);
    DelimiterPlain(k);
    TrimSolid(Delimiter(k));
    assert !Collides(Delimiter(k), ls) by {
      assert forall i :: 0 <= i < |ls| ==> ls[i] == Split(n)[i];
    }
    PrintedReads(Delimiter(k), ls);
    DedentFixedIff(ls);
    FlushLast(ls);
    if Literal(Unlines(Dedent(ls))) == Literal(n) {
      LiteralInjective(Unlines(Dedent(ls)), n);
      DedentLines(ls);
      UnlinesInjective(Dedent(ls), ls);
    }
  }

  lemma {:induction false} NormalisedLines(s: string) returns (ls: seq<string>)
    ensures Lines(ls) && Split(Normalise(s)) == ls + [""] && Unlines(ls) == Normalise(s)
  {
    var n := Normalise(s);
    var all := Split(n);
    SplitEnd(n);
    SplitGivesLines(n);
    ls := all[..|all| - 1];
    assert all == ls + [""];
    JoinSplit(n);
    JoinUnlines(ls);
  }

  lemma {:induction false} FlushLast(ls: seq<string>)
    ensures Flush(ls + [""]) == Flush(ls)
  {
    var all := ls + [""];
    assert forall i :: 0 <= i < |ls| ==> all[i] == ls[i];
    assert Blank(all[|ls|]);
    if Flush(ls) && !AllBlank(ls) {
      var i :| 0 <= i < |ls| && !Blank(ls[i]) && Indent(ls[i]) == 0;
      assert !Blank(all[i]) && Indent(all[i]) == 0;
    }
    if AllBlank(all) {
      forall i | 0 <= i < |ls| ensures Blank(ls[i]) {
        assert Blank(all[i]);
      }
    }
  }

  /** A script that starts with anything but white space reads back literally: the sealed
      bash bootstraps, which start with `#!`, always do. */
  lemma {:induction false} UnindentedReadsBack(s: string, k: nat)
    requires Fewest(k, Split(Normalise(s)))
    requires s != "" && !IsSpace(s[0])
    ensures Evaluate(Expression(Delimiter(k), EscapeLines(All, Split(Normalise(s))))) == Some(Literal(Normalise(s)))
  {
    var n := Normalise(s);
    assert n[0] == s[0];
    var l := Split(n)[0];
    assert l != "" && l[0] == n[0];
    assert TrimLeft(l) == l;
    assert !Blank(Split(n)[0]) && Indent(Split(n)[0]) == 0;
    VmHeredocRoundTrip(s, k);
  }

  /** The documentation promises that user_data renders literally; a script indented
      throughout loses its common indentation. */
  lemma {:induction false} IndentedScriptLosesItsIndent()
    ensures !Flush(Split(Normalise("  x")))
  {
    NoReturns("  x");
    var n := Normalise("  x");
    assert n == "  x" + "\n" + "";
    SplitLine("  x", "");
    assert Split(n) == ["  x", ""];
    SpacesTrim("  ", "x");
    assert "  " + "x" == "  x" && TrimLeft("x") == "x";
    assert Indent("  x") == 2 && !Blank("  x") && Blank("");
    assert !Blank(Split(n)[0]) && forall i :: 0 <= i < |Split(n)| && !Blank(Split(n)[i]) ==> i == 0;
  }

  lemma {:induction false} NoReturns(s: string)
    requires forall i :: 0 <= i < |s| ==> s[i] != '\r'
    ensures ReplaceAll(s, "\r\n", "\n") == s
  {
    if s != "" {
      assert "\r\n"[0] == '\r';
      NoReturns(s[1..]);
    }
  }
}
