/** The two escapes one after the other: a bootstrap written for interpolation is escaped by
    escapeBashExpansionsForHeredoc, and the DigitalOcean scale-group renderer then prints the
    result with vmHeredoc, which escapes every template sequence again. */
module ScaleGroupScript {
  import opened Wrappers
  import opened Text
  import opened Template
  import opened Heredoc
  import opened VmHeredoc

  /** What the droplet receives when the delimiter has k underscores. */
  function Received(s: string, k: nat): Option<seq<Token>> {
    Evaluate(Expression(Delimiter(k), EscapeLines(All, Split(Normalise(Escape(Bash, false, s))))))
  }

  predicate DelimiterFits(s: string, k: nat) {
    Fewest(k, Split(Normalise(Escape(Bash, false, s))))
  }

  /** Somewhere in the script the bash escape leaves a live sequence. */
  predicate Interpolates(s: string) {
    exists i :: 0 <= i < |s| && Marked(s)[i].Live?
  }

  // ----- line ends do not disturb the bash escape -----

  function UnixEnds(s: string): string {
    ReplaceAll(s, "\r\n", "\n")
  }

  lemma {:induction false} UnixStep(s: string)
    ensures HasPrefix(s, "\r\n") ==> UnixEnds(s) == "\n" + UnixEnds(s[2..])
    ensures s != "" && !HasPrefix(s, "\r\n") ==> UnixEnds(s) == [s[0]] + UnixEnds(s[1..])
  {
  }

  lemma {:induction false} UnixPrefix(s: string, w: string)
    requires '\r' !in w && '\n' !in w
    ensures HasPrefix(UnixEnds(s), w) <==> HasPrefix(s, w)
  {
    if w != "" && s != "" {
      UnixStep(s);
      if HasPrefix(s, "\r\n") {
        assert s[0] == '\r' && UnixEnds(s)[0] == '\n' && w[0] in w;
      } else {
        UnixPrefix(s[1..], w[1..]);
        assert UnixEnds(s)[1..] == UnixEnds(s[1..]);
        PrefixSplit(UnixEnds(s), w);
        PrefixSplit(s, w);
      }
    }
  }

  lemma {:induction false} PrefixSplit(s: string, w: string)
    requires s != "" && w != ""
    ensures HasPrefix(s, w) <==> s[0] == w[0] && HasPrefix(s[1..], w[1..])
  {
    assert s == [s[0]] + s[1..] && w == [w[0]] + w[1..];
  }

  lemma {:induction false} UnixOpens(s: string)
    ensures Opens(UnixEnds(s)) == Opens(s) && Reference(UnixEnds(s)) == Reference(s)
    ensures Opens(s) ==> UnixEnds(s)[0] == s[0]
  {
    UnixPrefix(s, "${");
    UnixPrefix(s, "%{");
    UnixPrefix(s, "${var.");
    UnixPrefix(s, "${data.");
    OpensIsPrefix(s);
    OpensIsPrefix(UnixEnds(s));
  }

  lemma {:induction false} OpensIsPrefix(s: string)
    ensures Opens(s) <==> HasPrefix(s, "${") || HasPrefix(s, "%{")
  {
    if Opens(s) {
      assert s[..2] == [s[0], '{'];
    }
  }

  lemma {:induction false} EscapeUnixEnds(afterDollar: bool, s: string)
    ensures UnixEnds(Escape(Bash, afterDollar, s)) == Escape(Bash, afterDollar, UnixEnds(s))
    ensures OnlyReferences(afterDollar, UnixEnds(s)) <==> OnlyReferences(afterDollar, s)
    decreases s
  {
    hide Escape, OnlyReferences, Reference, ReplaceAll;
    if s == "" {
      EmptyEnds(afterDollar);
    } else if HasPrefix(s, "\r\n") {
      EscapeUnixEnds(false, s[2..]);
      EscapeLineEnd(afterDollar, s);
    } else {
      EscapeUnixEnds(s[0] == '$', s[1..]);
      EscapeOneChar(afterDollar, s);
    }
  }

  lemma {:induction false} EmptyEnds(afterDollar: bool)
    ensures UnixEnds("") == "" && Escape(Bash, afterDollar, "") == "" && OnlyReferences(afterDollar, "")
  {
  }

  lemma {:induction false} EscapeLineEnd(afterDollar: bool, s: string)
    requires HasPrefix(s, "\r\n")
    requires UnixEnds(Escape(Bash, false, s[2..])) == Escape(Bash, false, UnixEnds(s[2..]))
    requires OnlyReferences(false, UnixEnds(s[2..])) <==> OnlyReferences(false, s[2..])
    ensures UnixEnds(Escape(Bash, afterDollar, s)) == Escape(Bash, afterDollar, UnixEnds(s))
    ensures OnlyReferences(afterDollar, UnixEnds(s)) <==> OnlyReferences(afterDollar, s)
  {
    hide ReplaceAll, Reference;
    assert s == "\r\n" + s[2..] && s[1..] == "\n" + s[2..] && s[1..][1..] == s[2..];
    UnixStep(s);
    var e, u := Escape(Bash, false, s[2..]), UnixEnds(s[2..]);
    assert Escape(Bash, afterDollar, s) == "\r\n" + e;
    assert ("\r\n" + e)[2..] == e;
    UnixStep("\r\n" + e);
    assert ("\n" + u)[1..] == u;
  }

  lemma {:induction false} EscapeOneChar(afterDollar: bool, s: string)
    requires s != "" && !HasPrefix(s, "\r\n")
    requires UnixEnds(Escape(Bash, s[0] == '$', s[1..])) == Escape(Bash, s[0] == '$', UnixEnds(s[1..]))
    requires OnlyReferences(s[0] == '$', UnixEnds(s[1..])) <==> OnlyReferences(s[0] == '$', s[1..])
    ensures UnixEnds(Escape(Bash, afterDollar, s)) == Escape(Bash, afterDollar, UnixEnds(s))
    ensures OnlyReferences(afterDollar, UnixEnds(s)) <==> OnlyReferences(afterDollar, s)
  {
    hide ReplaceAll, Reference;
    UnixStep(s);
    UnixOpens(s);
    var u := UnixEnds(s);
    assert u[0] == s[0] && u[1..] == UnixEnds(s[1..]);
    var e := Escape(Bash, s[0] == '$', s[1..]);
    UnixCons(s, s[0], e);
    if Doubles(Bash, afterDollar, s) {
      UnixCons(s, s[0], [s[0]] + e);
      assert [s[0], s[0]] + e == [s[0]] + ([s[0]] + e);
      assert [s[0], s[0]] + UnixEnds(e) == [s[0]] + ([s[0]] + UnixEnds(e));
    }
  }

  /** Putting back a character that opened no line end. */
  lemma {:induction false} UnixCons(s: string, c: char, e: string)
    requires s != "" && !HasPrefix(s, "\r\n") && c == s[0]
    requires e == "" || c != '\r' || (|s| > 1 && e[0] == s[1])
    ensures UnixEnds([c] + e) == [c] + UnixEnds(e)
  {
    var t := [c] + e;
    assert t[1..] == e;
    LineEndStarts(s);
    LineEndStarts(t);
    UnixStep(t);
  }

  lemma {:induction false} LineEndStarts(s: string)
    ensures HasPrefix(s, "\r\n") <==> |s| >= 2 && s[0] == '\r' && s[1] == '\n'
  {
    if |s| >= 2 {
      assert s[..2] == [s[0], s[1]];
    }
  }

  /** The bash escape commutes with normalising, and references are untouched by it. */
  lemma {:induction false} EscapeNormalise(s: string)
    ensures Normalise(Escape(Bash, false, s)) == Escape(Bash, false, Normalise(s))
    ensures OnlyReferences(false, Normalise(s)) <==> OnlyReferences(false, s)
  {
    hide Reference;
    EscapeUnixEnds(false, s);
    var u := UnixEnds(s);
    EscapeLastChar(false, u);
    EscapeAppend(false, u);
  }

  lemma {:induction false} EscapeLastChar(afterDollar: bool, s: string)
    ensures s != "" ==> var e := Escape(Bash, afterDollar, s); e[|e| - 1] == s[|s| - 1]
    decreases s
  {
    if |s| > 1 {
      EscapeLastChar(s[0] == '$', s[1..]);
    }
  }

  /** A final newline is neither escaped nor part of a sequence. */
  lemma {:induction false} EscapeAppend(afterDollar: bool, s: string)
    ensures Escape(Bash, afterDollar, s + "\n") == Escape(Bash, afterDollar, s) + "\n"
    ensures OnlyReferences(afterDollar, s + "\n") <==> OnlyReferences(afterDollar, s)
    decreases s
  {
    hide Reference;
    if s == "" {
      assert "" + "\n" == "\n" && "\n"[1..] == "";
    } else {
      assert (s + "\n")[1..] == s[1..] + "\n";
      EscapeAppend(s[0] == '$', s[1..]);
      AppendReference(s);
    }
  }

  lemma {:induction false} AppendReference(s: string)
    ensures Reference(s + "\n") == Reference(s) && Opens(s + "\n") == Opens(s)
  {
    PrefixAppend(s, "${var.");
    PrefixAppend(s, "${data.");
  }

  lemma {:induction false} PrefixAppend(s: string, w: string)
    requires '\n' !in w
    ensures HasPrefix(s + "\n", w) <==> HasPrefix(s, w)
  {
    assert (s + "\n")[|s|] == '\n' && s + "\n" != w;
    assert |w| <= |s| ==> (s + "\n")[..|w|] == s[..|w|];
  }

  // ----- what the droplet receives -----

  /** The value is always literal, so no reference is ever interpolated. The script arrives as
      written exactly when the bash escape had nothing to escape and the script is not indented
      throughout; it arrives with its references live exactly when there are none besides. */
  lemma {:induction false} DoubleEscapeIff(s: string, k: nat)
    requires DelimiterFits(s, k)
    ensures Received(s, k).Some? && forall i :: 0 <= i < |Received(s, k).value| ==> Received(s, k).value[i].Lit?
    ensures Received(s, k) == Some(Literal(Normalise(s))) <==> OnlyReferences(false, s) && Flush(Split(Normalise(s)))
    ensures Received(s, k) == Some(Marked(Normalise(s))) <==>
            OnlyReferences(false, s) && Flush(Split(Normalise(s))) && !Interpolates(Normalise(s))
  {
    hide Evaluate, Expression, EscapeLines, Normalise, Fewest, Flush, Split, Escape, OnlyReferences;
    var n := Normalise(s);
    VmHeredocRoundTrip(Escape(Bash, false, s), k);
    ReceivedIff(s, k);
    if !Interpolates(n) {
      assert Marked(n) == Literal(n) by { StillLiteral(n); }
    } else {
      var i :| 0 <= i < |n| && Marked(n)[i].Live?;
      assert Received(s, k) != Some(Marked(n));
    }
  }

  lemma {:induction false} StillLiteral(s: string)
    requires !Interpolates(s)
    ensures Marked(s) == Literal(s)
  {
    forall i | 0 <= i < |s| ensures Marked(s)[i] == Literal(s)[i] {
      assert !Marked(s)[i].Live?;
    }
  }

  lemma {:induction false} ReceivedIff(s: string, k: nat)
    requires DelimiterFits(s, k)
    ensures Received(s, k) == Some(Literal(Normalise(s))) <==> OnlyReferences(false, s) && Flush(Split(Normalise(s)))
  {
    hide Escape, Normalise, OnlyReferences, Split, Dedent, Flush;
    EscapeNormalise(s);
    var ls := NormalisedLines(s);
    var es := EscapeLines(Bash, ls);
    EscapedLines(s, ls);
    ReadsEscaped(s, k, ls);
    FlushLast(ls);
    DedentedEscapeIff(ls);
    if Literal(Unlines(Dedent(es))) == Literal(Unlines(ls)) {
      LiteralInjective(Unlines(Dedent(es)), Unlines(ls));
      EscapeKeepsLines(Bash, ls);
      DedentLines(es);
      UnlinesInjective(Dedent(es), ls);
    }
    OnlyLinesIff(s, ls);
  }

  lemma {:induction false} EscapedLines(s: string, ls: seq<string>)
    requires Split(Normalise(s)) == ls + [""]
    ensures Split(Normalise(Escape(Bash, false, s))) == EscapeLines(Bash, ls) + [""]
  {
    hide Escape, Normalise, Split;
    var n := Normalise(s);
    EscapeNormalise(s);
    EscapeSplit(Bash, false, n);
    assert Split(Escape(Bash, false, n)) == EscapeLines(Bash, ls + [""]);
    assert Escape(Bash, false, "") == "";
    assert EscapeLines(Bash, ls + [""]) == EscapeLines(Bash, ls) + [""];
  }

  lemma {:induction false} ReadsEscaped(s: string, k: nat, ls: seq<string>)
    requires DelimiterFits(s, k) && Lines(ls)
    requires Split(Normalise(Escape(Bash, false, s))) == EscapeLines(Bash, ls) + [""]
    ensures Received(s, k) == Some(Literal(Unlines(Dedent(EscapeLines(Bash, ls)))))
  {
    hide Escape, Normalise, Split, Evaluate, Expression, Dedent;
    var es := EscapeLines(Bash, ls);
    EscapeKeepsLines(Bash, ls);
    DelimiterPlain(k);
    TrimSolid(Delimiter(k));
    assert !Collides(Delimiter(k), es) by {
      assert forall i :: 0 <= i < |es| ==> es[i] == (es + [""])[i];
    }
    PrintedReads(Delimiter(k), es);
  }

  lemma {:induction false} TrimLeftSuffix(l: string)
    ensures TrimLeft(l) == l[Indent(l)..] && (Indent(l) > 0 ==> IsSpace(l[0]))
  {
    if l != "" && IsSpace(l[0]) {
      TrimLeftSuffix(l[1..]);
      assert l[1..][Indent(l) - 1..] == l[Indent(l)..];
    }
  }

  lemma {:induction false} TrimLeftSolid(l: string)
    ensures TrimLeft(l) != "" ==> !IsSpace(TrimLeft(l)[0])
  {
    if l != "" && IsSpace(l[0]) {
      TrimLeftSolid(l[1..]);
    }
  }

  /** Stripping the indentation cannot undo an escape: the lines come back exactly when
      neither does anything. */
  lemma {:induction false} DedentedEscapeIff(ls: seq<string>)
    ensures Dedent(EscapeLines(Bash, ls)) == ls <==> EscapeLines(Bash, ls) == ls && Flush(ls)
  {
    EscapeDedent(Bash, ls);
    DedentFixedIff(ls);
    if Dedent(EscapeLines(Bash, ls)) == ls && !AllBlank(ls) {
      var i := CommonIndentReached(ls);
      LineStarts(ls, i);
    }
  }

  lemma {:induction false} LineStarts(ls: seq<string>, i: nat)
    requires !AllBlank(ls) && i < |ls| && !Blank(ls[i]) && Indent(ls[i]) == CommonIndent(ls)
    requires EscapeLines(Bash, Dedent(ls)) == ls
    ensures Indent(ls[i]) == 0
  {
    hide CommonIndent, Indent;
    var d := Dedent(ls)[i];
    TrimLeftSuffix(ls[i]);
    TrimLeftSolid(ls[i]);
    assert d == TrimLeft(ls[i]);
    assert Escape(Bash, false, d) == ls[i];
    assert ls[i][0] == d[0];
  }

  lemma {:induction false} OnlyLinesIff(s: string, ls: seq<string>)
    requires Lines(ls) && Unlines(ls) == Normalise(s)
    ensures EscapeLines(Bash, ls) == ls <==> OnlyReferences(false, s)
  {
    hide Normalise, Escape, OnlyReferences;
    var n := Normalise(s);
    EscapeNormalise(s);
    EscapeUnlines(Bash, ls);
    if Escape(Bash, false, n) == n {
      EscapeLeavesOnlyReferences(false, n);
      EscapeKeepsLines(Bash, ls);
      UnlinesInjective(EscapeLines(Bash, ls), ls);
    }
    if OnlyReferences(false, n) {
      OnlyReferencesIsFixed(false, n);
    }
  }

  // ----- the smallest scripts that show it -----

  /** A bare expansion reaches the droplet with its escape still in it. */
  lemma {:induction false} BareExpansionArrivesEscaped(k: nat)
    requires DelimiterFits("${x}", k)
    ensures Received("${x}", k) != Some(Literal(Normalise("${x}")))
  {
    assert Opens("${x}") && !Reference("${x}") by { assert "${x}"[2] != 'v' && "${x}"[2] != 'd'; }
    assert !OnlyReferences(false, "${x}");
    DoubleEscapeIff("${x}", k);
  }

  /** A reference reaches the droplet as text. */
  lemma {:induction false} ReferenceArrivesAsText(k: nat)
    requires DelimiterFits("${var.x}", k)
    ensures Received("${var.x}", k) != Some(Marked(Normalise("${var.x}")))
  {
    var s := "${var.x}";
    var n := Normalise(s);
    assert n == s + "\n" by { NoReturns(s); }
    assert Interpolates(n) by {
      assert n[0..] == n && HasPrefix(n, "${var.");
      assert Marked(n)[0] == Live('$');
    }
    hide Received, Marked, Interpolates, Normalise, DelimiterFits;
    DoubleEscapeIff(s, k);
  }
}
