/** Flush heredocs (`<<-`): how Terraform reads one, and the provider's three ways of printing
    a script into one. The reader takes the lines before the first line that is the marker up
    to surrounding white space, strips the indentation common to the non-blank lines, and
    reads the result as a template. */
module Heredoc {
  import opened Wrappers
  import opened Text
  import opened Template

  // ----- lines -----

  function Split(s: string): (ls: seq<string>)
    ensures ls != []
  {
    if s == "" then [""]
    else if s[0] == '\n' then [""] + Split(s[1..])
    else var ls := Split(s[1..]); [[s[0]] + ls[0]] + ls[1..]
  }

  function Join(ls: seq<string>): string {
    if ls == [] then "" else if |ls| == 1 then ls[0] else ls[0] + "\n" + Join(ls[1..])
  }

  function Unlines(ls: seq<string>): string {
    if ls == [] then "" else ls[0] + "\n" + Unlines(ls[1..])
  }

  predicate Line(l: string) {
    forall i :: 0 <= i < |l| ==> l[i] != '\n'
  }

  predicate Lines(ls: seq<string>) {
    forall i :: 0 <= i < |ls| ==> Line(ls[i])
  }

  lemma {:induction false} SplitGivesLines(s: string)
    ensures Lines(Split(s))
  {
    if s != "" {
      SplitGivesLines(s[1..]);
    }
  }

  lemma {:induction false} SplitLine(l: string, rest: string)
    requires Line(l)
    ensures Split(l + "\n" + rest) == [l] + Split(rest)
  {
    var t := l + "\n" + rest;
    if l == "" {
      assert t[1..] == rest;
    } else {
      assert t[1..] == l[1..] + "\n" + rest;
      SplitLine(l[1..], rest);
      assert [l[0]] + l[1..] == l;
    }
  }

  lemma {:induction false} SplitUnlines(ls: seq<string>, rest: string)
    requires Lines(ls)
    ensures Split(Unlines(ls) + rest) == ls + Split(rest)
  {
    if ls == [] {
      assert "" + rest == rest && ls + Split(rest) == Split(rest);
    } else {
      assert Unlines(ls) + rest == ls[0] + "\n" + (Unlines(ls[1..]) + rest);
      SplitUnlines(ls[1..], rest);
      SplitLine(ls[0], Unlines(ls[1..]) + rest);
    }
  }

  lemma {:induction false} JoinSplit(s: string)
    ensures Join(Split(s)) == s
  {
    if s != "" {
      JoinSplit(s[1..]);
    }
  }

  lemma {:induction false} JoinUnlines(ls: seq<string>)
    ensures ls != [] ==> Join(ls) + "\n" == Unlines(ls)
    ensures Join(ls + [""]) == Unlines(ls)
  {
    if |ls| > 1 {
      assert (ls + [""])[1..] == ls[1..] + [""];
      JoinUnlines(ls[1..]);
    } else if |ls| == 1 {
      assert (ls + [""])[1..] == [""] && Unlines(ls[1..]) == "";
    }
  }

  lemma {:induction false} UnlinesSplit(s: string)
    ensures Unlines(Split(s)) == s + "\n"
  {
    JoinSplit(s);
    JoinUnlines(Split(s));
  }

  lemma {:induction false} UnlinesInjective(xs: seq<string>, ys: seq<string>)
    requires Lines(xs) && Lines(ys) && Unlines(xs) == Unlines(ys)
    ensures xs == ys
  {
    SplitUnlines(xs, "");
    SplitUnlines(ys, "");
    assert Unlines(xs) + "" == Unlines(ys) + "";
    assert xs == (xs + [""])[..|xs + [""]| - 1] && ys == (ys + [""])[..|ys + [""]| - 1];
  }

  // ----- the reader -----

  predicate Blank(l: string) {
    TrimLeft(l) == ""
  }

  function Indent(l: string): nat {
    |l| - |TrimLeft(l)|
  }

  predicate AllBlank(ls: seq<string>) {
    forall i :: 0 <= i < |ls| ==> Blank(ls[i])
  }

  /** The least indentation of a non-blank line. */
  function CommonIndent(ls: seq<string>): (n: nat)
    requires !AllBlank(ls)
    ensures forall i :: 0 <= i < |ls| && !Blank(ls[i]) ==> n <= Indent(ls[i])
    decreases |ls|
  {
    var last, init := |ls| - 1, ls[..|ls| - 1];
    assert forall i :: 0 <= i < last ==> ls[i] == init[i];
    if AllBlank(init) then Indent(ls[last])
    else
      var n := CommonIndent(init);
      if Blank(ls[last]) || n <= Indent(ls[last]) then n else Indent(ls[last])
  }

  lemma {:induction false} CommonIndentReached(ls: seq<string>) returns (i: nat)
    requires !AllBlank(ls)
    ensures i < |ls| && !Blank(ls[i]) && Indent(ls[i]) == CommonIndent(ls)
    decreases |ls|
  {
    var last, init := |ls| - 1, ls[..|ls| - 1];
    i := last;
    if !AllBlank(init) && (Blank(ls[last]) || CommonIndent(init) <= Indent(ls[last])) {
      i := CommonIndentReached(init);
    }
  }

  function Dedent(ls: seq<string>): (out: seq<string>)
    ensures |out| == |ls|
  {
    if AllBlank(ls) then ls
    else
      var n := CommonIndent(ls);
      seq(|ls|, i requires 0 <= i < |ls| => if Blank(ls[i]) then ls[i] else ls[i][n..])
  }

  function FindMarker(marker: string, ls: seq<string>): (n: nat)
    ensures n <= |ls|
  {
    if ls == [] || TrimSpace(ls[0]) == marker then 0 else 1 + FindMarker(marker, ls[1..])
  }

  lemma {:induction false} FindMarkerIsFirst(marker: string, ls: seq<string>)
    ensures var n := FindMarker(marker, ls);
            && (forall i :: 0 <= i < n ==> TrimSpace(ls[i]) != marker)
            && (n < |ls| ==> TrimSpace(ls[n]) == marker)
  {
    if ls != [] && TrimSpace(ls[0]) != marker {
      FindMarkerIsFirst(marker, ls[1..]);
      var n := FindMarker(marker, ls);
      forall i | 0 <= i < n ensures TrimSpace(ls[i]) != marker {
        assert i > 0 ==> ls[i] == ls[1..][i - 1];
      }
    }
  }

  /** The lines of the value: those before the marker, without their common indentation. */
  function Body(marker: string, ls: seq<string>): seq<string> {
    Dedent(ls[..FindMarker(marker, ls)])
  }

  /** The value of a heredoc expression; none when it is not one, or never closed. */
  function Evaluate(e: string): Option<seq<Token>> {
    if !HasPrefix(e, "<<-") then None
    else
      var ls := Split(e[3..]);
      if FindMarker(ls[0], ls[1..]) == |ls[1..]| then None
      else Some(Read(Unlines(Body(ls[0], ls[1..]))))
  }

  /** What is written after the closing marker's newline never matters. */
  lemma {:induction false} EvaluatePrinted(marker: string, ls: seq<string>, close: string, rest: string)
    requires Line(marker) && Lines(ls) && Line(close) && TrimSpace(close) == marker
    ensures Evaluate("<<-" + (marker + "\n" + (Unlines(ls) + (close + "\n" + rest)))) ==
            Some(Read(Unlines(Body(marker, ls))))
  {
    var text := marker + "\n" + (Unlines(ls) + (close + "\n" + rest));
    SplitLine(close, rest);
    SplitUnlines(ls, close + "\n" + rest);
    SplitLine(marker, Unlines(ls) + (close + "\n" + rest));
    var after := [close] + Split(rest);
    assert Split(text) == [marker] + (ls + after);
    EvaluateLines(text, marker, ls, after);
  }

  lemma {:induction false} EvaluateLines(text: string, marker: string, ls: seq<string>, after: seq<string>)
    requires Split(text) == [marker] + (ls + after)
    requires after != [] && TrimSpace(after[0]) == marker
    ensures Evaluate("<<-" + text) == Some(Read(Unlines(Body(marker, ls))))
  {
    FindMarkerThrough(marker, ls, after);
    var n := FindMarker(marker, ls);
    assert (ls + after)[..n] == ls[..n];
    assert ("<<-" + text)[3..] == text;
    assert Split(text)[0] == marker && Split(text)[1..] == ls + after;
  }

  lemma {:induction false} FindMarkerThrough(marker: string, ls: seq<string>, after: seq<string>)
    requires after != [] && TrimSpace(after[0]) == marker
    ensures FindMarker(marker, ls + after) == FindMarker(marker, ls)
  {
    if ls != [] {
      assert (ls + after)[1..] == ls[1..] + after;
      FindMarkerThrough(marker, ls[1..], after);
    } else {
      assert ls + after == after;
    }
  }

  /** A block of lines that loses nothing when its common indentation is stripped. */
  predicate Flush(ls: seq<string>) {
    AllBlank(ls) || exists i :: 0 <= i < |ls| && !Blank(ls[i]) && Indent(ls[i]) == 0
  }

  lemma {:induction false} DedentFixedIff(ls: seq<string>)
    ensures Dedent(ls) == ls <==> Flush(ls)
  {
    hide Blank, Indent;
    if !AllBlank(ls) {
      var i := CommonIndentReached(ls);
      if CommonIndent(ls) == 0 {
        DedentNothing(ls);
      } else {
        DedentShortens(ls, i);
      }
    }
  }

  lemma {:induction false} DedentNothing(ls: seq<string>)
    requires !AllBlank(ls) && CommonIndent(ls) == 0
    ensures Dedent(ls) == ls
  {
    hide Blank, Indent, CommonIndent;
  }

  lemma {:induction false} DedentShortens(ls: seq<string>, i: nat)
    requires !AllBlank(ls) && i < |ls| && !Blank(ls[i]) && CommonIndent(ls) > 0
    ensures Dedent(ls)[i] != ls[i]
  {
    hide CommonIndent;
    assert |Dedent(ls)[i]| == |ls[i]| - CommonIndent(ls);
  }

  // ----- escaping works line by line and commutes with reading the block -----

  function EscapeLines(mode: Mode, ls: seq<string>): seq<string> {
    seq(|ls|, i requires 0 <= i < |ls| => Escape(mode, false, ls[i]))
  }

  lemma {:induction false} LinePrefix(w: string, s: string)
    requires Line(w)
    ensures HasPrefix(s, w) <==> HasPrefix(Split(s)[0], w)
  {
    if w != "" && s != "" && s[0] != '\n' {
      LinePrefix(w[1..], s[1..]);
      assert w == [w[0]] + w[1..] && s == [s[0]] + s[1..];
      var l := Split(s)[0];
      assert l == [s[0]] + Split(s[1..])[0];
      assert HasPrefix(s, w) <==> s[0] == w[0] && HasPrefix(s[1..], w[1..]);
      assert HasPrefix(l, w) <==> l[0] == w[0] && HasPrefix(l[1..], w[1..]);
    }
  }

  lemma {:induction false} EscapeSplit(mode: Mode, afterDollar: bool, s: string)
    ensures Split(Escape(mode, afterDollar, s)) ==
            [Escape(mode, afterDollar, Split(s)[0])] + EscapeLines(mode, Split(s)[1..])
    decreases s
  {
    if s != "" {
      var t := Escape(mode, afterDollar, s);
      var rest := Escape(mode, s[0] == '$', s[1..]);
      EscapeSplit(mode, s[0] == '$', s[1..]);
      if s[0] == '\n' {
        assert t == "\n" + rest && t[1..] == rest;
        EscapeNewline(mode, s[1..]);
      } else {
        var l := Split(s)[0];
        assert l[1..] == Split(s[1..])[0];
        LinePrefix("${var.", s);
        LinePrefix("${data.", s);
        assert Opens(s) <==> Opens(l) by { LinePrefix([s[0], '{'], s); }
        assert Doubles(mode, afterDollar, s) == Doubles(mode, afterDollar, l);
        EscapeSplitChar(Doubles(mode, afterDollar, s), s[0], rest);
      }
    }
  }

  lemma {:induction false} EscapeSplitChar(doubled: bool, c: char, rest: string)
    requires c != '\n'
    ensures var t := (if doubled then [c, c] else [c]) + rest;
            Split(t) == [(if doubled then [c, c] else [c]) + Split(rest)[0]] + Split(rest)[1..]
  {
    SplitCons(c, rest);
    if doubled {
      SplitCons(c, [c] + rest);
      assert [c, c] + rest == [c] + ([c] + rest);
      assert [c] + ([c] + Split(rest)[0]) == [c, c] + Split(rest)[0];
    }
  }

  lemma {:induction false} SplitCons(c: char, rest: string)
    requires c != '\n'
    ensures Split([c] + rest) == [[c] + Split(rest)[0]] + Split(rest)[1..]
  {
    assert ([c] + rest)[1..] == rest;
  }

  lemma {:induction false} EscapeNewline(mode: Mode, s: string)
    ensures [Escape(mode, false, Split(s)[0])] + EscapeLines(mode, Split(s)[1..]) == EscapeLines(mode, Split(s))
  {
  }

  lemma {:induction false} EscapeUnlines(mode: Mode, ls: seq<string>)
    requires Lines(ls)
    ensures Unlines(EscapeLines(mode, ls)) == Escape(mode, false, Unlines(ls))
  {
    if ls != [] {
      var t := Escape(mode, false, Unlines(ls));
      EscapeSplit(mode, false, Unlines(ls));
      assert Unlines(ls) + "" == Unlines(ls);
      SplitUnlines(ls, "");
      EscapeNewline(mode, Unlines(ls));
      assert Split(t) == EscapeLines(mode, ls) + [""];
      JoinSplit(t);
      JoinUnlines(EscapeLines(mode, ls));
    }
  }

  lemma {:induction false} EscapeIndent(mode: Mode, l: string)
    ensures TrimLeft(Escape(mode, false, l)) == Escape(mode, false, TrimLeft(l))
    ensures Indent(Escape(mode, false, l)) == Indent(l) && Blank(Escape(mode, false, l)) == Blank(l)
    ensures Blank(l) ==> Escape(mode, false, l) == l
  {
    if l != "" && IsSpace(l[0]) {
      EscapeIndent(mode, l[1..]);
      assert Escape(mode, false, l) == [l[0]] + Escape(mode, false, l[1..]);
    }
  }

  lemma {:induction false} EscapeDrop(mode: Mode, l: string, n: nat)
    requires n <= Indent(l)
    ensures n <= |Escape(mode, false, l)|
    ensures Escape(mode, false, l)[n..] == Escape(mode, false, l[n..])
  {
    EscapeIndent(mode, l);
    if n > 0 {
      EscapeDrop(mode, l[1..], n - 1);
      assert Escape(mode, false, l) == [l[0]] + Escape(mode, false, l[1..]);
      assert l[1..][n - 1..] == l[n..];
    }
  }

  lemma {:induction false} EscapeWithoutBrace(mode: Mode, afterDollar: bool, l: string)
    ensures '{' !in l ==> Escape(mode, afterDollar, l) == l
    ensures '{' in l ==> '{' in Escape(mode, afterDollar, l)
    decreases l
  {
    if l != "" {
      EscapeWithoutBrace(mode, l[0] == '$', l[1..]);
      assert l == [l[0]] + l[1..];
      assert Opens(l) ==> l[1] in l;
    }
  }

  lemma {:induction false} TrimLeftKeeps(s: string, c: char)
    requires c in s && !IsSpace(c)
    ensures c in TrimLeft(s)
  {
    if IsSpace(s[0]) {
      assert s == [s[0]] + s[1..];
      TrimLeftKeeps(s[1..], c);
    }
  }

  lemma {:induction false} TrimRightKeeps(s: string, c: char)
    requires c in s && !IsSpace(c)
    ensures c in TrimRight(s)
  {
    if IsSpace(s[|s| - 1]) {
      assert s == s[..|s| - 1] + [s[|s| - 1]];
      TrimRightKeeps(s[..|s| - 1], c);
    }
  }

  lemma {:induction false} EscapeMarker(mode: Mode, l: string, marker: string)
    requires '{' !in marker
    ensures TrimSpace(Escape(mode, false, l)) == marker <==> TrimSpace(l) == marker
  {
    EscapeWithoutBrace(mode, false, l);
    if '{' in l {
      var t := Escape(mode, false, l);
      TrimLeftKeeps(l, '{');
      TrimRightKeeps(TrimLeft(l), '{');
      TrimLeftKeeps(t, '{');
      TrimRightKeeps(TrimLeft(t), '{');
    }
  }

  lemma {:induction false} EscapeDedent(mode: Mode, ls: seq<string>)
    ensures Dedent(EscapeLines(mode, ls)) == EscapeLines(mode, Dedent(ls))
  {
    var es := EscapeLines(mode, ls);
    forall i | 0 <= i < |ls|
      ensures Indent(es[i]) == Indent(ls[i]) && Blank(es[i]) == Blank(ls[i]) && (Blank(ls[i]) ==> es[i] == ls[i])
    {
      EscapeIndent(mode, ls[i]);
    }
    if !AllBlank(ls) {
      var n := CommonIndent(ls);
      var j := CommonIndentReached(ls);
      assert Indent(es[j]) == n && !Blank(es[j]);
      var k := CommonIndentReached(es);
      assert CommonIndent(es) == n;
      forall i | 0 <= i < |ls| ensures Dedent(es)[i] == EscapeLines(mode, Dedent(ls))[i] {
        if !Blank(ls[i]) {
          EscapeDrop(mode, ls[i], n);
        }
      }
    }
  }

  lemma {:induction false} EscapeFindMarker(mode: Mode, marker: string, ls: seq<string>)
    requires '{' !in marker
    ensures FindMarker(marker, EscapeLines(mode, ls)) == FindMarker(marker, ls)
  {
    if ls != [] {
      EscapeMarker(mode, ls[0], marker);
      assert EscapeLines(mode, ls)[1..] == EscapeLines(mode, ls[1..]);
      EscapeFindMarker(mode, marker, ls[1..]);
    }
  }

  /** Reading an escaped block is escaping what the unescaped block reads as. */
  lemma {:induction false} EscapeBody(mode: Mode, marker: string, ls: seq<string>)
    requires '{' !in marker
    ensures Body(marker, EscapeLines(mode, ls)) == EscapeLines(mode, Body(marker, ls))
  {
    EscapeFindMarker(mode, marker, ls);
    var n := FindMarker(marker, ls);
    assert EscapeLines(mode, ls)[..n] == EscapeLines(mode, ls[..n]);
    EscapeDedent(mode, ls[..n]);
  }

  lemma {:induction false} DedentLines(ls: seq<string>)
    requires Lines(ls)
    ensures Lines(Dedent(ls))
  {
  }

  // ----- indentUserData and indentPreserveVars -----

  const USERDATA := "USERDATA"

  function IndentLine(l: string): string {
    if l == "" then "" else "      " + l
  }

  function IndentLines(ls: seq<string>): seq<string> {
    seq(|ls|, i requires 0 <= i < |ls| => IndentLine(ls[i]))
  }

  method IndentPreserveVars(s: string) returns (out: string)
    ensures out == Join(IndentLines(Split(s)))
  {
    var lines := Split(s);
    var i := 0;
    while i < |lines|
      invariant 0 <= i <= |lines| == |Split(s)|
      invariant forall j :: 0 <= j < i ==> lines[j] == IndentLine(Split(s)[j])
      invariant forall j :: i <= j < |lines| ==> lines[j] == Split(s)[j]
    {
      if lines[i] != "" {
        lines := lines[i := "      " + lines[i]];
      }
      i := i + 1;
    }
    assert lines == IndentLines(Split(s));
    out := Join(lines);
  }

  method IndentUserData(s: string) returns (out: string)
    ensures out == Join(IndentLines(EscapeLines(All, Split(s))))
  {
    var escaped := ReplaceAll(s, "${", "$${");
    escaped := ReplaceAll(escaped, "%{", "%%{");
    TwoReplacements(s);
    EscapeSplit(All, false, s);
    EscapeNewline(All, s);
    out := IndentPreserveVars(escaped);
  }

  /** The droplet template's user_data expression around an indented body. */
  function DropletHeredoc(body: string): string {
    "<<-USERDATA\n" + body + "\n    USERDATA\n"
  }

  /** Scripts a droplet heredoc keeps: no line that is the marker up to white space, no line
      of white space only, and text in column 0 unless every line is empty. */
  predicate Layout(ls: seq<string>) {
    && (forall i :: 0 <= i < |ls| ==> TrimSpace(ls[i]) != USERDATA)
    && (forall i :: 0 <= i < |ls| ==> Blank(ls[i]) ==> ls[i] == "")
    && Flush(ls)
  }

  predicate Spaces(w: string) {
    forall i :: 0 <= i < |w| ==> w[i] == ' '
  }

  lemma {:induction false} SpacesTrim(w: string, l: string)
    requires Spaces(w)
    ensures TrimLeft(w + l) == TrimLeft(l)
  {
    if w != "" {
      assert (w + l)[1..] == w[1..] + l;
      SpacesTrim(w[1..], l);
    } else {
      assert w + l == l;
    }
  }

  lemma {:induction false} SpacesEscape(mode: Mode, w: string, l: string)
    requires Spaces(w)
    ensures Escape(mode, false, w + l) == w + Escape(mode, false, l)
  {
    if w != "" {
      assert (w + l)[1..] == w[1..] + l && (w + l)[0] == ' ';
      SpacesEscape(mode, w[1..], l);
    } else {
      assert w + l == l;
    }
  }

  lemma {:induction false} IndentLineFacts(l: string)
    ensures TrimLeft(IndentLine(l)) == TrimLeft(l) && TrimSpace(IndentLine(l)) == TrimSpace(l)
    ensures Blank(IndentLine(l)) == Blank(l)
    ensures !Blank(l) ==> Indent(IndentLine(l)) == Indent(l) + 6 && IndentLine(l)[6..] == l
  {
    var w := "      ";
    SpacesTrim(w, l);
    assert |w| == 6 && (w + l)[6..] == l;
  }

  /** What comes back from an indented block, line by line. */
  lemma {:induction false} IndentDedent(ls: seq<string>)
    ensures forall i :: 0 <= i < |ls| ==>
              |Dedent(IndentLines(ls))[i]| == (if Blank(ls[i]) then |IndentLine(ls[i])| else |ls[i]| - CommonIndent(ls))
    ensures forall i :: 0 <= i < |ls| ==>
              Dedent(IndentLines(ls))[i] == (if Blank(ls[i]) then IndentLine(ls[i]) else ls[i][CommonIndent(ls)..])
  {
    var xs := IndentLines(ls);
    forall j | 0 <= j < |ls|
      ensures Blank(xs[j]) == Blank(ls[j]) && (!Blank(ls[j]) ==> Indent(xs[j]) == Indent(ls[j]) + 6 && xs[j][6..] == ls[j])
    {
      IndentLineFacts(ls[j]);
    }
    if !AllBlank(ls) {
      var n := CommonIndent(ls);
      var j := CommonIndentReached(ls);
      assert !Blank(xs[j]) && Indent(xs[j]) == n + 6;
      var k := CommonIndentReached(xs);
      assert CommonIndent(xs) == n + 6;
      forall i | 0 <= i < |ls| && !Blank(ls[i]) ensures Dedent(xs)[i] == ls[i][n..] {
        assert xs[i][n + 6..] == xs[i][6..][n..];
      }
    }
  }

  /** The indented block reads back as the script's lines exactly for a kept layout. */
  lemma {:induction false} IndentBodyIff(ls: seq<string>)
    ensures Body(USERDATA, IndentLines(ls)) == ls <==> Layout(ls)
  {
    var xs := IndentLines(ls);
    var n := FindMarker(USERDATA, xs);
    FindMarkerIsFirst(USERDATA, xs);
    forall i | 0 <= i < |ls| ensures TrimSpace(xs[i]) == TrimSpace(ls[i]) {
      IndentLineFacts(ls[i]);
    }
    if n == |ls| {
      assert xs[..n] == xs;
      forall i | 0 <= i < |ls| ensures TrimSpace(ls[i]) != USERDATA {
        assert TrimSpace(xs[i]) != USERDATA;
      }
      IndentDedentIff(ls);
    } else {
      assert |Body(USERDATA, xs)| == n;
      assert TrimSpace(xs[n]) == USERDATA;
    }
  }

  lemma {:induction false} IndentDedentIff(ls: seq<string>)
    ensures Dedent(IndentLines(ls)) == ls <==>
            (forall i :: 0 <= i < |ls| ==> Blank(ls[i]) ==> ls[i] == "") && Flush(ls)
  {
    var ds := Dedent(IndentLines(ls));
    IndentDedent(ls);
    if !AllBlank(ls) {
      var j := CommonIndentReached(ls);
      assert ds == ls ==> |ds[j]| == |ls[j]|;
    }
    if ds == ls {
      forall i | 0 <= i < |ls| && Blank(ls[i]) ensures ls[i] == "" {
        assert ds[i] == ls[i];
      }
    }
  }

  /** indentUserData: for every script, the droplet receives the script itself, all of it
      literal, exactly when its layout survives the heredoc. */
  lemma {:induction false} IndentUserDataRoundTrip(s: string)
    ensures Evaluate(DropletHeredoc(Join(IndentLines(EscapeLines(All, Split(s)))))) == Some(Literal(s + "\n"))
            <==> Layout(Split(s))
  {
    var ls := Split(s);
    SplitGivesLines(s);
    DropletReads(All, ls);
    var got := Body(USERDATA, IndentLines(ls));
    EscapeAllReadsLiteral(false, Unlines(got));
    IndentBodyIff(ls);
    UnlinesSplit(s);
    if Literal(Unlines(got)) == Literal(s + "\n") {
      LiteralInjective(Unlines(got), s + "\n");
      BodyLines(ls);
      UnlinesInjective(got, ls);
    }
  }

  /** A droplet script indented throughout comes back without its indentation. */
  lemma {:induction false} IndentedDropletChanges()
    ensures Evaluate(DropletHeredoc(Join(IndentLines(EscapeLines(All, Split("  x")))))) != Some(Literal("  x" + "\n"))
  {
    assert Split("  x") == ["  x"] by { SplitOneLine("  x"); }
    assert TrimLeft("x") == "x" && TrimLeft(" x") == "x" by { assert "  x"[1..] == " x" && " x"[1..] == "x"; }
    assert TrimLeft("  x") == "x" by { assert "  x"[1..] == " x"; }
    assert !Blank(["  x"][0]) && Indent("  x") == 2;
    assert !Flush(["  x"]);
    IndentUserDataRoundTrip("  x");
  }

  lemma {:induction false} SplitOneLine(l: string)
    requires Line(l)
    ensures Split(l) == [l]
  {
    if l != "" {
      SplitOneLine(l[1..]);
      assert [l[0]] + l[1..] == l;
    }
  }

  lemma {:induction false} LiteralInjective(s: string, t: string)
    requires Literal(s) == Literal(t)
    ensures s == t
  {
    assert |Literal(s)| == |s| && |Literal(t)| == |t|;
    forall i | 0 <= i < |s| ensures s[i] == t[i] {
      assert Literal(s)[i] == Lit(s[i]) && Literal(t)[i] == Lit(t[i]);
    }
  }

  lemma {:induction false} BodyLines(ls: seq<string>)
    requires Lines(ls)
    ensures Lines(IndentLines(ls)) && Lines(Body(USERDATA, IndentLines(ls)))
  {
    var xs := IndentLines(ls);
    DedentLines(xs[..FindMarker(USERDATA, xs)]);
  }

  lemma {:induction false} EscapeKeepsLines(mode: Mode, ls: seq<string>)
    requires Lines(ls)
    ensures Lines(EscapeLines(mode, ls))
  {
    forall i | 0 <= i < |ls| ensures Line(Escape(mode, false, ls[i])) {
      EscapeKeepsLine(mode, false, ls[i]);
    }
  }

  lemma {:induction false} EscapeKeepsLine(mode: Mode, afterDollar: bool, l: string)
    requires Line(l)
    ensures Line(Escape(mode, afterDollar, l))
    decreases l
  {
    if l != "" {
      EscapeKeepsLine(mode, l[0] == '$', l[1..]);
    }
  }

  lemma {:induction false} IndentEscape(mode: Mode, ls: seq<string>)
    ensures IndentLines(EscapeLines(mode, ls)) == EscapeLines(mode, IndentLines(ls))
  {
    forall i | 0 <= i < |ls|
      ensures IndentLine(Escape(mode, false, ls[i])) == Escape(mode, false, IndentLine(ls[i]))
    {
      SpacesEscape(mode, "      ", ls[i]);
    }
  }

  /** What a droplet heredoc of an escaped script evaluates to. */
  lemma {:induction false} DropletReads(mode: Mode, ls: seq<string>)
    requires Lines(ls) && ls != []
    ensures Evaluate(DropletHeredoc(Join(IndentLines(EscapeLines(mode, ls))))) ==
            Some(Read(Escape(mode, false, Unlines(Body(USERDATA, IndentLines(ls))))))
  {
    var xs := IndentLines(ls);
    var es := EscapeLines(mode, xs);
    IndentEscape(mode, ls);
    BodyLines(ls);
    EscapeKeepsLines(mode, xs);
    JoinUnlines(es);
    DropletText(Join(es));
    MarkerPlain();
    MarkerCloses();
    EvaluatePrinted(USERDATA, es, CLOSE, "");
    EscapeBody(mode, USERDATA, xs);
    EscapeUnlines(mode, Body(USERDATA, xs));
  }

  const CLOSE := "    USERDATA"

  lemma {:induction false} DropletText(body: string)
    ensures DropletHeredoc(body) == "<<-" + (USERDATA + "\n" + ((body + "\n") + (CLOSE + "\n" + "")))
  {
    assert "<<-USERDATA\n" == "<<-" + (USERDATA + "\n");
    assert "\n    USERDATA\n" == "\n" + (CLOSE + "\n" + "");
  }

  lemma {:induction false} MarkerPlain()
    ensures Line(USERDATA) && Line(CLOSE) && '{' !in USERDATA
  {
  }

  lemma {:induction false} MarkerCloses()
    ensures TrimSpace(CLOSE) == USERDATA
  {
    assert CLOSE == "    " + USERDATA;
    SpacesTrim("    ", USERDATA);
    TrimSolid(USERDATA);
  }

  // ----- escapeBashExpansionsForHeredoc followed by indentPreserveVars -----

  /** What a script reads as, as text, after the bash escape. */
  function Recovered(s: string): string {
    Flatten(Read(Escape(Bash, false, s)))
  }

  function RecoveredLines(ls: seq<string>): seq<string> {
    seq(|ls|, i requires 0 <= i < |ls| => Recovered(ls[i]))
  }

  lemma {:induction false} ReadLine(l: string, rest: string)
    ensures Read(l + "\n" + rest) == Read(l) + [Lit('\n')] + Read(rest)
    decreases |l|
  {
    var t := l + "\n" + rest;
    if l == "" {
      assert t == ['\n'] + rest && t[1..] == rest;
      assert Read(t) == [Lit('\n')] + Read(rest);
    } else {
      assert t[0] == l[0] && (|l| > 1 ==> t[1] == l[1]) && (|l| > 2 ==> t[2] == l[2]);
      assert Opens(t) <==> Opens(l);
      assert |l| > 1 ==> (Opens(t[1..]) <==> Opens(l[1..]));
      var n := if OpensEscaped(l) then 3 else if Opens(l) then 2 else 1;
      assert t[n..] == l[n..] + "\n" + rest;
      ReadLine(l[n..], rest);
    }
  }

  lemma {:induction false} RecoveredUnlines(ls: seq<string>)
    requires Lines(ls)
    ensures Recovered(Unlines(ls)) == Unlines(RecoveredLines(ls))
  {
    if ls != [] {
      var rest := Unlines(ls[1..]);
      RecoveredUnlines(ls[1..]);
      EscapeUnlines(Bash, ls);
      EscapeUnlines(Bash, ls[1..]);
      assert EscapeLines(Bash, ls)[1..] == EscapeLines(Bash, ls[1..]);
      ReadLine(Escape(Bash, false, ls[0]), Escape(Bash, false, rest));
      assert RecoveredLines(ls)[1..] == RecoveredLines(ls[1..]);
      var a, b := Read(Escape(Bash, false, ls[0])), Read(Escape(Bash, false, rest));
      assert Flatten(a + [Lit('\n')] + b) == Flatten(a) + "\n" + Flatten(b);
    }
  }

  /** Reading keeps a subset of the characters. */
  lemma {:induction false} ReadKeepsLine(t: string)
    requires Line(t)
    ensures forall i :: 0 <= i < |Read(t)| ==> Read(t)[i].c != '\n'
    decreases |t|
  {
    if t != "" {
      ReadKeepsLine(t[if OpensEscaped(t) then 3 else if Opens(t) then 2 else 1..]);
    }
  }

  lemma {:induction false} RecoveredKeepsLines(ls: seq<string>)
    requires Lines(ls)
    ensures Lines(RecoveredLines(ls))
  {
    EscapeKeepsLines(Bash, ls);
    forall i | 0 <= i < |ls| ensures Line(RecoveredLines(ls)[i]) {
      assert Line(EscapeLines(Bash, ls)[i]);
      ReadKeepsLine(Escape(Bash, false, ls[i]));
    }
  }

  /** Unescaping can only shorten and leftover indentation only lengthen a line, and no line
      does both: each line must survive both steps on its own. */
  lemma {:induction false} RecoveredBodyIff(ls: seq<string>)
    ensures RecoveredLines(Dedent(IndentLines(ls))) == ls <==>
            Dedent(IndentLines(ls)) == ls && RecoveredLines(ls) == ls
  {
    var ds := Dedent(IndentLines(ls));
    IndentDedent(ls);
    if RecoveredLines(ds) == ls {
      forall i | 0 <= i < |ls| ensures ds[i] == ls[i] {
        assert Recovered(ds[i]) == ls[i];
        EscapeBashReadLength(false, ds[i]);
        if Blank(ls[i]) {
          IndentLineFacts(ls[i]);
          EscapeIndent(Bash, ds[i]);
          BlankReads(ds[i]);
        } else {
          assert |ds[i]| >= |ls[i]|;
        }
      }
    }
  }

  lemma {:induction false} BlankReads(l: string)
    requires Blank(l)
    ensures Recovered(l) == l
  {
    hide Escape, Read;
    EscapeIndent(Bash, l);
    SpaceReads(l);
  }

  lemma {:induction false} SpaceReads(l: string)
    requires Blank(l)
    ensures Flatten(Read(l)) == l
  {
    if l != "" {
      SpaceReads(l[1..]);
      assert Read(l) == [Lit(l[0])] + Read(l[1..]);
      assert Flatten(Read(l)) == [l[0]] + Flatten(Read(l[1..]));
      assert l == [l[0]] + l[1..];
    }
  }

  /** The user_data of a droplet whose bootstrap keeps its references: for every script, the
      text comes back unchanged exactly when its layout survives the heredoc and it holds no
      escaped sequence of its own; then the live sequences are the references (and `%{`). */
  lemma {:induction false} DropletScriptRoundTrip(s: string)
    ensures var value := Evaluate(DropletHeredoc(Join(IndentLines(Split(Escape(Bash, false, s))))));
            && value.Some?
            && (Flatten(value.value) == s + "\n" <==> Layout(Split(s)) && !HasEscaped(s))
            && (Layout(Split(s)) && !HasEscaped(s) ==> value.value == Marked(s + "\n"))
  {
    var ls := Split(s);
    SplitGivesLines(s);
    EscapeSplit(Bash, false, s);
    EscapeNewline(Bash, s);
    DropletReads(Bash, ls);
    var got := Body(USERDATA, IndentLines(ls));
    BodyLines(ls);
    RecoveredUnlines(got);
    RecoveredKeepsLines(got);
    UnlinesSplit(s);
    RecoveredNewline(s);
    IndentBodyIff(ls);
    if Recovered(Unlines(got)) == s + "\n" {
      UnlinesInjective(RecoveredLines(got), ls);
      MarkerCut(ls);
      RecoveredBodyIff(ls);
      RecoveredUnlines(ls);
    }
  }

  /** A block cut short by a marker line cannot have all the lines. */
  lemma {:induction false} MarkerCut(ls: seq<string>)
    requires |Body(USERDATA, IndentLines(ls))| == |ls|
    ensures Body(USERDATA, IndentLines(ls)) == Dedent(IndentLines(ls))
  {
    var xs := IndentLines(ls);
    assert xs[..|ls|] == xs;
  }

  lemma {:induction false} RecoveredNewline(s: string)
    ensures Recovered(s + "\n") == s + "\n" <==> !HasEscaped(s)
    ensures !HasEscaped(s) ==> Read(Escape(Bash, false, s + "\n")) == Marked(s + "\n")
  {
    EscapeBashRoundTrip(s + "\n");
    HasEscapedNewline(s);
  }

  lemma {:induction false} HasEscapedNewline(s: string)
    ensures HasEscaped(s + "\n") == HasEscaped(s)
  {
    var t := s + "\n";
    if s == "" {
      assert t[1..] == "";
    } else {
      assert t[1..] == s[1..] + "\n";
      HasEscapedNewline(s[1..]);
      assert |s| > 2 ==> t[2] == s[2];
      assert OpensEscaped(t) == OpensEscaped(s);
    }
  }
}
