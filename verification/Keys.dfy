/** The string keys of the catalog's indexes: lower-cased parts joined by a bar. */
module Keys {
  import opened Text

  predicate BarFree(s: string) {
    forall i :: 0 <= i < |s| ==> s[i] != '|'
  }

  function Joined(parts: seq<string>): string {
    if parts == [] then "" else if |parts| == 1 then Lower(parts[0]) else Lower(parts[0]) + "|" + Joined(parts[1..])
  }

  function VmRegionArchKey(csp: string, cspRegion: string, arch: string): string {
    Joined([csp, cspRegion, arch])
  }

  function MdbRegionEngineKey(csp: string, cspRegion: string, engine: string): string {
    Joined([csp, cspRegion, engine])
  }

  function OsKey(csp: string, cspRegion: string, os: string, version: string, arch: string): string {
    Joined([csp, cspRegion, os, version, arch])
  }

  /** The region key keeps the case of its provider token. */
  function RegionKey(csp: string, regionName: string): string {
    csp + "|" + Lower(TrimSpace(regionName))
  }

  /** All parts but the last hold no bar. */
  predicate Splittable(parts: seq<string>) {
    forall i :: 0 <= i < |parts| - 1 ==> BarFree(parts[i])
  }

  lemma {:induction false} LowerBarFree(s: string)
    requires BarFree(s)
    ensures BarFree(Lower(s))
  {
  }

  /** The position of the first bar. */
  function FirstBarAt(s: string): nat {
    if s == "" || s[0] == '|' then 0 else 1 + FirstBarAt(s[1..])
  }

  lemma {:induction false} FirstBarAfter(a: string, x: string)
    requires BarFree(a)
    ensures FirstBarAt(a + "|" + x) == |a|
  {
    if a != "" {
      assert (a + "|" + x)[1..] == a[1..] + "|" + x;
      FirstBarAfter(a[1..], x);
    }
  }

  /** A bar-free prefix is recovered from the text it is joined into. */
  lemma {:induction false} FirstBar(a: string, b: string, x: string, y: string)
    requires BarFree(a) && BarFree(b)
    requires a + "|" + x == b + "|" + y
    ensures a == b && x == y
  {
    var s, t := a + "|" + x, b + "|" + y;
    FirstBarAfter(a, x);
    FirstBarAfter(b, y);
    assert a == s[..|a|] && b == t[..|b|] && x == s[|a| + 1..] && y == t[|b| + 1..];
  }

  /** Keys agree exactly when their parts agree up to case. */
  lemma {:induction false} JoinedInjective(xs: seq<string>, ys: seq<string>)
    requires |xs| == |ys| && Splittable(xs) && Splittable(ys)
    ensures Joined(xs) == Joined(ys) <==> forall i :: 0 <= i < |xs| ==> EqualFold(xs[i], ys[i])
  {
    if |xs| > 1 {
      assert Splittable(xs[1..]) by { assert forall i :: 0 <= i < |xs[1..]| ==> xs[1..][i] == xs[i + 1]; }
      assert Splittable(ys[1..]) by { assert forall i :: 0 <= i < |ys[1..]| ==> ys[1..][i] == ys[i + 1]; }
      JoinedInjective(xs[1..], ys[1..]);
      LowerBarFree(xs[0]);
      LowerBarFree(ys[0]);
      if Joined(xs) == Joined(ys) {
        FirstBar(Lower(xs[0]), Lower(ys[0]), Joined(xs[1..]), Joined(ys[1..]));
        forall i | 0 <= i < |xs| ensures EqualFold(xs[i], ys[i]) {
          if i > 0 {
            assert EqualFold(xs[1..][i - 1], ys[1..][i - 1]);
          }
        }
      }
      if forall i :: 0 <= i < |xs| ==> EqualFold(xs[i], ys[i]) {
        assert forall i :: 0 <= i < |xs[1..]| ==> EqualFold(xs[1..][i], ys[1..][i]);
        assert EqualFold(xs[0], ys[0]);
      }
    }
  }

  lemma {:induction false} RegionKeyInjective(csp: string, name: string, csp': string, name': string)
    requires BarFree(csp) && BarFree(csp')
    ensures RegionKey(csp, name) == RegionKey(csp', name') <==>
            csp == csp' && EqualFold(TrimSpace(name), TrimSpace(name'))
  {
    if RegionKey(csp, name) == RegionKey(csp', name') {
      FirstBar(csp, csp', Lower(TrimSpace(name)), Lower(TrimSpace(name')));
    }
  }

  /** Two different rows that share a key. */
  lemma {:induction false} BarsCollide()
    ensures VmRegionArchKey("a|b", "c", "d") == VmRegionArchKey("a", "b|c", "d")
  {
    assert ["a|b", "c", "d"][1..] == ["c", "d"] && ["c", "d"][1..] == ["d"];
    assert ["a", "b|c", "d"][1..] == ["b|c", "d"] && ["b|c", "d"][1..] == ["d"];
    assert Lower("a|b") == "a|b" && Lower("a") == "a" && Lower("b|c") == "b|c" && Lower("c") == "c";
    assert "a|b" + "|" + ("c" + "|" + Lower("d")) == "a" + "|" + ("b|c" + "|" + Lower("d"));
  }

  // ----- which keys are ambiguous -----

  predicate Alike(xs: seq<string>, ys: seq<string>)
    requires |xs| == |ys|
  {
    forall i :: 0 <= i < |xs| ==> EqualFold(xs[i], ys[i])
  }

  /** How many bars a text holds. */
  function Bars(s: string): nat {
    if s == "" then 0 else (if s[0] == '|' then 1 else 0) + Bars(s[1..])
  }

  lemma {:induction false} BarsConcat(s: string, t: string)
    ensures Bars(s + t) == Bars(s) + Bars(t)
  {
    if s == "" {
      assert s + t == t;
    } else {
      assert (s + t)[1..] == s[1..] + t;
      BarsConcat(s[1..], t);
    }
  }

  lemma {:induction false} BarsLower(s: string)
    ensures Bars(Lower(s)) == Bars(s) && (Bars(s) == 0 <==> BarFree(s))
  {
    if s != "" {
      assert Lower(s)[1..] == Lower(s[1..]);
      BarsLower(s[1..]);
      assert BarFree(s) <==> s[0] != '|' && BarFree(s[1..]) by {
        assert forall i :: 0 < i < |s| ==> s[i] == s[1..][i - 1];
      }
    }
  }

  /** A key holds one bar between parts, and no other exactly when the parts are bar-free. */
  lemma {:induction false} JoinedBars(xs: seq<string>)
    requires xs != []
    ensures Bars(Joined(xs)) >= |xs| - 1
    ensures Bars(Joined(xs)) == |xs| - 1 <==> forall x :: x in xs ==> BarFree(x)
  {
    BarsLower(xs[0]);
    if |xs| > 1 {
      JoinedBars(xs[1..]);
      BarsConcat(Lower(xs[0]), "|" + Joined(xs[1..]));
      BarsConcat("|", Joined(xs[1..]));
      assert "|"[1..] == "" && Lower(xs[0]) + "|" + Joined(xs[1..]) == Lower(xs[0]) + ("|" + Joined(xs[1..]));
      assert xs == [xs[0]] + xs[1..];
    }
  }

  /** The text up to the first bar, and after it. */
  lemma {:induction false} CutAtBar(s: string) returns (before: string, after: string)
    requires !BarFree(s)
    ensures s == before + "|" + after
  {
    var i :| 0 <= i < |s| && s[i] == '|';
    before, after := s[..i], s[i + 1..];
  }

  /** A bar can be moved between neighbours: x|y, z and x, y|z make one key. */
  lemma {:induction false} BarMoves(xs: seq<string>, i: nat, x: string, y: string, z: string)
    requires i + 1 < |xs|
    ensures Joined(xs[i := x + "|" + y][i + 1 := z]) == Joined(xs[i := x][i + 1 := y + "|" + z])
  {
    var ls, rs := xs[i := x + "|" + y][i + 1 := z], xs[i := x][i + 1 := y + "|" + z];
    if i > 0 {
      assert ls[1..] == xs[1..][i - 1 := x + "|" + y][i := z] && rs[1..] == xs[1..][i - 1 := x][i := y + "|" + z];
      BarMoves(xs[1..], i - 1, x, y, z);
    } else {
      LowerPair(x, y);
      LowerPair(y, z);
      if |xs| == 2 {
        assert ls[1..] == [z] && rs[1..] == [y + "|" + z];
        JoinAssociates(Lower(x), Lower(y), Lower(z));
      } else {
        assert ls[1..][0] == z && rs[1..][0] == y + "|" + z && ls[1..][1..] == rs[1..][1..];
        var rest := Joined(ls[1..][1..]);
        assert Joined(ls[1..]) == Lower(z) + "|" + rest && Joined(rs[1..]) == Lower(y + "|" + z) + "|" + rest;
        JoinAssociates(Lower(x), Lower(y), Lower(z) + "|" + rest);
        JoinAssociates(Lower(y), Lower(z), rest);
      }
    }
  }

  lemma {:induction false} LowerPair(x: string, y: string)
    ensures Lower(x + "|" + y) == Lower(x) + "|" + Lower(y)
  {
  }

  lemma {:induction false} JoinAssociates(x: string, y: string, z: string)
    ensures (x + "|" + y) + "|" + z == x + "|" + (y + "|" + z)
  {
  }

  /** A list with a bar in any part shares its key with a list of other parts. */
  lemma {:induction false} BarIsAmbiguous(xs: seq<string>, i: nat) returns (ys: seq<string>)
    requires |xs| >= 2 && i < |xs| && !BarFree(xs[i])
    ensures |ys| == |xs| && Joined(ys) == Joined(xs) && !Alike(xs, ys)
  {
    var x, y := CutAtBar(xs[i]);
    if i + 1 < |xs| {
      ys := xs[i := x][i + 1 := y + "|" + xs[i + 1]];
      BarMoves(xs, i, x, y, xs[i + 1]);
      assert xs[i := x + "|" + y][i + 1 := xs[i + 1]] == xs;
      assert |ys[i]| != |xs[i]| && !EqualFold(xs[i], ys[i]) by { FoldLength(xs[i], ys[i]); }
    } else {
      ys := xs[i - 1 := xs[i - 1] + "|" + x][i := y];
      BarMoves(xs, i - 1, xs[i - 1], x, y);
      assert xs[i - 1 := xs[i - 1]][i := x + "|" + y] == xs;
      assert |ys[i]| != |xs[i]| && !EqualFold(xs[i], ys[i]) by { FoldLength(xs[i], ys[i]); }
    }
  }

  lemma {:induction false} FoldLength(s: string, t: string)
    ensures EqualFold(s, t) ==> |s| == |t|
  {
    assert |Lower(s)| == |s| && |Lower(t)| == |t|;
  }

  /** A key of two or more parts tells its parts, up to case, exactly when none holds a bar. */
  lemma {:induction false} UnambiguousIff(xs: seq<string>)
    requires |xs| >= 2
    ensures (forall ys | |ys| == |xs| && Joined(ys) == Joined(xs) :: Alike(xs, ys)) <==> forall x :: x in xs ==> BarFree(x)
  {
    hide Alike, Joined;
    if forall x :: x in xs ==> BarFree(x) {
      forall ys | |ys| == |xs| && Joined(ys) == Joined(xs) ensures Alike(xs, ys) {
        BarFreeIsTold(xs, ys);
      }
    } else {
      var i :| 0 <= i < |xs| && !BarFree(xs[i]);
      var ys := BarIsAmbiguous(xs, i);
    }
  }

  lemma {:induction false} BarFreeIsTold(xs: seq<string>, ys: seq<string>)
    requires |xs| >= 2 && |ys| == |xs| && Joined(ys) == Joined(xs)
    requires forall x :: x in xs ==> BarFree(x)
    ensures Alike(xs, ys)
  {
    JoinedBars(xs);
    JoinedBars(ys);
    assert forall i :: 0 <= i < |xs| ==> xs[i] in xs && ys[i] in ys;
    JoinedInjective(xs, ys);
  }
}
