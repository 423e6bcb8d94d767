/**
  Wildcard matching of names, against the relation it is meant to decide.
 */
module Patterns {
  import opened JsonText

  /** What a pattern stands for: ? is any one character, * any characters, and others are themselves. */
  ghost predicate Matches(p: string, s: string)
    decreases |p|
  {
    if p == "" then s == ""
    else if p[0] == '*' then exists i :: 0 <= i <= |s| && Matches(p[1..], s[i..])
    else s != "" && (p[0] == '?' || p[0] == s[0]) && Matches(p[1..], s[1..])
  }

  predicate AllStars(p: string) { forall i :: 0 <= i < |p| ==> p[i] == '*' }

  predicate EndsInTwoStars(p: string) { |p| >= 2 && p[|p| - 1] == '*' && p[|p| - 2] == '*' }

  /** What the code takes the pattern for: two or more stars at the end want at least one character. */
  function Taken(p: string): string {
    if p == "" then "" else if AllStars(p) && |p| >= 2 then "?*" else [p[0]] + Taken(p[1..])
  }

  lemma StarMatches(s: string)
    ensures Matches("*", s)
    ensures Matches("?*", s) <==> s != ""
  {
    assert "*"[1..] == "" && s[|s|..] == "" && Matches("*"[1..], s[|s|..]);
    assert "?*"[1..] == "*";
    if s != "" {
      assert s[1..][|s[1..]|..] == "" && Matches("*"[1..], s[1..][|s[1..]|..]);
    }
  }

  lemma StarLast(s: string)
    ensures Matches(Taken("*"), s)
  {
    assert "*"[1..] == "";
    assert Taken("*") == "*";
    StarMatches(s);
  }

  /** A character that is no star has to be matched by one. */
  lemma {:induction false} NothingLeft(p: string)
    requires !AllStars(p)
    ensures !Matches(Taken(p), "")
  {
    var t := Taken(p);
    assert t[0] == p[0] && t[1..] == Taken(p[1..]);
    if p[0] == '*' {
      assert !AllStars(p[1..]);
      NothingLeft(p[1..]);
      assert forall i :: 0 <= i <= |""| ==> ""[i..] == "";
    }
  }

  /** A star that is not the last: the code tries every suffix but the empty one. */
  lemma StarStep(p: string, s: string)
    requires |p| >= 2 && p[0] == '*'
    ensures Matches(Taken(p), s) <==> exists i :: 0 <= i < |s| && Matches(Taken(p[1..]), s[i..])
  {
    if AllStars(p) {
      AllStarsStep(p, s);
    } else {
      assert !AllStars(p[1..]);
      NothingLeft(p[1..]);
      var t := Taken(p);
      assert t[0] == '*' && t[1..] == Taken(p[1..]);
      assert s[|s|..] == "";
    }
  }

  lemma AllStarsStep(p: string, s: string)
    requires |p| >= 2 && AllStars(p)
    ensures Matches(Taken(p), s) <==> exists i :: 0 <= i < |s| && Matches(Taken(p[1..]), s[i..])
  {
    assert Taken(p) == "?*";
    assert Taken(p[1..]) == (if |p| == 2 then "*" else "?*") by {
      assert AllStars(p[1..]) && (|p| == 2 ==> p[1..] == "*" && "*"[1..] == "");
    }
    hide Matches, Taken;
    StarMatches(s);
    if s != "" {
      StarMatches(s[0..]);
      assert Matches(Taken(p[1..]), s[0..]);
    }
  }

  lemma PlainStep(p: string, s: string)
    requires p != "" && p[0] != '*'
    ensures Matches(Taken(p), s) <==> s != "" && (p[0] == '?' || p[0] == s[0]) && Matches(Taken(p[1..]), s[1..])
  {
    assert !AllStars(p);
    var t := Taken(p);
    assert t[0] == p[0] && t[1..] == Taken(p[1..]);
  }

  /** matchPattern, which walks along both strings and tries the suffixes of the name at a star. */
  method MatchPattern(needle: string, haystack: string) returns (r: bool)
    ensures r <==> Matches(Taken(needle), haystack)
    decreases |needle|, 0
  {
    var n, h := 0, 0;
    assert needle[0..] == needle && haystack[0..] == haystack;
    while n < |needle|
      invariant 0 <= n <= |needle| && 0 <= h <= |haystack|
      invariant Matches(Taken(needle), haystack) <==> Matches(Taken(needle[n..]), haystack[h..])
    {
      ghost var p, s := needle[n..], haystack[h..];
      assert p[1..] == needle[n + 1..];
      if needle[n] == '*' {
        if n + 1 == |needle| {
          assert p == "*";
          StarLast(s);
          return true;
        }
        StarStep(p, s);
        r := TrySuffixes(needle[n + 1..], haystack[h..]);
        return;
      }
      PlainStep(p, s);
      if h == |haystack| || (needle[n] != '?' && haystack[h] != needle[n]) {
        return false;
      }
      assert s[1..] == haystack[h + 1..];
      n, h := n + 1, h + 1;
    }
    assert needle[n..] == "";
    r := h == |haystack|;
  }

  method TrySuffixes(needle: string, haystack: string) returns (r: bool)
    ensures r <==> exists i :: 0 <= i < |haystack| && Matches(Taken(needle), haystack[i..])
    decreases |needle|, 1
  {
    for i := 0 to |haystack|
      invariant forall j :: 0 <= j < i ==> !Matches(Taken(needle), haystack[j..])
    {
      var ok := MatchPattern(needle, haystack[i..]);
      if ok {
        return true;
      }
    }
    r := false;
  }

  // ---- Where it is right ----

  lemma {:induction false} TakenAsIs(p: string)
    requires !EndsInTwoStars(p)
    ensures Taken(p) == p
  {
    if p != "" {
      assert AllStars(p) && |p| >= 2 ==> EndsInTwoStars(p);
      TakenAsIs(p[1..]);
    }
  }

  /** Whatever it accepts, the relation does. */
  lemma {:induction false} AcceptsOnlyMatches(p: string, s: string)
    requires Matches(Taken(p), s)
    ensures Matches(p, s)
    decreases |p|
  {
    if p != "" {
      if AllStars(p) {
        StarsMatch(p, s);
      } else if p[0] == '*' {
        var t := Taken(p);
        assert t[0] == '*' && t[1..] == Taken(p[1..]);
        var i :| 0 <= i <= |s| && Matches(t[1..], s[i..]);
        AcceptsOnlyMatches(p[1..], s[i..]);
      } else {
        PlainStep(p, s);
        AcceptsOnlyMatches(p[1..], s[1..]);
      }
    }
  }

  lemma {:induction false} StarsMatch(p: string, s: string)
    requires p != "" && AllStars(p)
    ensures Matches(p, s)
    decreases |p|
  {
    if |p| == 1 {
      assert p == "*";
      StarMatches(s);
    } else {
      StarsMatch(p[1..], s[0..]);
    }
  }

  /** The shortest name a pattern stands for. */
  function Shortest(p: string): string {
    if p == "" then "" else if p[0] == '*' then Shortest(p[1..]) else [p[0]] + Shortest(p[1..])
  }

  lemma {:induction false} ShortestMatches(p: string)
    ensures Matches(p, Shortest(p))
  {
    if p != "" {
      ShortestMatches(p[1..]);
      var s := Shortest(p);
      if p[0] == '*' {
        assert s[0..] == s && Matches(p[1..], s[0..]);
      } else {
        assert s[1..] == Shortest(p[1..]);
      }
    }
  }

  /** The code wants more than that of a pattern that ends in two stars. */
  lemma {:induction false} ShortestIsTooShort(p: string, s: string)
    requires EndsInTwoStars(p) && Matches(Taken(p), s)
    ensures |s| > |Shortest(p)|
    decreases |p|
  {
    if AllStars(p) {
      StarMatches(s);
      NoPlain(p);
    } else {
      assert |p| > 2;
      var t := Taken(p);
      assert t[0] == p[0] && t[1..] == Taken(p[1..]);
      if p[0] == '*' {
        var i :| 0 <= i <= |s| && Matches(t[1..], s[i..]);
        ShortestIsTooShort(p[1..], s[i..]);
      } else {
        ShortestIsTooShort(p[1..], s[1..]);
      }
    }
  }

  lemma {:induction false} NoPlain(p: string)
    requires AllStars(p)
    ensures Shortest(p) == ""
  {
    if p != "" {
      NoPlain(p[1..]);
    }
  }

  /** It accepts exactly the names the pattern stands for if and only if the pattern does not end in two stars. */
  lemma RightUnlessTwoStars(p: string)
    ensures (forall s :: Matches(Taken(p), s) <==> Matches(p, s)) <==> !EndsInTwoStars(p)
  {
    if EndsInTwoStars(p) {
      ShortestMatches(p);
      if Matches(Taken(p), Shortest(p)) {
        ShortestIsTooShort(p, Shortest(p));
      }
      assert Matches(p, Shortest(p)) && !Matches(Taken(p), Shortest(p));
    } else {
      TakenAsIs(p);
    }
  }

  /** PatternMatch: C strings end at their first NUL. */
  method PatternMatch(pattern: string, target: string) returns (r: bool)
    ensures r ==> Matches(Cut(pattern), Cut(target))
    ensures !EndsInTwoStars(Cut(pattern)) ==> (r <==> Matches(Cut(pattern), Cut(target)))
  {
    r := MatchPattern(Cut(pattern), Cut(target));
    if r {
      AcceptsOnlyMatches(Cut(pattern), Cut(target));
    }
    if !EndsInTwoStars(Cut(pattern)) {
      TakenAsIs(Cut(pattern));
    }
  }
}
