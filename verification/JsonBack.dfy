/**
  What the fast writer prints is read back: the grammar has the value at its text.
 */
module JsonBack {
  import opened Options
  import opened JsonText
  import opened JsonLexer
  import opened JsonGrammar
  import opened Slices

  // ---- Where the parts of a text lie ----

  lemma TextStart(v: Value)
    requires Printable(v)
    ensures Text(v) != "" && !IsSpace(Text(v)[0]) && Text(v)[0] != ']'
  {
    if v.Number? {
      NumberShape(v.n);
    }
  }

  /** The token a value's text starts with. */
  lemma ValueToken(doc: string, p: nat, v: Value)
    requires Printable(v) && At(doc, p, Text(v)) && Ends(doc, p + |Text(v)|)
    ensures p <= |doc| && TokenAt(doc, p).start == p
    ensures TokenAt(doc, p).kind == match v
            case Null => Nil case Bool(b) => (if b then True else False) case Number(_) => Numeral case Real(_) => Error
            case Str(_) => String case Array(_) => ArrayBegin case Object(_) => ObjectBegin
    ensures TokenAt(doc, p).end == p + if v.Array? || v.Object? then 1 else |Text(v)|
    ensures v.Number? ==> Text(v) == NumberText(v.n)
    ensures v.Str? ==> Text(v) == Quoted(v.s) && NulFree(v.s)
    ensures v.Array? ==> |Text(v)| == |Joined(Texts(v.items))| + 2 && At(doc, p + 1, Joined(Texts(v.items)) + "]")
    ensures v.Object? ==> |Text(v)| == |Joined(Pairs(v.members))| + 2 && At(doc, p + 1, Joined(Pairs(v.members)) + "}")
  {
    hide TokenAt, Joined, Quoted, NumberText;
    match v
    case Null => WordTokens(doc, p);
    case Bool(b) => WordTokens(doc, p);
    case Number(n) => NumeralToken(doc, p, n);
    case Str(s) => StringToken(doc, p, s);
    case Array(items) =>
      assert Text(v) == "[" + (Joined(Texts(items)) + "]");
      AtParts(doc, p, "[", Joined(Texts(items)) + "]");
      PunctuationToken(doc, p, '[');
    case Object(members) =>
      assert Text(v) == "{" + (Joined(Pairs(members)) + "}");
      AtParts(doc, p, "{", Joined(Pairs(members)) + "}");
      PunctuationToken(doc, p, '{');
  }

  lemma LastPart(doc: string, p: nat, a: string, close: char)
    requires At(doc, p, a + [close]) && close in "]}"
    ensures At(doc, p, a) && Ends(doc, p + |a|) && p + |a| < |doc|
    ensures TokenAt(doc, p + |a|) == Token(Closing(close), p + |a|, p + |a| + 1)
  {
    AtParts(doc, p, a, [close]);
    AtIndex(doc, p + |a|, [close], 0);
    PunctuationToken(doc, p + |a|, close);
  }

  lemma NextPart(doc: string, p: nat, a: string, b: string)
    requires At(doc, p, a + "," + b)
    ensures At(doc, p, a) && Ends(doc, p + |a|) && p + |a| < |doc| && At(doc, p + |a| + 1, b)
    ensures TokenAt(doc, p + |a|) == Token(ArraySeparator, p + |a|, p + |a| + 1)
  {
    AtParts(doc, p, a + ",", b);
    AtParts(doc, p, a, ",");
    AtIndex(doc, p + |a|, ",", 0);
    PunctuationToken(doc, p + |a|, ',');
  }

  function Closing(close: char): Kind { if close == ']' then ArrayEnd else ObjectEnd }

  /** Part k lies at its start, with a comma and the next part after it, or the closing bracket. */
  ghost predicate PartAt(doc: string, starts: seq<nat>, stop: nat, parts: seq<string>, close: char, k: nat) {
    k < |parts| == |starts| &&
    var q := starts[k] + |parts[k]|;
    && At(doc, starts[k], parts[k]) && Ends(doc, q) && q < |doc|
    && TokenAt(doc, q) == Token(if k + 1 == |parts| then Closing(close) else ArraySeparator, q, q + 1)
    && (if k + 1 == |parts| then q == stop else starts[k + 1] == q + 1)
  }

  ghost predicate Laid(doc: string, starts: seq<nat>, stop: nat, parts: seq<string>, close: char) {
    |starts| == |parts| &&
    forall k {:trigger PartAt(doc, starts, stop, parts, close, k)} :: 0 <= k < |parts| ==>
      PartAt(doc, starts, stop, parts, close, k)
  }

  /** Where the parts of a list lie. */
  lemma {:induction false} LayParts(doc: string, p: nat, stop: nat, parts: seq<string>, close: char)
    returns (starts: seq<nat>)
    requires parts != [] && At(doc, p, Joined(parts) + [close]) && close in "]}" && stop == p + |Joined(parts)|
    ensures Laid(doc, starts, stop, parts, close) && starts[0] == p
    decreases |parts|
  {
    starts := [p];
    if |parts| == 1 {
      LastPart(doc, p, parts[0], close);
    } else {
      var q, tail := p + |parts[0]| + 1, parts[1..];
      assert Joined(parts) + [close] == parts[0] + "," + (Joined(tail) + [close]);
      NextPart(doc, p, parts[0], Joined(tail) + [close]);
      var rest := LayParts(doc, q, stop, tail, close);
      LaidMore(doc, p, rest, stop, parts, close);
      starts := [p] + rest;
    }
  }

  lemma LaidMore(doc: string, p: nat, rest: seq<nat>, stop: nat, parts: seq<string>, close: char)
    requires |parts| > 1 && Laid(doc, rest, stop, parts[1..], close)
    requires var q := p + |parts[0]|;
             At(doc, p, parts[0]) && Ends(doc, q) && q < |doc|
             && TokenAt(doc, q) == Token(ArraySeparator, q, q + 1) && rest[0] == q + 1
    ensures Laid(doc, [p] + rest, stop, parts, close)
  {
    var starts, tail := [p] + rest, parts[1..];
    forall k | 0 <= k < |parts| ensures PartAt(doc, starts, stop, parts, close, k) {
      if k > 0 {
        assert PartAt(doc, rest, stop, tail, close, k - 1);
        assert tail[k - 1] == parts[k] && rest[k - 1] == starts[k];
      }
    }
  }

  lemma ItemsStart(doc: string, p: nat, stop: nat, vs: seq<Value>, parts: seq<string>) returns (starts: seq<nat>)
    requires Printable(Array(vs)) && parts == Texts(vs) && At(doc, p, Joined(parts) + "]")
             && stop == p + |Joined(parts)|
    ensures p < |doc| && SkipSpaces(doc, p) == p && (doc[p] == ']' <==> vs == [])
    ensures vs == [] ==> TokenAt(doc, p) == Token(ArrayEnd, p, p + 1) && stop == p
    ensures vs != [] ==> Laid(doc, starts, stop, parts, ']') && starts[0] == p
  {
    starts := [];
    if vs == [] {
      assert Joined(parts) + "]" == "" + "]";
      LastPart(doc, p, "", ']');
      AtIndex(doc, p, "]", 0);
    } else {
      starts := LayParts(doc, p, stop, parts, ']');
      assert PartAt(doc, starts, stop, parts, ']', 0);
      TextStart(vs[0]);
      AtIndex(doc, p, parts[0], 0);
    }
  }

  lemma MembersStart(doc: string, p: nat, stop: nat, ms: seq<Member>, parts: seq<string>) returns (starts: seq<nat>)
    requires parts == Pairs(ms) && At(doc, p, Joined(parts) + "}") && stop == p + |Joined(parts)|
    ensures ms == [] ==> p <= |doc| && TokenAt(doc, p) == Token(ObjectEnd, p, p + 1) && stop == p
    ensures ms != [] ==> Laid(doc, starts, stop, parts, '}') && starts[0] == p
  {
    starts := [];
    if ms == [] {
      assert Joined(parts) + "}" == "" + "}";
      LastPart(doc, p, "", '}');
    } else {
      starts := LayParts(doc, p, stop, parts, '}');
    }
  }

  /** The item to be read next, and what comes after it. */
  lemma NextItem(doc: string, starts: seq<nat>, stop: nat, vs: seq<Value>, parts: seq<string>, items: seq<Value>)
    returns (v: Value)
    requires Printable(Array(vs)) && parts == Texts(vs) && Laid(doc, starts, stop, parts, ']')
    requires |items| < |vs| && items == vs[..|items|]
    ensures v == vs[|items|] && Printable(v) && |starts| == |vs|
    ensures var p, q := starts[|items|], starts[|items|] + |Text(v)|;
            && At(doc, p, Text(v)) && Ends(doc, q) && q < |doc|
            && TokenAt(doc, q) == Token(if |items| + 1 == |vs| then ArrayEnd else ArraySeparator, q, q + 1)
            && (if |items| + 1 == |vs| then q == stop && items + [v] == vs else q + 1 == starts[|items| + 1])
  {
    hide TokenAt, Text;
    v := vs[|items|];
    assert PartAt(doc, starts, stop, parts, ']', |items|);
  }

  /** The member to be read next, and what comes after it. */
  lemma NextMember(doc: string, starts: seq<nat>, stop: nat, ms: seq<Member>, parts: seq<string>, members: seq<Member>)
    returns (m: Member)
    requires Printable(Object(ms)) && parts == Pairs(ms) && Laid(doc, starts, stop, parts, '}')
    requires |members| < |ms| && members == ms[..|members|]
    ensures m == ms[|members|] && NulFree(m.name) && Printable(m.value) && |starts| == |ms|
    ensures forall i :: 0 <= i < |members| ==> Less(members[i].name, m.name)
    ensures var p, q := starts[|members|], starts[|members|] + |Pair(m)|;
            && At(doc, p, Pair(m)) && Ends(doc, q) && q < |doc|
            && TokenAt(doc, p) == Token(String, p, p + |Quoted(m.name)|)
            && TokenAt(doc, q) == Token(if |members| + 1 == |ms| then ObjectEnd else ArraySeparator, q, q + 1)
            && (if |members| + 1 == |ms| then q == stop && members + [m] == ms else q + 1 == starts[|members| + 1])
  {
    hide TokenAt, Text, Pair;
    m := ms[|members|];
    assert PartAt(doc, starts, stop, parts, '}', |members|);
    NameToken(doc, starts[|members|], m);
  }

  lemma PairParts(doc: string, p: nat, m: Member)
    requires At(doc, p, Pair(m))
    ensures At(doc, p, Quoted(m.name)) && At(doc, p + |Quoted(m.name)| + 1, Text(m.value))
    ensures |Pair(m)| == |Quoted(m.name)| + 1 + |Text(m.value)|
    ensures var q := p + |Quoted(m.name)|; q <= |doc| && TokenAt(doc, q) == Token(MemberSeparator, q, q + 1)
  {
    AtParts(doc, p, Quoted(m.name) + ":", Text(m.value));
    AtParts(doc, p, Quoted(m.name), ":");
    PunctuationToken(doc, p + |Quoted(m.name)|, ':');
  }

  lemma NameToken(doc: string, p: nat, m: Member)
    requires At(doc, p, Pair(m))
    ensures p <= |doc| && TokenAt(doc, p) == Token(String, p, p + |Quoted(m.name)|)
  {
    PairParts(doc, p, m);
    StringToken(doc, p, m.name);
  }

  lemma {:induction false} MeaningGrows(s: string, k: nat)
    requires AllDigits(s) && k <= |s|
    ensures Meaning(s[..k]) <= Meaning(s)
    decreases |s|
  {
    if k < |s| {
      MeaningGrows(s[..|s| - 1], k);
      assert s[..|s| - 1][..k] == s[..k];
    } else {
      assert s[..k] == s;
    }
  }

  lemma ControlEscape(doc: string, p: nat, c: char)
    requires At(doc, p, Escape(c)) && |Escape(c)| == 6
    ensures AllHex(doc[p + 2..p + 6])
    ensures HexMeaning(doc[p + 2..p + 6]) == c as nat
  {
    var e := Escape(c);
    AtIndex(doc, p, e, 2);
    AtIndex(doc, p, e, 3);
    AtIndex(doc, p, e, 4);
    AtIndex(doc, p, e, 5);
    var h := [doc[p + 2], doc[p + 3], doc[p + 4], doc[p + 5]];
    assert doc[p + 2..p + 6] == h;
    assert HexMeaning(h[..1]) == HexValue(h[0]) by { assert h[..1] == [h[0]]; }
    assert HexMeaning(h[..2]) == 16 * HexMeaning(h[..1]) + HexValue(h[1]) by { assert h[..2][..1] == h[..1]; }
    assert HexMeaning(h[..3]) == 16 * HexMeaning(h[..2]) + HexValue(h[2]) by { assert h[..3][..2] == h[..2]; }
    assert HexMeaning(h) == 16 * HexMeaning(h[..3]) + HexValue(h[3]);
  }

  // ---- Leaves ----

  lemma NextIs(doc: string, p: nat)
    requires p <= |doc| && TokenAt(doc, p).kind != Comment
    ensures NextAt(doc, p) == TokenAt(doc, p)
  {
  }

  /** One escape is read as the character it is of. */
  lemma CharBack(doc: string, p: nat, end: nat, c: char)
    requires At(doc, p, Escape(c)) && p + |Escape(c)| <= end <= |doc| && c != '\0' && p < end
    ensures Char(doc, p, end) == Part([c], p + |Escape(c)|)
  {
    var e := Escape(c);
    AtIndex(doc, p, e, 0);
    if |e| > 1 {
      AtIndex(doc, p, e, 1);
      if |e| == 6 {
        ControlEscape(doc, p, c);
      }
    }
  }

  lemma {:induction false} CharsBack(doc: string, p: nat, end: nat, s: string)
    requires At(doc, p, Escaped(s)) && p + |Escaped(s)| == end <= |doc| && NulFree(s)
    ensures Chars(doc, p, end) == Some(s)
    decreases |s|
  {
    hide Escape, Char;
    if s != "" {
      EscapedParts(doc, p, s);
      EscapeShape(s[0]);
      AtIndex(doc, p, Escape(s[0]), 0);
      CharBack(doc, p, end, s[0]);
      CharsBack(doc, p + |Escape(s[0])|, end, s[1..]);
      assert s == [s[0]] + s[1..];
    }
  }

  /** Digits are read as the number they mean, unless all but the last mean too large a one. */
  lemma {:induction false} ScanMeans(d: string, k: nat, threshold: nat)
    requires k <= |d| && AllDigits(d) && (k > 0 ==> Meaning(d[..k - 1]) < threshold)
    ensures Scan(d, k, Meaning(d[..k]), threshold) ==
            if d == "" || Meaning(d[..|d| - 1]) < threshold then Digits(Meaning(d)) else TooWide
    decreases |d| - k
  {
    if k == |d| {
      assert d[..k] == d;
    } else {
      MeaningMore(d, k);
      if Meaning(d[..k]) < threshold {
        assert d[..k + 1 - 1] == d[..k];
        ScanMeans(d, k + 1, threshold);
      } else {
        MeaningGrows(d[..|d| - 1], k);
        assert d[..|d| - 1][..k] == d[..k];
      }
    }
  }

  lemma MeaningMore(d: string, k: nat)
    requires k < |d| && AllDigits(d)
    ensures Meaning(d[..k + 1]) == 10 * Meaning(d[..k]) + (d[k] - '0') as nat
  {
    assert d[..k + 1][..k] == d[..k];
  }

  /** The text of a number is read as that number if and only if it fits, and otherwise as a real, if at all. */
  lemma NumberBack(n: int, reals: string -> bool)
    ensures NumberText(n) != "" && NumberOf(NumberText(n), reals) ==
              if Fits(n) then Some(Number(n)) else RealOf(NumberText(n), reals)
    ensures NumberOf(NumberText(n), reals) == Some(Number(n)) <==>
            -9223372036854775800 < n < 18446744073709551610
    ensures TakenAsReal(NumberText(n)) <==> !Fits(n)
  {
    var s, m := NumberText(n), if n < 0 then -n else n;
    DecimalMeans(m);
    NumberShape(n);
    ScanMeans(Decimal(m), 0, Threshold(n < 0));
    hide Scan, Decimal;
    assert n < 0 ==> s[1..] == Decimal(m);
    forall i | 0 <= i < |s| ensures !RealChar(s, i) {
      assert i > 0 ==> s[i] == s[1..][i - 1];
    }
  }

  // ---- Values ----

  /** The text of the value lies at the position, and nothing there can be taken for more of it. */
  ghost predicate Awaits(doc: string, p: nat, v: Value) {
    Printable(v) && At(doc, p, Text(v)) && Ends(doc, p + |Text(v)|)
  }

  /** The grammar has a printable value where its text lies. */
  lemma {:induction false} ReadsBack(doc: string, p: nat, v: Value, reals: string -> bool)
    requires Awaits(doc, p, v)
    ensures p <= |doc| && ValueAt(doc, p, reals) == Part(v, p + |Text(v)|) && ValueOverruns(doc, p, reals) == 0
    decreases v, 1, 0
  {
    hide TokenAt, Joined, Quoted, NumberText, Chars, NumberOf, ArrayAt, MembersAt, Texts, Pairs, TakenAsReal,
         ArrayOverruns, MembersOverruns;
    ValueToken(doc, p, v);
    NextIs(doc, p);
    match v
    case Number(n) =>
      NumberBack(n, reals);
      assert doc[p..p + |Text(v)|] == NumberText(n);
    case Str(s) =>
      QuotedParts(doc, p, s);
      CharsBack(doc, p + 1, p + |Text(v)| - 1, s);
    case Array(items) => ArrayBack(doc, p + 1, v, reals);
    case Object(members) => ObjectBack(doc, p + 1, v, reals);
    case _ =>
  }

  lemma {:induction false} ArrayBack(doc: string, p: nat, v: Value, reals: string -> bool)
    requires v.Array? && Printable(v) && At(doc, p, Joined(Texts(v.items)) + "]")
    ensures p <= |doc| && ArrayAt(doc, p, reals) == Part(v, p + |Joined(Texts(v.items))| + 1)
    ensures ArrayOverruns(doc, p, reals) == 0
    decreases v, 0, |v.items| + 1
  {
    hide TokenAt, Joined, Text, ValueAt, ItemsAt, Printable, ItemsOverruns;
    var stop, parts := p + |Joined(Texts(v.items))|, Texts(v.items);
    var starts := ItemsStart(doc, p, stop, v.items, parts);
    if v.items != [] {
      ItemsBack(doc, starts, stop, v, parts, 0, reals);
      assert v.items[0..] == v.items;
    }
  }

  lemma {:induction false} ItemsBack(doc: string, starts: seq<nat>, stop: nat, v: Value, parts: seq<string>, k: nat,
                                     reals: string -> bool)
    requires v.Array? && Printable(v) && parts == Texts(v.items) && Laid(doc, starts, stop, parts, ']') && k < |v.items|
    ensures |starts| == |v.items| && starts[k] <= |doc|
            && ItemsAt(doc, starts[k], reals) == Part(v.items[k..], stop + 1)
            && ItemsOverruns(doc, starts[k], reals) == 0
    decreases v, 0, |v.items| - k
  {
    hide TokenAt, NextAt, Text, ValueAt, Printable, Laid, PartAt, ValueOverruns;
    var item := NextItem(doc, starts, stop, v.items, parts, v.items[..k]);
    ReadsBack(doc, starts[k], item, reals);
    NextIs(doc, starts[k] + |Text(item)|);
    assert v.items[k..] == [item] + v.items[k + 1..];
    if k + 1 < |v.items| {
      ItemsBack(doc, starts, stop, v, parts, k + 1, reals);
    }
  }

  lemma {:induction false} ObjectBack(doc: string, p: nat, v: Value, reals: string -> bool)
    requires v.Object? && Printable(v) && At(doc, p, Joined(Pairs(v.members)) + "}")
    ensures p <= |doc| && MembersAt(doc, p, [], "", reals) == Part(v, p + |Joined(Pairs(v.members))| + 1)
    ensures MembersOverruns(doc, p, "", reals) == 0
    decreases v, 0, |v.members| + 1
  {
    hide TokenAt, Joined, Text, Pair, MemberAt, Printable, MemberOverruns;
    var stop, parts := p + |Joined(Pairs(v.members))|, Pairs(v.members);
    var starts := MembersStart(doc, p, stop, v.members, parts);
    if v.members == [] {
      NextIs(doc, p);
    } else {
      MembersBack(doc, starts, stop, v, parts, 0, "", reals);
    }
  }

  lemma {:induction false} MembersBack(doc: string, starts: seq<nat>, stop: nat, v: Value, parts: seq<string>, k: nat,
                                       name: string, reals: string -> bool)
    requires v.Object? && Printable(v) && parts == Pairs(v.members) && Laid(doc, starts, stop, parts, '}')
             && k < |v.members|
    ensures |starts| == |v.members| && starts[k] <= |doc|
            && MembersAt(doc, starts[k], v.members[..k], name, reals) == Part(v, stop + 1)
            && MembersOverruns(doc, starts[k], name, reals) == 0
    decreases v, 0, |v.members| - k
  {
    hide TokenAt, NextAt, Text, Pair, MemberAt, CommaAt, Insert, Cut, Less, Printable, Laid, PartAt, MemberOverruns;
    var m := NextMember(doc, starts, stop, v.members, parts, v.members[..k]);
    var p, q := starts[k], starts[k] + |Pair(m)|;
    MemberBack(doc, p, m, v, k, reals);
    NextIs(doc, p);
    CommaIs(doc, q);
    CutNothing(m.name);
    InsertLast(v.members[..k], m.name, m.value);
    assert v.members[..k] + [m] == v.members[..k + 1];
    if k + 1 < |v.members| {
      MembersBack(doc, starts, stop, v, parts, k + 1, m.name, reals);
    }
  }

  lemma CommaIs(doc: string, p: nat)
    requires p <= |doc| && (TokenAt(doc, p).kind == ArraySeparator || TokenAt(doc, p).kind == ObjectEnd)
    ensures CommaAt(doc, p) == TokenAt(doc, p)
  {
  }

  lemma {:induction false} MemberBack(doc: string, p: nat, m: Member, v: Value, k: nat, reals: string -> bool)
    requires v.Object? && k < |v.members| && m == v.members[k]
    requires NulFree(m.name) && Printable(m.value) && At(doc, p, Pair(m)) && Ends(doc, p + |Pair(m)|)
    ensures p + |Quoted(m.name)| <= |doc| && |Quoted(m.name)| >= 2
    ensures MemberAt(doc, Token(String, p, p + |Quoted(m.name)|), reals) == Part(m, p + |Pair(m)|)
    ensures MemberOverruns(doc, Token(String, p, p + |Quoted(m.name)|), reals) == 0
    decreases v, 0, 0
  {
    hide TokenAt, Text, Chars, ValueAt, Pair, Printable, Quoted, ValueOverruns;
    PairParts(doc, p, m);
    QuotedParts(doc, p, m.name);
    CharsBack(doc, p + 1, p + |Quoted(m.name)| - 1, m.name);
    ReadsBack(doc, p + |Quoted(m.name)| + 1, m.value, reals);
  }

  /** The text of a printable value is a document of that value. */
  lemma PrintedReads(v: Value, reals: string -> bool)
    requires Printable(v)
    ensures ValueAt(Text(v), 0, reals) == Part(v, |Text(v)|) && ValueOverruns(Text(v), 0, reals) == 0
  {
    hide ValueAt, ValueOverruns, Text;
    assert Text(v)[0..|Text(v)|] == Text(v);
    ReadsBack(Text(v), 0, v, reals);
  }

  // ---- An array without commas ----

  /** Three numbers with spaces between them are an array of the first and the last: the second separates them. */
  lemma SpacesSeparate(reals: string -> bool)
    ensures ValueAt("[1 2 3]", 0, reals) == Part(Array([Number(1), Number(3)]), 7)
    ensures SepsAt("[1 2 3]", 1, reals) == [Token(Numeral, 3, 4), Token(ArrayEnd, 6, 7)]
  {
    var doc := "[1 2 3]";
    assert doc[0] == '[' && doc[1] == '1' && doc[2] == ' ' && doc[3] == '2' && doc[4] == ' ' && doc[5] == '3'
           && doc[6] == ']' && |doc| == 7;
    OddTokens(doc);
    hide TokenHere, SkipSpaces, NumberEnd, NumberOf, TokenAt;
    DigitValue(doc, 1, 1, reals);
    DigitValue(doc, 4, 3, reals);
    NextIs(doc, 0);
    NextIs(doc, 2);
    NextIs(doc, 6);
    assert ItemsAt(doc, 4, reals) == Part([Number(3)], 7);
    assert [Number(1)] + [Number(3)] == [Number(1), Number(3)];
    assert ItemsAt(doc, 1, reals) == Part([Number(1), Number(3)], 7);
    assert ArrayAt(doc, 1, reals) == Part(Array([Number(1), Number(3)]), 7);
    assert NextAt(doc, 0) == Token(ArrayBegin, 0, 1);
    hide ArrayAt;
  }

  lemma OddTokens(doc: string)
    requires doc == "[1 2 3]"
    ensures TokenAt(doc, 0) == Token(ArrayBegin, 0, 1) && TokenAt(doc, 1) == Token(Numeral, 1, 2)
            && TokenAt(doc, 2) == Token(Numeral, 3, 4)
    ensures TokenAt(doc, 4) == Token(Numeral, 5, 6) && TokenAt(doc, 6) == Token(ArrayEnd, 6, 7)
            && SkipSpaces(doc, 1) == 1
  {
    assert doc[0] == '[' && doc[1] == '1' && doc[2] == ' ' && doc[3] == '2' && doc[4] == ' ' && doc[5] == '3'
           && doc[6] == ']';
    assert SkipSpaces(doc, 2) == SkipSpaces(doc, 3) == 3 && SkipSpaces(doc, 4) == SkipSpaces(doc, 5) == 5;
    assert NumberEnd(doc, 2) == 2 && NumberEnd(doc, 4) == 4 && NumberEnd(doc, 6) == 6;
  }

  lemma DigitValue(doc: string, p: nat, d: nat, reals: string -> bool)
    requires p <= |doc| && d < 10 && TokenAt(doc, p).kind == Numeral
    requires doc[TokenAt(doc, p).start..TokenAt(doc, p).end] == [Digit(d)]
    ensures ValueAt(doc, p, reals) == Part(Number(d), TokenAt(doc, p).end)
  {
    hide TokenAt, NumberOf;
    NextIs(doc, p);
    NumberBack(d, reals);
    assert NumberText(d) == [Digit(d)];
  }

  // ---- A number that overruns the buffer ----

  lemma {:induction false} NumberEndsLast(doc: string, p: nat)
    requires p <= |doc| && forall i :: p <= i < |doc| ==> IsNumeral(doc[i])
    ensures NumberEnd(doc, p) == |doc|
    decreases |doc| - p
  {
    if p < |doc| {
      NumberEndsLast(doc, p + 1);
    }
  }

  /** A document of nothing but a number overruns the buffer if and only if its text does. */
  lemma NumberAlone(doc: string, reals: string -> bool)
    requires doc != "" && (IsDigit(doc[0]) || doc[0] == '-') && forall i :: 0 <= i < |doc| ==> IsNumeral(doc[i])
    ensures ValueOverruns(doc, 0, reals) == if Overruns(doc) then 1 else 0
    ensures ValueAt(doc, 0, reals).Part? <==> NumberOf(doc, reals).Some?
  {
    hide Overruns, NumberOf;
    NumberEndsLast(doc, 1);
    assert TokenAt(doc, 0) == Token(Numeral, 0, |doc|);
    NextIs(doc, 0);
    assert doc[0..|doc|] == doc;
  }

  /** One and a point and thirty zeros. */
  function LongReal(): string { "1." + seq(30, _ => '0') }

  lemma LongRealOverruns(reals: string -> bool)
    ensures |LongReal()| == 32 && ValueOverruns(LongReal(), 0, reals) == 1
    ensures ValueAt(LongReal(), 0, reals).Part? <==> reals(LongReal())
  {
    var doc := LongReal();
    assert doc[0] == '1' && doc[1] == '.' && forall i :: 2 <= i < 32 ==> doc[i] == '0';
    NumberAlone(doc, reals);
    assert RealChar(doc, 1);
    hide Scan;
  }
}
