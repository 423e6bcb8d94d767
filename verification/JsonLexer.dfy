/**
  The tokens of the JSON reader: what readToken finds at a position, as functions of the document.
 */
module JsonLexer {
  import opened JsonText
  import opened Slices

  datatype Kind =
    | ObjectBegin | ObjectEnd | ArrayBegin | ArrayEnd | String | Numeral | True | False | Nil
    | ArraySeparator | MemberSeparator | Comment | EndOfStream | Error

  datatype Token = Token(kind: Kind, start: nat, end: nat)

  /** The character there, or the NUL that ends the document. */
  function CharAt(doc: string, p: nat): char { if p < |doc| then doc[p] else '\0' }

  predicate IsSpace(c: char) { c == ' ' || c == '\t' || c == '\r' || c == '\n' }

  predicate IsNumeral(c: char) { IsDigit(c) || c == '.' || c == 'e' || c == 'E' || c == '+' || c == '-' }

  function SkipSpaces(doc: string, p: nat): (q: nat)
    requires p <= |doc|
    ensures p <= q <= |doc|
    decreases |doc| - p
  {
    if p < |doc| && IsSpace(doc[p]) then SkipSpaces(doc, p + 1) else p
  }

  function NumberEnd(doc: string, p: nat): (q: nat)
    requires p <= |doc|
    ensures p <= q <= |doc|
    decreases |doc| - p
  {
    if p < |doc| && IsNumeral(doc[p]) then NumberEnd(doc, p + 1) else p
  }

  /** Where a string ends, and whether a quote ends it. */
  function StringEnd(doc: string, p: nat): (r: (nat, bool))
    requires p <= |doc|
    ensures p <= r.0 <= |doc| && (r.1 ==> r.0 > p)
    decreases |doc| - p
  {
    if p == |doc| then (p, false)
    else if doc[p] == '"' then (p + 1, true)
    else if doc[p] == '\\' then StringEnd(doc, if p + 1 == |doc| then p + 1 else p + 2)
    else StringEnd(doc, p + 1)
  }

  function BlockCommentEnd(doc: string, p: nat): (r: (nat, bool))
    requires p <= |doc|
    ensures p <= r.0 <= |doc|
    decreases |doc| - p
  {
    if p == |doc| then (p, false)
    else if doc[p] == '*' && CharAt(doc, p + 1) == '/' then (p + 2, true)
    else BlockCommentEnd(doc, p + 1)
  }

  function LineCommentEnd(doc: string, p: nat): (q: nat)
    requires p <= |doc|
    ensures p <= q <= |doc|
    decreases |doc| - p
  {
    if p == |doc| then p else if doc[p] == '\r' || doc[p] == '\n' then p + 1 else LineCommentEnd(doc, p + 1)
  }

  function CommentEnd(doc: string, p: nat): (r: (nat, bool))
    requires p <= |doc|
    ensures p <= r.0 <= |doc|
  {
    if p == |doc| then (p, false)
    else if doc[p] == '*' then BlockCommentEnd(doc, p + 1)
    else if doc[p] == '/' then (LineCommentEnd(doc, p + 1), true)
    else (p + 1, false)
  }

  function WordToken(doc: string, start: nat, kind: Kind, rest: string): Token
    requires start < |doc|
  {
    if At(doc, start + 1, rest) then Token(kind, start, start + 1 + |rest|) else Token(Error, start, start + 1)
  }

  /** The token that starts here. */
  function TokenHere(doc: string, start: nat): (t: Token)
    requires start <= |doc|
    ensures t.start == start && start <= t.end <= |doc|
    ensures t.kind != EndOfStream ==> t.end > start
    ensures t.kind == String ==> t.end >= start + 2
  {
    if start == |doc| then Token(EndOfStream, start, start)
    else
      match doc[start]
      case '{' => Token(ObjectBegin, start, start + 1)
      case '}' => Token(ObjectEnd, start, start + 1)
      case '[' => Token(ArrayBegin, start, start + 1)
      case ']' => Token(ArrayEnd, start, start + 1)
      case ',' => Token(ArraySeparator, start, start + 1)
      case ':' => Token(MemberSeparator, start, start + 1)
      case '\0' => Token(EndOfStream, start, start + 1)
      case '"' => var (end, ok) := StringEnd(doc, start + 1); Token(if ok then String else Error, start, end)
      case '/' => var (end, ok) := CommentEnd(doc, start + 1); Token(if ok then Comment else Error, start, end)
      case 't' => WordToken(doc, start, True, "rue")
      case 'f' => WordToken(doc, start, False, "alse")
      case 'n' => WordToken(doc, start, Nil, "ull")
      case c => if IsDigit(c) || c == '-' then Token(Numeral, start, NumberEnd(doc, start + 1))
                else Token(Error, start, start + 1)
  }

  /** The next token. Only the end of the stream can be empty. */
  function TokenAt(doc: string, p: nat): (t: Token)
    requires p <= |doc|
    ensures p <= t.start <= t.end <= |doc|
    ensures t.kind != EndOfStream ==> t.end > p && t.end > t.start
    ensures t.kind == String ==> t.end >= t.start + 2
  {
    TokenHere(doc, SkipSpaces(doc, p))
  }

  // ---- What the writer prints, read as tokens ----

  /** Nothing of a number follows. */
  predicate Ends(doc: string, p: nat) { p >= |doc| || !IsNumeral(doc[p]) }

  lemma {:induction false} NumberEndAt(doc: string, p: nat, s: string)
    requires At(doc, p, s) && AllDigits(s) && Ends(doc, p + |s|)
    ensures NumberEnd(doc, p) == p + |s|
    decreases |s|
  {
    if s != "" {
      AtIndex(doc, p, s, 0);
      AtParts(doc, p, [s[0]], s[1..]);
      assert s == [s[0]] + s[1..];
      NumberEndAt(doc, p + 1, s[1..]);
    }
  }

  lemma NumberShape(n: int)
    ensures NumberText(n) != "" && (IsDigit(NumberText(n)[0]) || NumberText(n)[0] == '-')
    ensures AllDigits(NumberText(n)[1..])
  {
    DecimalMeans(if n < 0 then -n else n);
    assert n < 0 ==> NumberText(n)[1..] == Decimal(-n);
  }

  lemma NumeralToken(doc: string, p: nat, n: int)
    requires At(doc, p, NumberText(n)) && Ends(doc, p + |NumberText(n)|)
    ensures p <= |doc| && TokenAt(doc, p) == Token(Numeral, p, p + |NumberText(n)|)
  {
    NumberShape(n);
    SignedToken(doc, p, NumberText(n));
  }

  lemma SignedToken(doc: string, p: nat, s: string)
    requires s != "" && (IsDigit(s[0]) || s[0] == '-') && AllDigits(s[1..])
    requires At(doc, p, s) && Ends(doc, p + |s|)
    ensures p <= |doc| && TokenAt(doc, p) == Token(Numeral, p, p + |s|)
  {
    AtIndex(doc, p, s, 0);
    AtParts(doc, p, s[..1], s[1..]);
    assert s == s[..1] + s[1..];
    NumberEndAt(doc, p + 1, s[1..]);
  }

  predicate IsPlain(c: char) { c != '"' && c != '\\' }

  /** An escape is a plain character, or a backslash, any character and plain ones. */
  lemma EscapeShape(c: char)
    ensures (Escape(c) == [c] && IsPlain(c)) || (|Escape(c)| >= 2 && Escape(c)[0] == '\\')
    ensures forall i :: 2 <= i < |Escape(c)| ==> IsPlain(Escape(c)[i])
  {
  }

  lemma {:induction false} PlainSkipped(doc: string, p: nat, s: string)
    requires At(doc, p, s) && forall i :: 0 <= i < |s| ==> IsPlain(s[i])
    ensures StringEnd(doc, p) == StringEnd(doc, p + |s|)
    decreases |s|
  {
    if s != "" {
      AtIndex(doc, p, s, 0);
      assert s == [s[0]] + s[1..];
      AtParts(doc, p, [s[0]], s[1..]);
      PlainSkipped(doc, p + 1, s[1..]);
    }
  }

  lemma EscapeSkipped(doc: string, p: nat, c: char)
    requires At(doc, p, Escape(c))
    ensures StringEnd(doc, p) == StringEnd(doc, p + |Escape(c)|)
  {
    var e := Escape(c);
    EscapeShape(c);
    if |e| == 1 {
      PlainSkipped(doc, p, e);
    } else {
      AtIndex(doc, p, e, 0);
      AtIndex(doc, p, e, 1);
      assert e == e[..2] + e[2..];
      AtParts(doc, p, e[..2], e[2..]);
      PlainSkipped(doc, p + 2, e[2..]);
    }
  }

  lemma EscapedParts(doc: string, p: nat, s: string)
    requires s != "" && s[0] != '\0' && At(doc, p, Escaped(s))
    ensures |Escaped(s)| == |Escape(s[0])| + |Escaped(s[1..])| && |Escape(s[0])| > 0
    ensures At(doc, p, Escape(s[0])) && At(doc, p + |Escape(s[0])|, Escaped(s[1..]))
  {
    hide Escape;
    EscapeShape(s[0]);
    AtParts(doc, p, Escape(s[0]), Escaped(s[1..]));
  }

  lemma EscapedStep(doc: string, p: nat, s: string) returns (n: nat)
    requires s != "" && s[0] != '\0' && At(doc, p, Escaped(s))
    ensures |Escaped(s)| == n + |Escaped(s[1..])| && At(doc, p + n, Escaped(s[1..]))
    ensures StringEnd(doc, p) == StringEnd(doc, p + n)
  {
    EscapedParts(doc, p, s);
    EscapeSkipped(doc, p, s[0]);
    n := |Escape(s[0])|;
  }

  lemma {:induction false} StringEndAt(doc: string, p: nat, s: string)
    requires At(doc, p, Escaped(s)) && p + |Escaped(s)| < |doc| && doc[p + |Escaped(s)|] == '"'
    ensures StringEnd(doc, p) == (p + |Escaped(s)| + 1, true)
    decreases |s|
  {
    hide Escape;
    if s != "" && s[0] != '\0' {
      var n := EscapedStep(doc, p, s);
      StringEndAt(doc, p + n, s[1..]);
    }
  }

  lemma QuotedParts(doc: string, p: nat, s: string)
    requires At(doc, p, Quoted(s))
    ensures |Quoted(s)| == |Escaped(s)| + 2 && p + |Quoted(s)| <= |doc| && At(doc, p + 1, Escaped(s))
    ensures doc[p] == '"' && doc[p + 1 + |Escaped(s)|] == '"'
  {
    AtParts(doc, p, "\"" + Escaped(s), "\"");
    AtParts(doc, p, "\"", Escaped(s));
    AtIndex(doc, p, Quoted(s), 0);
    AtIndex(doc, p, Quoted(s), |Escaped(s)| + 1);
  }

  lemma StringToken(doc: string, p: nat, s: string)
    requires At(doc, p, Quoted(s))
    ensures p <= |doc| && TokenAt(doc, p) == Token(String, p, p + |Quoted(s)|)
  {
    QuotedParts(doc, p, s);
    StringEndAt(doc, p + 1, s);
  }

  /** The tokens of one character, and the words. */
  lemma PunctuationToken(doc: string, p: nat, c: char)
    requires At(doc, p, [c]) && c in "{}[],:"
    ensures p <= |doc| && TokenAt(doc, p) == Token(
      if c == '{' then ObjectBegin else if c == '}' then ObjectEnd else if c == '[' then ArrayBegin
      else if c == ']' then ArrayEnd else if c == ',' then ArraySeparator else MemberSeparator, p, p + 1)
  {
    AtIndex(doc, p, [c], 0);
  }

  lemma WordTokens(doc: string, p: nat)
    ensures At(doc, p, "null") ==> p <= |doc| && TokenAt(doc, p) == Token(Nil, p, p + 4)
    ensures At(doc, p, "true") ==> p <= |doc| && TokenAt(doc, p) == Token(True, p, p + 4)
    ensures At(doc, p, "false") ==> p <= |doc| && TokenAt(doc, p) == Token(False, p, p + 5)
  {
    assert "null" == "n" + "ull" && "true" == "t" + "rue" && "false" == "f" + "alse";
    AtParts(doc, p, "n", "ull");
    AtParts(doc, p, "t", "rue");
    AtParts(doc, p, "f", "alse");
    if At(doc, p, "n") { AtIndex(doc, p, "n", 0); }
    if At(doc, p, "t") { AtIndex(doc, p, "t", 0); }
    if At(doc, p, "f") { AtIndex(doc, p, "f", 0); }
  }
}
