/**
  The JSON reader: a cursor over the document and a count of errors, moved by mutually recursive
  methods. Every one of them terminates on every document, because each token but the end of the
  stream takes at least one byte, and reads what the grammar says.
 */
module JsonReader {
  import opened Options
  import opened JsonText
  import opened JsonLexer
  import opened JsonGrammar
  import opened Slices

  class Reader {
    const document: string
    const reals: string -> bool   // the texts sscanf can make a number of
    var current: nat
    var errors: nat
    ghost var overruns: nat       // times a byte was written behind the buffer of a number

    constructor (document: string, reals: string -> bool)
      ensures this.document == document && this.reals == reals && current == 0 && errors == 0 && overruns == 0
    {
      this.document, this.reals, current, errors, overruns := document, reals, 0, 0, 0;
    }

    // ---- Tokens ----

    method SkipSpaces()
      requires current <= |document|
      modifies `current
      ensures current == JsonLexer.SkipSpaces(document, old(current))
    {
      while current != |document| && IsSpace(document[current])
        invariant current <= |document|
                  && JsonLexer.SkipSpaces(document, current) == JsonLexer.SkipSpaces(document, old(current))
      {
        current := current + 1;
      }
    }

    method ReadNumber()
      requires current <= |document|
      modifies `current
      ensures current == NumberEnd(document, old(current))
    {
      while current != |document| && IsNumeral(document[current])
        invariant current <= |document| && NumberEnd(document, current) == NumberEnd(document, old(current))
      {
        current := current + 1;
      }
    }

    method GetNextChar() returns (c: char)
      requires current <= |document|
      modifies `current
      ensures c == CharAt(document, old(current))
      ensures current == if old(current) < |document| then old(current) + 1 else old(current)
    {
      if current == |document| {
        return '\0';
      }
      c := document[current];
      current := current + 1;
    }

    method ReadString() returns (ok: bool)
      requires current <= |document|
      modifies `current
      ensures (current, ok) == StringEnd(document, old(current))
    {
      var c := '\0';
      while current != |document|
        invariant current <= |document| && c != '"' && StringEnd(document, current) == StringEnd(document, old(current))
        decreases |document| - current
      {
        c := GetNextChar();
        if c == '\\' {
          var escaped := GetNextChar();
        } else if c == '"' {
          break;
        }
      }
      ok := c == '"';
    }

    method ReadBlockComment() returns (ok: bool)
      requires current <= |document|
      modifies `current
      ensures (current, ok) == BlockCommentEnd(document, old(current))
    {
      while current != |document|
        invariant current <= |document| && BlockCommentEnd(document, current) == BlockCommentEnd(document, old(current))
        decreases |document| - current
      {
        var c := GetNextChar();
        if c == '*' && CharAt(document, current) == '/' {
          break;
        }
      }
      var c := GetNextChar();
      ok := c == '/';
    }

    method ReadLineComment()
      requires current <= |document|
      modifies `current
      ensures current == LineCommentEnd(document, old(current))
    {
      while current != |document|
        invariant current <= |document| && LineCommentEnd(document, current) == LineCommentEnd(document, old(current))
        decreases |document| - current
      {
        var c := GetNextChar();
        if c == '\r' || c == '\n' {
          break;
        }
      }
    }

    method ReadComment() returns (ok: bool)
      requires current <= |document|
      modifies `current
      ensures (current, ok) == CommentEnd(document, old(current))
    {
      var c := GetNextChar();
      ok := false;
      if c == '*' {
        ok := ReadBlockComment();
      } else if c == '/' {
        ReadLineComment();
        ok := true;
      }
    }

    method Match(pattern: string) returns (ok: bool)
      requires current <= |document|
      modifies `current
      ensures ok == At(document, old(current), pattern)
      ensures current == if ok then old(current) + |pattern| else old(current)
    {
      if |document| - current < |pattern| {
        return false;
      }
      var index := |pattern|;
      while index > 0
        invariant 0 <= index <= |pattern|
        invariant document[current + index..current + |pattern|] == pattern[index..]
      {
        index := index - 1;
        if document[current + index] != pattern[index] {
          assert document[current..current + |pattern|][index] != pattern[index];
          return false;
        }
      }
      current := current + |pattern|;
      ok := true;
    }

    method ReadToken() returns (token: Token)
      requires current <= |document|
      modifies `current
      ensures token == TokenAt(document, old(current)) && current == token.end
    {
      SkipSpaces();
      var start, ok, kind := current, true, Error;
      var c := GetNextChar();
      match c {
        case '{' => kind := ObjectBegin;
        case '}' => kind := ObjectEnd;
        case '[' => kind := ArrayBegin;
        case ']' => kind := ArrayEnd;
        case ',' => kind := ArraySeparator;
        case ':' => kind := MemberSeparator;
        case '\0' => kind := EndOfStream;
        case '"' => kind := String; ok := ReadString();
        case '/' => kind := Comment; ok := ReadComment();
        case 't' => kind := True; ok := Match("rue");
        case 'f' => kind := False; ok := Match("alse");
        case 'n' => kind := Nil; ok := Match("ull");
        case _ =>
          if IsDigit(c) || c == '-' {
            kind := Numeral;
            ReadNumber();
          } else {
            ok := false;
          }
      }
      token := Token(if ok then kind else Error, start, current);
    }

    /** The next token that is not a comment. */
    method NextToken() returns (token: Token)
      requires current <= |document|
      modifies `current
      ensures token == NextAt(document, old(current)) && current == token.end
    {
      hide TokenAt;
      token := ReadToken();
      while token.kind == Comment
        invariant current == token.end <= |document|
        invariant NextAt(document, old(current)) == if token.kind == Comment then NextAt(document, token.end) else token
        decreases |document| - current, token.kind == Comment
      {
        token := ReadToken();
      }
    }

    /** Skips behind the first token of the kind, or to the end. */
    method Recover(kind: Kind)
      requires current <= |document|
      modifies `current
      ensures current == RecoverAt(document, old(current), kind)
    {
      hide TokenAt;
      var skip := ReadToken();
      while skip.kind != kind && skip.kind != EndOfStream
        invariant current == skip.end <= |document|
        invariant RecoverAt(document, old(current), kind) ==
                  if skip.kind == kind || skip.kind == EndOfStream then skip.end
                  else RecoverAt(document, skip.end, kind)
        decreases |document| - current, skip.kind != kind && skip.kind != EndOfStream
      {
        skip := ReadToken();
      }
    }

    // ---- Strings ----

    method AddError()
      modifies `errors
      ensures errors == old(errors) + 1
    {
      errors := errors + 1;
    }

    method DecodeHex(p: nat, end: nat) returns (ok: bool, unicode: nat)
      requires p <= end <= |document|
      modifies `errors
      ensures errors == if ok then old(errors) else old(errors) + 1
      ensures ok <==> p + 4 <= end && AllHex(document[p..p + 4])
      ensures ok ==> unicode == HexMeaning(document[p..p + 4])
    {
      unicode := 0;
      if end - p < 4 {
        AddError();
        return false, 0;
      }
      ghost var s := document[p..p + 4];
      for index := 0 to 4
        invariant errors == old(errors) && unicode == HexMeaning(s[..index])
        invariant forall i :: 0 <= i < index ==> HexValue(s[i]) < 16
      {
        var c := document[p + index];
        assert c == s[index] && s[..index + 1][..index] == s[..index];
        if HexValue(c) == 16 {
          AddError();
          return false, 0;
        }
        unicode := unicode * 16 + HexValue(c);
      }
      assert s[..4] == s;
      ok := true;
    }

    method DecodeCodePoint(p: nat, end: nat) returns (ok: bool, q: nat, unicode: nat)
      requires p <= end <= |document|
      modifies `errors
      ensures errors == if ok then old(errors) else old(errors) + 1
      ensures CodePoint(document, p, end) == if ok then Part(unicode, q) else Missing
    {
      hide AllHex, HexMeaning;
      q := p + 4;
      ok, unicode := DecodeHex(p, end);
      if ok && 0xd800 <= unicode <= 0xdbff {
        if end - q < 6 || document[q] != '\\' || document[q + 1] != 'u' {
          AddError();
          return false, q, unicode;
        }
        var second;
        ok, second := DecodeHex(q + 2, end);
        q, unicode := q + 6, 0x10000 + unicode % 1024 * 1024 + second % 1024;
      }
    }

    /** One character or escape. */
    method DecodeChar(p: nat, end: nat) returns (ok: bool, q: nat, chunk: string)
      requires p < end <= |document|
      modifies `errors
      ensures errors == if ok then old(errors) else old(errors) + 1
      ensures Char(document, p, end) == if ok then Part(chunk, q) else Missing
    {
      hide CodePoint, Utf8;
      if document[p] != '\\' {
        return true, p + 1, [document[p]];
      }
      if p + 1 == end {
        AddError();
        return false, p + 1, "";
      }
      if document[p + 1] == 'u' {
        var unicode;
        ok, q, unicode := DecodeCodePoint(p + 2, end);
        chunk := if ok then Utf8(unicode) else "";
      } else {
        chunk := Unescape(document[p + 1]);
        if chunk == "" {
          AddError();
          return false, p + 2, "";
        }
        ok, q := true, p + 2;
      }
    }

    /** Decodes a string token. */
    method DecodeString(token: Token) returns (ok: bool, decoded: string)
      requires token.start + 2 <= token.end <= |document|
      modifies `errors
      ensures errors == if ok then old(errors) else old(errors) + 1
      ensures Chars(document, token.start + 1, token.end - 1) == if ok then Some(decoded) else None
    {
      hide Char;
      decoded := "";
      var p, end := token.start + 1, token.end - 1;
      PrefixedMore("", "", Chars(document, p, end));
      while p != end
        invariant p <= end && errors == old(errors)
        invariant Chars(document, token.start + 1, end) == Prefixed(decoded, Chars(document, p, end))
        decreases end - p
      {
        if document[p] == '"' {
          break;
        }
        var chunk;
        ok, p, chunk := DecodeChar(p, end);
        if !ok {
          return;
        }
        PrefixedMore(decoded, chunk, Chars(document, p, end));
        decoded := decoded + chunk;
      }
      ok := true;
      PrefixedMore("", decoded, Some(""));
    }

    // ---- Numbers ----

    /**
      decodeDouble, which copies a text of up to 32 characters and a NUL to a buffer of 32. It stays inside the
      buffer if and only if the text is not 32 characters long.
     */
    method DecodeReal(token: Token) returns (ok: bool, value: Value)
      requires token.start <= token.end <= |document|
      modifies `errors, `overruns
      ensures errors == if ok then old(errors) else old(errors) + 1
      ensures RealOf(document[token.start..token.end], reals) == if ok then Some(value) else None
      ensures overruns == old(overruns) + if token.end - token.start == 32 then 1 else 0
    {
      var bufferSize, length := 32, token.end - token.start;
      if length <= bufferSize {
        ghost var last := length;   // where the NUL goes
        overruns := overruns + if last < bufferSize then 0 else 1;
      }
      value := Real(document[token.start..token.end]);
      ok := reals(document[token.start..token.end]);
      if !ok {
        AddError();
      }
    }

    method InspectNumber(token: Token) returns (fraction: bool)
      requires token.start <= token.end <= |document|
      ensures fraction == LooksReal(document[token.start..token.end])
    {
      fraction := false;
      ghost var s := document[token.start..token.end];
      var i := token.start;
      while i < token.end
        invariant token.start <= i <= token.end
        invariant fraction <==> exists j :: 0 <= j < i - token.start && RealChar(s, j)
      {
        var c := document[i];
        assert s[i - token.start] == c;
        var real_ := c == '.' || c == 'e' || c == 'E' || c == '+' || (c == '-' && i != token.start);
        assert real_ == RealChar(s, i - token.start);
        fraction := fraction || real_;
        i := i + 1;
      }
    }

    /** Reads digits, as long as another one cannot overflow; no value it computes exceeds 64 bits. */
    method DecodeDigits(first: nat, end: nat, threshold: nat) returns (digits: Digits)
      requires first <= end <= |document| && threshold <= 1844674407370955161
      ensures digits == Scan(document[first..end], 0, 0, threshold)
      ensures digits.Digits? ==> digits.value <= 18446744073709551615
    {
      ghost var s := document[first..end];
      var value: nat, p := 0, first;
      while p < end
        invariant first <= p <= end && value <= 18446744073709551615
        invariant Scan(s, 0, 0, threshold) == Scan(s, p - first, value, threshold)
      {
        var c := document[p];
        assert c == s[p - first];
        if !IsDigit(c) {
          return NotDigits;
        }
        if value >= threshold {
          return TooWide;
        }
        value, p := value * 10 + (c - '0') as nat, p + 1;
      }
      digits := Digits(value);
    }

    /** Decodes a number token. It overruns the buffer if and only if the text is a real of 32 characters. */
    method DecodeNumber(token: Token) returns (ok: bool, value: Value)
      requires token.start < token.end <= |document|
      modifies `errors, `overruns
      ensures errors == if ok then old(errors) else old(errors) + 1
      ensures NumberOf(document[token.start..token.end], reals) == if ok then Some(value) else None
      ensures overruns == old(overruns) + if Overruns(document[token.start..token.end]) then 1 else 0
    {
      hide Scan, LooksReal;
      ghost var s := document[token.start..token.end];
      var fraction := InspectNumber(token);
      if fraction {
        ok, value := DecodeReal(token);
        return;
      }
      var negative := document[token.start] == '-';
      assert s[0] == document[token.start] && s[1..] == document[token.start + 1..token.end];
      var first := if negative then token.start + 1 else token.start;
      var digits := DecodeDigits(first, token.end, Threshold(negative));
      if digits == NotDigits {
        AddError();
        return false, Null;
      }
      if digits == TooWide {
        ok, value := DecodeReal(token);
        return;
      }
      ok, value := true, Number(if negative then 0 - digits.value as int else digits.value);
    }

    // ---- Values ----

    /**
      Reads a value into a slot that held one before: exactly what the grammar has at the cursor. It fails exactly
      when it has recorded an error.
     */
    method ReadValue(slot: Value) returns (ok: bool, value: Value)
      requires current <= |document|
      modifies `current, `errors, `overruns
      decreases |document| - current, 0
      ensures old(current) <= current <= |document|
      ensures if ok then errors == old(errors) else errors > old(errors)
      ensures overruns == old(overruns) + ValueOverruns(document, old(current), reals)
      ensures var r := ValueAt(document, old(current), reals);
              if ok then r == Part(value, current) else r == Missing
    {
      hide TokenAt, NextAt, Chars, NumberOf, ArrayAt, MembersAt, Overruns, ArrayOverruns, MembersOverruns;
      value := slot;
      var token := NextToken();
      if token.kind == ObjectBegin {
        ok, value := ReadObject();
      } else if token.kind == ArrayBegin {
        ghost var seps;
        ok, value, seps := ReadArray();
      } else if token.kind == Numeral {
        var number;
        ok, number := DecodeNumber(token);
        value := if ok then number else value;
      } else if token.kind == String {
        var decoded;
        ok, decoded := DecodeString(token);
        value := if ok then Str(decoded) else value;
      } else if token.kind == True || token.kind == False {
        ok, value := true, Bool(token.kind == True);
      } else if token.kind == Nil {
        ok, value := true, Null;
      } else {
        AddError();
        ok := false;
      }
    }

    /**
      After the opening bracket. The ghost result is the tokens found after the items. An array is read if and only
      if every item is and the tokens after them are closing brackets only after the last.
     */
    method ReadArray() returns (ok: bool, value: Value, ghost seps: seq<Token>)
      requires current <= |document|
      modifies `current, `errors, `overruns
      decreases |document| - current, 3
      ensures old(current) <= current <= |document|
      ensures if ok then errors == old(errors) else errors > old(errors)
      ensures overruns == old(overruns) + ArrayOverruns(document, old(current), reals)
      ensures var r := ArrayAt(document, old(current), reals);
              if ok then r == Part(value, current) else r == Missing
      ensures ok && value != Array([]) ==> seps == SepsAt(document, JsonLexer.SkipSpaces(document, old(current)), reals)
    {
      hide ValueAt, NextAt, ItemsAt, SepsAt, Linked, Before, ItemsOverruns, ValueOverruns;
      SkipSpaces();
      ghost var start := current;
      seps := [];
      if CharAt(document, current) == ']' {
        var end := ReadToken();
        return true, Array([]), [];
      }
      hide TokenAt;
      ghost var all, after := ItemsAt(document, start, reals), SepsAt(document, start, reals);
      var items: seq<Value> := [];
      BeforeMore([], Null, all);
      while true
        invariant old(current) <= start <= current <= |document| && errors == old(errors)
        invariant all == Before(items, ItemsAt(document, current, reals))
                  && after == seps + SepsAt(document, current, reals)
        invariant overruns + ItemsOverruns(document, current, reals) ==
                  old(overruns) + ItemsOverruns(document, start, reals)
        decreases |document| - current
      {
        var item, more;
        ghost var sep, at := Token(Error, 0, 0), current;
        ok, item, more, sep := ReadItem();
        if !ok {
          ItemsStop(document, at, reals);
          BeforeIs(items, ItemsAt(document, at, reals));
          return false, Array(items + [item]), seps;
        }
        ItemsStep(document, at, item, sep, reals);
        BeforeMore(items, item, ItemsAt(document, sep.end, reals));
        BeforeIs(items, ItemsAt(document, at, reals));
        items, seps := items + [item], seps + [sep];
        if !more {
          return true, Array(items), seps;
        }
      }
    }

    /** One item, with the token after it. */
    method ReadItem() returns (ok: bool, item: Value, more: bool, ghost sep: Token)
      requires current <= |document|
      modifies `current, `errors, `overruns
      decreases |document| - current, 1
      ensures old(current) <= current <= |document|
      ensures if ok then errors == old(errors) else errors > old(errors)
      ensures overruns == old(overruns) + ValueOverruns(document, old(current), reals)
      ensures if ok then Linked(document, old(current), item, sep, reals)
              else ValueAt(document, old(current), reals).Missing?
      ensures ok ==> more == (sep.kind != ArrayEnd) && current == sep.end && current > old(current)
    {
      hide TokenAt, NextAt, ValueAt, ValueOverruns;
      more, sep := false, Token(Error, 0, 0);
      ok, item := ReadValue(Null);
      if !ok {
        Recover(ArrayEnd);
        return;
      }
      var token := NextToken();
      more, sep := token.kind != ArrayEnd, token;
    }

    /** The rest of a member, after the token of its name. */
    method ReadMember(token: Token, members: seq<Member>) returns (ok: bool, members': seq<Member>, name: string)
      requires token.end == current <= |document| && token.start + 2 <= token.end
      modifies `current, `errors, `overruns
      decreases |document| - current, 1
      ensures old(current) <= current <= |document|
      ensures if ok then errors == old(errors) else errors > old(errors)
      ensures overruns == old(overruns) + MemberOverruns(document, token, reals)
      ensures var m := MemberAt(document, token, reals);
              if ok then m.Part? && members' == Insert(members, Cut(m.value.name), m.value.value)
              && name == m.value.name && current == m.end
              else m == Missing
    {
      hide TokenAt, Chars, ValueAt, Insert, Cut, Find, ValueOverruns;
      members' := members;
      ok, name := DecodeString(token);
      if !ok {
        Recover(ObjectEnd);
        return;
      }
      var colon := ReadToken();
      if colon.kind != MemberSeparator {
        AddError();
        Recover(ObjectEnd);
        return false, members', name;
      }
      var value;
      ok, value := ReadValue(Find(members, Cut(name)));
      members' := Insert(members, Cut(name), value);
      if !ok {
        Recover(ObjectEnd);
      }
    }

    /** The token after a member. */
    method ReadComma() returns (ok: bool, last: bool)
      requires current <= |document|
      modifies `current, `errors
      ensures old(current) <= current <= |document|
      ensures if ok then errors == old(errors) else errors > old(errors)
      ensures var t := CommaAt(document, old(current));
              if ok then t.kind != Error && last == (t.kind == ObjectEnd) && current == t.end else t.kind == Error
    {
      hide TokenAt, NextAt;
      var comma := ReadToken();
      if comma.kind != ObjectEnd && comma.kind != ArraySeparator && comma.kind != Comment {
        AddError();
        Recover(ObjectEnd);
        return false, false;
      }
      if comma.kind == Comment {
        comma := NextToken();
      }
      ok, last := true, comma.kind == ObjectEnd;
    }

    /** After the opening brace. */
    method ReadObject() returns (ok: bool, value: Value)
      requires current <= |document|
      modifies `current, `errors, `overruns
      decreases |document| - current, 2
      ensures old(current) <= current <= |document|
      ensures if ok then errors == old(errors) else errors > old(errors)
      ensures overruns == old(overruns) + MembersOverruns(document, old(current), "", reals)
      ensures var r := MembersAt(document, old(current), [], "", reals);
              if ok then r == Part(value, current) else r == Missing
    {
      hide TokenAt, NextAt, MemberAt, Insert, Cut, CommaAt, MemberOverruns;
      var members: seq<Member>, name := [], "";
      while true
        invariant old(current) <= current <= |document| && errors == old(errors)
        invariant MembersAt(document, old(current), [], "", reals) == MembersAt(document, current, members, name, reals)
        invariant overruns + MembersOverruns(document, current, name, reals) ==
                  old(overruns) + MembersOverruns(document, old(current), "", reals)
        decreases |document| - current
      {
        var token := NextToken();
        if token.kind == ObjectEnd && name == "" {
          return true, Object(members);
        }
        if token.kind != String {
          break;
        }
        ok, members, name := ReadMember(token, members);
        if !ok {
          return false, Object(members);
        }
        var last;
        ok, last := ReadComma();
        if !ok || last {
          return ok, Object(members);
        }
      }
      AddError();
      Recover(ObjectEnd);
      ok, value := false, Object(members);
    }
  }

  function Prefixed(s: string, rest: Option<string>): Option<string> {
    if rest.Some? then Some(s + rest.value) else None
  }

  lemma PrefixedMore(s: string, c: string, rest: Option<string>)
    ensures Prefixed(s, Prefixed(c, rest)) == Prefixed(s + c, rest)
    ensures Prefixed("", rest) == rest && c + "" == c
  {
    if rest.Some? {
      assert s + (c + rest.value) == (s + c) + rest.value && "" + rest.value == rest.value;
    }
  }

  lemma BeforeIs(items: seq<Value>, rest: Part<seq<Value>>)
    ensures Before(items, rest) == if rest.Part? then Part(items + rest.value, rest.end) else Missing
  {
  }

  lemma BeforeMore(items: seq<Value>, item: Value, rest: Part<seq<Value>>)
    ensures Before(items, Before([item], rest)) == Before(items + [item], rest)
    ensures Before([], rest) == rest
  {
    if rest.Part? {
      assert items + ([item] + rest.value) == (items + [item]) + rest.value && [] + rest.value == rest.value;
    }
  }

  /** The items from a position on, and the tokens after them, of which the first are known. */
  lemma ItemsStep(doc: string, p: nat, item: Value, sep: Token, reals: string -> bool)
    requires p <= |doc| && Linked(doc, p, item, sep, reals)
    ensures if sep.kind == ArrayEnd then
              ItemsAt(doc, p, reals) == Part([item], sep.end) && SepsAt(doc, p, reals) == [sep]
            else
              ItemsAt(doc, p, reals) == Before([item], ItemsAt(doc, sep.end, reals))
              && SepsAt(doc, p, reals) == [sep] + SepsAt(doc, sep.end, reals)
    ensures ItemsOverruns(doc, p, reals) ==
            ValueOverruns(doc, p, reals) + if sep.kind == ArrayEnd then 0 else ItemsOverruns(doc, sep.end, reals)
  {
  }

  lemma ItemsStop(doc: string, p: nat, reals: string -> bool)
    requires p <= |doc| && ValueAt(doc, p, reals).Missing?
    ensures ItemsAt(doc, p, reals) == Missing && ItemsOverruns(doc, p, reals) == ValueOverruns(doc, p, reals)
  {
  }

  /** Items read before others. */
  function Before(items: seq<Value>, rest: Part<seq<Value>>): Part<seq<Value>> {
    if rest.Part? then Part(items + rest.value, rest.end) else Missing
  }

  /**
    Reader::parse. It terminates on every document, reads exactly the value the grammar has at its start, and
    fails exactly when it has recorded an error. The numbers that overran the buffer are told exactly.
   */
  method Parse(document: string, reals: string -> bool)
    returns (ok: bool, root: Value, errors: nat, ghost overruns: nat)
    ensures ok <==> errors == 0
    ensures ok <==> ValueAt(document, 0, reals).Part?
    ensures ok ==> root == ValueAt(document, 0, reals).value
    ensures overruns == ValueOverruns(document, 0, reals)
  {
    hide ValueAt, ValueOverruns;
    var reader := new Reader(document, reals);
    ok, root := reader.ReadValue(Null);
    errors, overruns := reader.errors, reader.overruns;
    var rest := reader.NextToken();
  }
}
