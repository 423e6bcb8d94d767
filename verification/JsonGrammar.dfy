/**
  What the JSON reader reads, on every document, as functions of the document. They follow the reader,
  not RFC 8259: any token separates two items of an array, and a comma may follow a member whose name
  is empty.
 */
module JsonGrammar {
  import opened Options
  import opened JsonText
  import opened JsonLexer

  // ---- Strings ----

  function Utf8(cp: nat): string {
    if cp <= 0x7f then [cp as char]
    else if cp <= 0x7ff then [(0xc0 + cp / 64 % 32) as char, (0x80 + cp % 64) as char]
    else if cp <= 0xffff then [(0xe0 + cp / 4096 % 16) as char, (0x80 + cp / 64 % 64) as char, (0x80 + cp % 64) as char]
    else if cp <= 0x10ffff then
      [(0xf0 + cp / 262144 % 8) as char, (0x80 + cp / 4096 % 64) as char, (0x80 + cp / 64 % 64) as char,
       (0x80 + cp % 64) as char]
    else []
  }

  /** The value of a hexadecimal digit, or 16. */
  function HexValue(c: char): nat {
    if '0' <= c <= '9' then (c - '0') as nat
    else if 'a' <= c <= 'f' then (c - 'a') as nat + 10
    else if 'A' <= c <= 'F' then (c - 'A') as nat + 10
    else 16
  }

  predicate AllHex(s: string) { forall i :: 0 <= i < |s| ==> HexValue(s[i]) < 16 }

  function HexMeaning(s: string): nat {
    if s == "" then 0 else 16 * HexMeaning(s[..|s| - 1]) + HexValue(s[|s| - 1])
  }

  /** The escapes other than \u. */
  function Unescape(c: char): string {
    match c
    case '"' => "\"" case '/' => "/" case '\\' => "\\"
    case 'b' => [8 as char] case 'f' => [12 as char] case 'n' => "\n" case 'r' => "\r" case 't' => "\t"
    case _ => ""
  }

  datatype Part<T> = Missing | Part(value: T, end: nat)

  /** The code point of the digits after \u, or of a surrogate pair. */
  function CodePoint(doc: string, p: nat, end: nat): (r: Part<nat>)
    requires p <= end <= |doc|
    ensures r.Part? ==> p < r.end <= end
  {
    if end - p < 4 || !AllHex(doc[p..p + 4]) then Missing
    else
      var unicode, q := HexMeaning(doc[p..p + 4]), p + 4;
      if !(0xd800 <= unicode <= 0xdbff) then Part(unicode, q)
      else if end - q < 6 || doc[q] != '\\' || doc[q + 1] != 'u' || !AllHex(doc[q + 2..q + 6]) then Missing
      else Part(0x10000 + unicode % 1024 * 1024 + HexMeaning(doc[q + 2..q + 6]) % 1024, q + 6)
  }

  /** One character or escape. */
  function Char(doc: string, p: nat, end: nat): (r: Part<string>)
    requires p < end <= |doc|
    ensures r.Part? ==> p < r.end <= end
  {
    if doc[p] != '\\' then Part([doc[p]], p + 1)
    else if p + 1 == end then Missing
    else if doc[p + 1] == 'u' then
      var cp := CodePoint(doc, p + 2, end);
      if cp.Part? then Part(Utf8(cp.value), cp.end) else Missing
    else if Unescape(doc[p + 1]) == "" then Missing
    else Part(Unescape(doc[p + 1]), p + 2)
  }

  /** The characters up to the end, or to a quote. */
  function Chars(doc: string, p: nat, end: nat): Option<string>
    requires p <= end <= |doc|
    decreases end - p
  {
    if p == end || doc[p] == '"' then Some("")
    else
      var c := Char(doc, p, end);
      if c.Missing? then None
      else
        var rest := Chars(doc, c.end, end);
        if rest.None? then None else Some(c.value + rest.value)
  }

  // ---- Numbers ----

  /** A character only a real can have. */
  predicate RealChar(s: string, i: nat)
    requires i < |s|
  {
    s[i] == '.' || s[i] == 'e' || s[i] == 'E' || s[i] == '+' || (s[i] == '-' && i > 0)
  }

  predicate LooksReal(s: string) { exists i :: 0 <= i < |s| && RealChar(s, i) }

  datatype Digits = NotDigits | TooWide | Digits(value: nat)

  /** Digits from a place on, after those that made the value, as long as another one cannot overflow. */
  function Scan(s: string, k: nat, value: nat, threshold: nat): Digits
    requires k <= |s|
    decreases |s| - k
  {
    if k == |s| then Digits(value)
    else if !IsDigit(s[k]) then NotDigits
    else if value >= threshold then TooWide
    else Scan(s, k + 1, value * 10 + (s[k] - '0') as nat, threshold)
  }

  function Threshold(negative: bool): nat { if negative then 922337203685477580 else 1844674407370955161 }

  function RealOf(s: string, reals: string -> bool): Option<Value> { if reals(s) then Some(Real(s)) else None }

  /** The number a token stands for; `reals` are the texts sscanf can make a number of. */
  function NumberOf(s: string, reals: string -> bool): Option<Value>
    requires s != ""
  {
    if LooksReal(s) then RealOf(s, reals)
    else
      var negative := s[0] == '-';
      var digits := Scan(if negative then s[1..] else s, 0, 0, Threshold(negative));
      match digits
      case NotDigits => None
      case TooWide => RealOf(s, reals)
      case Digits(n) => Some(Number(if negative then 0 - n as int else n))
  }

  /** A number that is decoded as a real: it looks like one, or has too many digits. */
  predicate TakenAsReal(s: string)
    requires s != ""
  {
    var negative := s[0] == '-';
    LooksReal(s) || Scan(if negative then s[1..] else s, 0, 0, Threshold(negative)) == TooWide
  }

  /** A number whose decoding writes behind the buffer. */
  predicate Overruns(s: string) { |s| == 32 && TakenAsReal(s) }

  // ---- Values ----

  /** The next token that is not a comment. */
  function NextAt(doc: string, p: nat): (t: Token)
    requires p <= |doc|
    ensures p <= t.start <= t.end <= |doc| && t.kind != Comment
    ensures t.kind != EndOfStream ==> t.end > p && t.end > t.start
    ensures t.kind == String ==> t.end >= t.start + 2
    decreases |doc| - p
  {
    var t := TokenAt(doc, p);
    if t.kind == Comment then NextAt(doc, t.end) else t
  }

  /** Where the first token of the kind from a position on ends, or the stream. */
  function RecoverAt(doc: string, p: nat, kind: Kind): (q: nat)
    requires p <= |doc|
    ensures p <= q <= |doc|
    decreases |doc| - p
  {
    var t := TokenAt(doc, p);
    if t.kind == kind || t.kind == EndOfStream then t.end else RecoverAt(doc, t.end, kind)
  }

  /** The value at a position. */
  function ValueAt(doc: string, p: nat, reals: string -> bool): (r: Part<Value>)
    requires p <= |doc|
    ensures r.Part? ==> p < r.end <= |doc|
    decreases |doc| - p, 0
  {
    var t := NextAt(doc, p);
    if t.kind == ObjectBegin then MembersAt(doc, t.end, [], "", reals)
    else if t.kind == ArrayBegin then ArrayAt(doc, t.end, reals)
    else if t.kind == Numeral then
      var n := NumberOf(doc[t.start..t.end], reals);
      if n.Some? then Part(n.value, t.end) else Missing
    else if t.kind == String then
      var s := Chars(doc, t.start + 1, t.end - 1);
      if s.Some? then Part(Str(s.value), t.end) else Missing
    else if t.kind == True || t.kind == False then Part(Bool(t.kind == True), t.end)
    else if t.kind == Nil then Part(Null, t.end)
    else Missing
  }

  /** The rest of an array, after its opening bracket. */
  function ArrayAt(doc: string, p: nat, reals: string -> bool): (r: Part<Value>)
    requires p <= |doc|
    ensures r.Part? ==> p < r.end <= |doc|
    decreases |doc| - p, 2
  {
    var q := SkipSpaces(doc, p);
    if CharAt(doc, q) == ']' then Part(Array([]), q + 1)
    else
      var items := ItemsAt(doc, q, reals);
      if items.Part? then Part(Array(items.value), items.end) else Missing
  }

  /** Items up to the closing bracket; whatever token follows an item separates it from the next. */
  function ItemsAt(doc: string, p: nat, reals: string -> bool): (r: Part<seq<Value>>)
    requires p <= |doc|
    ensures r.Part? ==> p < r.end <= |doc|
    decreases |doc| - p, 1
  {
    var item := ValueAt(doc, p, reals);
    if item.Missing? then Missing
    else
      var t := NextAt(doc, item.end);
      if t.kind == ArrayEnd then Part([item.value], t.end)
      else
        var rest := ItemsAt(doc, t.end, reals);
        if rest.Missing? then Missing else Part([item.value] + rest.value, rest.end)
  }

  /** The members of an object from a position on, after others, of which the last had this name. */
  function MembersAt(doc: string, p: nat, members: seq<Member>, name: string, reals: string -> bool): (r: Part<Value>)
    requires p <= |doc|
    ensures r.Part? ==> p < r.end <= |doc|
    decreases |doc| - p, 1
  {
    var t := NextAt(doc, p);
    if t.kind == ObjectEnd && name == "" then Part(Object(members), t.end)
    else if t.kind != String then Missing
    else
      var m := MemberAt(doc, t, reals);
      if m.Missing? then Missing
      else
        var members' := Insert(members, Cut(m.value.name), m.value.value);
        var comma := CommaAt(doc, m.end);
        if comma.kind == ObjectEnd then Part(Object(members'), comma.end)
        else if comma.kind == Error then Missing
        else MembersAt(doc, comma.end, members', m.value.name, reals)
  }

  /** A member, of whose name this is the token. */
  function MemberAt(doc: string, t: Token, reals: string -> bool): (r: Part<Member>)
    requires t.start + 2 <= t.end <= |doc|
    ensures r.Part? ==> t.end < r.end <= |doc|
    decreases |doc| - t.end, 1
  {
    var s, colon := Chars(doc, t.start + 1, t.end - 1), TokenAt(doc, t.end);
    if s.None? || colon.kind != MemberSeparator then Missing
    else
      var v := ValueAt(doc, colon.end, reals);
      if v.Missing? then Missing else Part(Member(s.value, v.value), v.end)
  }

  /** The token after a member: a closing brace, a separator, or an error. After a comment, any token separates. */
  function CommaAt(doc: string, p: nat): (t: Token)
    requires p <= |doc|
    ensures p <= t.start <= t.end <= |doc| && (t.kind == ArraySeparator || t.kind == ObjectEnd || t.kind == Error)
    ensures t.kind == ObjectEnd ==> t.end > p
  {
    var t := TokenAt(doc, p);
    if t.kind == ArraySeparator || t.kind == ObjectEnd then t
    else if t.kind != Comment then Token(Error, t.start, t.end)
    else
      var next := NextAt(doc, t.end);
      if next.kind == ObjectEnd then next else Token(ArraySeparator, next.start, next.end)
  }

  // ---- Numbers that are decoded on the way ----

  /** How many numbers overrun the buffer when the value at a position is read, or failed to be read. */
  function ValueOverruns(doc: string, p: nat, reals: string -> bool): nat
    requires p <= |doc|
    decreases |doc| - p, 0
  {
    var t := NextAt(doc, p);
    if t.kind == ObjectBegin then MembersOverruns(doc, t.end, "", reals)
    else if t.kind == ArrayBegin then ArrayOverruns(doc, t.end, reals)
    else if t.kind == Numeral && Overruns(doc[t.start..t.end]) then 1
    else 0
  }

  function ArrayOverruns(doc: string, p: nat, reals: string -> bool): nat
    requires p <= |doc|
    decreases |doc| - p, 2
  {
    var q := SkipSpaces(doc, p);
    if CharAt(doc, q) == ']' then 0 else ItemsOverruns(doc, q, reals)
  }

  function ItemsOverruns(doc: string, p: nat, reals: string -> bool): nat
    requires p <= |doc|
    decreases |doc| - p, 1
  {
    var item := ValueAt(doc, p, reals);
    ValueOverruns(doc, p, reals) +
    if item.Missing? then 0
    else
      var t := NextAt(doc, item.end);
      if t.kind == ArrayEnd then 0 else ItemsOverruns(doc, t.end, reals)
  }

  function MembersOverruns(doc: string, p: nat, name: string, reals: string -> bool): nat
    requires p <= |doc|
    decreases |doc| - p, 1
  {
    var t := NextAt(doc, p);
    if (t.kind == ObjectEnd && name == "") || t.kind != String then 0
    else
      var m := MemberAt(doc, t, reals);
      MemberOverruns(doc, t, reals) +
      if m.Missing? then 0
      else
        var comma := CommaAt(doc, m.end);
        if comma.kind != ArraySeparator then 0 else MembersOverruns(doc, comma.end, m.value.name, reals)
  }

  function MemberOverruns(doc: string, t: Token, reals: string -> bool): nat
    requires t.start + 2 <= t.end <= |doc|
    decreases |doc| - t.end, 3
  {
    var colon := TokenAt(doc, t.end);
    if Chars(doc, t.start + 1, t.end - 1).None? || colon.kind != MemberSeparator then 0
    else ValueOverruns(doc, colon.end, reals)
  }

  // ---- Arrays, item by item ----

  /** The tokens after the items of an array. */
  function SepsAt(doc: string, p: nat, reals: string -> bool): seq<Token>
    requires p <= |doc|
    decreases |doc| - p
  {
    var item := ValueAt(doc, p, reals);
    if item.Missing? then []
    else
      var t := NextAt(doc, item.end);
      if t.kind == ArrayEnd then [t] else [t] + SepsAt(doc, t.end, reals)
  }

  /** The item starts here and the token follows it. */
  ghost predicate Linked(doc: string, p: nat, item: Value, sep: Token, reals: string -> bool) {
    && p <= |doc| && ValueAt(doc, p, reals).Part? && ValueAt(doc, p, reals).value == item
    && sep == NextAt(doc, ValueAt(doc, p, reals).end)
  }

  /** Items one after the other; of the tokens after them, the last is the only closing bracket. */
  ghost predicate Chain(doc: string, p: nat, starts: seq<nat>, items: seq<Value>, seps: seq<Token>,
                        reals: string -> bool) {
    && |starts| == |items| == |seps| > 0 && starts[0] == p
    && (forall i :: 0 <= i < |items| ==> Linked(doc, starts[i], items[i], seps[i], reals))
    && (forall i :: 0 <= i < |items| - 1 ==> starts[i + 1] == seps[i].end)
    && (forall i :: 0 <= i < |seps| ==> (seps[i].kind == ArrayEnd <==> i == |seps| - 1))
  }

  lemma {:induction false} ItemsChain(doc: string, p: nat, reals: string -> bool) returns (starts: seq<nat>)
    requires p <= |doc| && ItemsAt(doc, p, reals).Part?
    ensures Chain(doc, p, starts, ItemsAt(doc, p, reals).value, SepsAt(doc, p, reals), reals)
    decreases |doc| - p
  {
    hide ValueAt, NextAt, Chain, Linked;
    var item := ValueAt(doc, p, reals);
    var t := NextAt(doc, item.end);
    Link(doc, p, t, reals);
    if t.kind == ArrayEnd {
      starts := [p];
      LinkLast(doc, p, item.value, t, reals);
    } else {
      var rest := ItemsChain(doc, t.end, reals);
      starts := [p] + rest;
      LinkFirst(doc, p, item.value, t, rest, ItemsAt(doc, t.end, reals).value, SepsAt(doc, t.end, reals), reals);
    }
  }

  lemma Link(doc: string, p: nat, t: Token, reals: string -> bool)
    requires p <= |doc| && ValueAt(doc, p, reals).Part? && t == NextAt(doc, ValueAt(doc, p, reals).end)
    ensures Linked(doc, p, ValueAt(doc, p, reals).value, t, reals)
  {
    hide ValueAt, NextAt;
  }

  lemma LinkLast(doc: string, p: nat, item: Value, t: Token, reals: string -> bool)
    requires Linked(doc, p, item, t, reals) && t.kind == ArrayEnd
    ensures Chain(doc, p, [p], [item], [t], reals)
  {
    hide Linked;
  }

  lemma LinkFirst(
    doc: string, p: nat, item: Value, t: Token, starts: seq<nat>, items: seq<Value>, seps: seq<Token>,
    reals: string -> bool)
    requires Linked(doc, p, item, t, reals) && t.kind != ArrayEnd && Chain(doc, t.end, starts, items, seps, reals)
    ensures Chain(doc, p, [p] + starts, [item] + items, [t] + seps, reals)
  {
    hide Linked;
    forall i | 0 <= i < |items| + 1
      ensures Linked(doc, ([p] + starts)[i], ([item] + items)[i], ([t] + seps)[i], reals)
    {
      if i > 0 {
        assert Linked(doc, starts[i - 1], items[i - 1], seps[i - 1], reals);
      }
    }
  }

  lemma {:induction false} ChainItems(doc: string, p: nat, starts: seq<nat>, items: seq<Value>, seps: seq<Token>,
                                      reals: string -> bool)
    requires p <= |doc| && Chain(doc, p, starts, items, seps, reals)
    ensures ItemsAt(doc, p, reals) == Part(items, seps[|seps| - 1].end) && SepsAt(doc, p, reals) == seps
    decreases |items|
  {
    hide ValueAt, NextAt;
    var n := |items|;
    assert Linked(doc, starts[0], items[0], seps[0], reals);
    if n == 1 {
      assert seps == [seps[0]] && items == [items[0]];
    } else {
      assert starts[1] == seps[0].end;
      forall i | 0 <= i < |items| - 1 ensures Linked(doc, starts[1..][i], items[1..][i], seps[1..][i], reals) {
        assert Linked(doc, starts[i + 1], items[i + 1], seps[i + 1], reals);
      }
      ChainItems(doc, seps[0].end, starts[1..], items[1..], seps[1..], reals);
      assert items == [items[0]] + items[1..] && seps == [seps[0]] + seps[1..];
    }
  }

  /**
    The items of an array are read if and only if each of them is and the token after it is a closing bracket for
    the last and for no other; which other token it is makes no difference.
   */
  lemma ArrayReadIff(doc: string, p: nat, reals: string -> bool)
    requires p <= |doc|
    ensures ItemsAt(doc, p, reals).Part? <==> exists starts, items, seps :: Chain(doc, p, starts, items, seps, reals)
  {
    if ItemsAt(doc, p, reals).Part? {
      var starts := ItemsChain(doc, p, reals);
    }
    if starts, items, seps :| Chain(doc, p, starts, items, seps, reals) {
      ChainItems(doc, p, starts, items, seps, reals);
    }
  }

  /** What the test for a bad separator is there for: items up to the closing bracket, with commas between them. */
  function StrictItemsAt(doc: string, p: nat, reals: string -> bool): Part<seq<Value>>
    requires p <= |doc|
    decreases |doc| - p
  {
    var item := ValueAt(doc, p, reals);
    if item.Missing? then Missing
    else
      var t := NextAt(doc, item.end);
      if t.kind == ArrayEnd then Part([item.value], t.end)
      else if t.kind != ArraySeparator then Missing
      else
        var rest := StrictItemsAt(doc, t.end, reals);
        if rest.Missing? then Missing else Part([item.value] + rest.value, rest.end)
  }

  ghost predicate Commas(seps: seq<Token>) {
    forall i :: 0 <= i < |seps| - 1 ==> seps[i].kind == ArraySeparator
  }

  /** The items are what they should be if and only if none are read or commas separate them. */
  lemma {:induction false} RightWithCommas(doc: string, p: nat, reals: string -> bool)
    requires p <= |doc|
    ensures StrictItemsAt(doc, p, reals) == ItemsAt(doc, p, reals) <==>
            ItemsAt(doc, p, reals).Missing? || Commas(SepsAt(doc, p, reals))
    ensures StrictItemsAt(doc, p, reals).Part? ==> StrictItemsAt(doc, p, reals) == ItemsAt(doc, p, reals)
    decreases |doc| - p
  {
    hide ValueAt, NextAt;
    var item := ValueAt(doc, p, reals);
    if item.Part? {
      var t := NextAt(doc, item.end);
      if t.kind != ArrayEnd {
        RightWithCommas(doc, t.end, reals);
        if ItemsAt(doc, t.end, reals).Part? {
          SepsNonempty(doc, t.end, reals);
          CommasMore(t, SepsAt(doc, t.end, reals));
        }
      }
    }
  }

  lemma SepsNonempty(doc: string, p: nat, reals: string -> bool)
    requires p <= |doc| && ItemsAt(doc, p, reals).Part?
    ensures SepsAt(doc, p, reals) != []
  {
    hide ValueAt, NextAt;
  }

  lemma CommasMore(t: Token, seps: seq<Token>)
    requires seps != []
    ensures Commas([t] + seps) <==> t.kind == ArraySeparator && Commas(seps)
  {
    if Commas([t] + seps) {
      forall i | 0 <= i < |seps| - 1 ensures seps[i].kind == ArraySeparator {
        assert ([t] + seps)[i + 1] == seps[i];
      }
      assert ([t] + seps)[0] == t;
    }
  }
}
