/**
  JSON values and the text the fast writer prints for them: no spaces, members in order of name.
  A character is one byte of a C string.
 */
module JsonText {
  datatype Value =
    | Null | Bool(b: bool) | Number(n: int) | Real(text: string) | Str(s: string)
    | Array(items: seq<Value>) | Object(members: seq<Member>)

  datatype Member = Member(name: string, value: Value)

  // ---- Numbers ----

  function Digit(d: nat): char requires d < 10 { d as char + '0' }

  function Decimal(n: nat): (r: string)
    ensures r != ""
  {
    if n < 10 then [Digit(n)] else Decimal(n / 10) + [Digit(n % 10)]
  }

  function NumberText(n: int): string { if n < 0 then "-" + Decimal(-n) else Decimal(n) }

  predicate IsDigit(c: char) { '0' <= c <= '9' }

  ghost predicate AllDigits(s: string) { forall i :: 0 <= i < |s| ==> IsDigit(s[i]) }

  /** The number a text of digits stands for. */
  ghost function Meaning(s: string): nat
    requires AllDigits(s)
  {
    if s == "" then 0 else 10 * Meaning(s[..|s| - 1]) + (s[|s| - 1] - '0') as nat
  }

  lemma {:induction false} DecimalMeans(n: nat)
    ensures AllDigits(Decimal(n)) && Meaning(Decimal(n)) == n
    ensures Meaning(Decimal(n)[..|Decimal(n)| - 1]) == n / 10
  {
    if n >= 10 {
      DecimalMeans(n / 10);
      assert Decimal(n)[..|Decimal(n)| - 1] == Decimal(n / 10);
    } else {
      assert Decimal(n)[..0] == "";
    }
  }

  // ---- Strings ----

  predicate IsControl(c: char) { '\0' < c <= 31 as char }

  function Hex(d: nat): char requires d < 16 { if d < 10 then d as char + '0' else (d - 10) as char + 'A' }

  /** The letter that stands for the character after a backslash, or NUL if it has none. */
  function Letter(c: char): char {
    if c == '"' then '"' else if c == '\\' then '\\'
    else if c == 8 as char then 'b' else if c == 12 as char then 'f'
    else if c == '\n' then 'n' else if c == '\r' then 'r' else if c == '\t' then 't' else '\0'
  }

  function Escape(c: char): string {
    if Letter(c) != '\0' then ['\\', Letter(c)]
    else if IsControl(c) then ['\\', 'u', '0', '0', Hex(c as nat / 16), Hex(c as nat % 16)]
    else [c]
  }

  /** A C string ends at its first NUL. */
  function Escaped(s: string): string {
    if s == "" || s[0] == '\0' then "" else Escape(s[0]) + Escaped(s[1..])
  }

  function Cut(s: string): string {
    if s == "" || s[0] == '\0' then "" else [s[0]] + Cut(s[1..])
  }

  lemma {:induction false} CutNothing(s: string)
    requires NulFree(s)
    ensures Cut(s) == s
  {
    if s != "" {
      CutNothing(s[1..]);
    }
  }

  function Quoted(s: string): string { "\"" + Escaped(s) + "\"" }

  // ---- Values ----

  function Text(v: Value): string
    decreases v
  {
    match v
    case Null => "null"
    case Bool(b) => if b then "true" else "false"
    case Number(n) => NumberText(n)
    case Real(text) => text
    case Str(s) => Quoted(s)
    case Array(items) => "[" + Joined(seq(|items|, i requires 0 <= i < |items| => Text(items[i]))) + "]"
    case Object(members) => "{" + Joined(seq(|members|, i requires 0 <= i < |members| => Pair(members[i]))) + "}"
  }

  function Pair(m: Member): string
    decreases m
  {
    Quoted(m.name) + ":" + Text(m.value)
  }

  /** The parts with commas between them. */
  function Joined(parts: seq<string>): string {
    if parts == [] then "" else if |parts| == 1 then parts[0] else parts[0] + "," + Joined(parts[1..])
  }

  function Texts(items: seq<Value>): (r: seq<string>)
    ensures |r| == |items| && forall i :: 0 <= i < |r| ==> r[i] == Text(items[i])
    ensures Text(Array(items)) == "[" + Joined(r) + "]"
  {
    seq(|items|, i requires 0 <= i < |items| => Text(items[i]))
  }

  function Pairs(members: seq<Member>): (r: seq<string>)
    ensures |r| == |members| && forall i :: 0 <= i < |r| ==> r[i] == Pair(members[i])
    ensures Text(Object(members)) == "{" + Joined(r) + "}"
  {
    seq(|members|, i requires 0 <= i < |members| => Pair(members[i]))
  }

  /** Names in a map of C strings are compared by strcmp. */
  predicate Less(a: string, b: string) {
    b != "" && (a == "" || a[0] < b[0] || (a[0] == b[0] && Less(a[1..], b[1..])))
  }

  lemma {:induction false} LessIsStrict(a: string, b: string)
    requires Less(a, b)
    ensures !Less(b, a) && a != b
  {
    if a != "" && a[0] == b[0] {
      LessIsStrict(a[1..], b[1..]);
    }
  }

  ghost predicate NulFree(s: string) { forall i :: 0 <= i < |s| ==> s[i] != '\0' }

  /** The reader keeps the number an integer: ten times smaller, it is below a tenth of the largest one. */
  predicate Fits(n: int) {
    if n < 0 then -n / 10 < 922337203685477580 else n / 10 < 1844674407370955161
  }

  /** No reals, strings without NUL, numbers the reader keeps integral, names in order. */
  ghost predicate Printable(v: Value)
    decreases v
  {
    match v
    case Null => true
    case Bool(_) => true
    case Number(n) => Fits(n)
    case Real(_) => false
    case Str(s) => NulFree(s)
    case Array(items) => forall i :: 0 <= i < |items| ==> Printable(items[i])
    case Object(members) =>
      && (forall i :: 0 <= i < |members| ==> NulFree(members[i].name) && Printable(members[i].value))
      && (forall i, j :: 0 <= i < j < |members| ==> Less(members[i].name, members[j].name))
  }

  /** What currentValue()[name] = value does to an object. */
  function Insert(ms: seq<Member>, name: string, value: Value): seq<Member> {
    if ms == [] || Less(name, ms[0].name) then [Member(name, value)] + ms
    else if ms[0].name == name then [Member(name, value)] + ms[1..]
    else [ms[0]] + Insert(ms[1..], name, value)
  }

  /** The value of a member, null if there is none yet. */
  function Find(ms: seq<Member>, name: string): Value {
    if ms == [] then Null else if ms[0].name == name then ms[0].value else Find(ms[1..], name)
  }

  lemma {:induction false} InsertLast(ms: seq<Member>, name: string, value: Value)
    requires forall i :: 0 <= i < |ms| ==> Less(ms[i].name, name)
    ensures Insert(ms, name, value) == ms + [Member(name, value)]
  {
    if ms != [] {
      LessIsStrict(ms[0].name, name);
      InsertLast(ms[1..], name, value);
    }
  }
}
