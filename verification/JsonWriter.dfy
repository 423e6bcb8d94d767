/**
  The fast JSON writer, which appends to a document, and the law that ties it to the reader.
 */
module JsonWriter {
  import opened JsonText
  import opened Slices
  import opened JsonBack
  import JsonReader

  /** Digits from the last to the first, as uintToString fills its buffer. */
  method UIntToString(number: nat) returns (text: string)
    ensures text == Decimal(number)
  {
    text := "";
    var value := number;
    assert Decimal(value) + text == Decimal(number);
    while true
      invariant Decimal(value) + text == Decimal(number)
      decreases value
    {
      ghost var before := text;
      text := [Digit(value % 10)] + text;
      assert value >= 10 ==> Decimal(value / 10) + text == Decimal(value) + before;
      value := value / 10;
      if value == 0 {
        break;
      }
    }
  }

  method ValueToString(value: int) returns (text: string)
    ensures text == NumberText(value)
  {
    text := UIntToString(if value < 0 then -value else value);
    if value < 0 {
      text := "-" + text;
    }
  }

  predicate NeedsEscape(c: char) { Letter(c) != '\0' || IsControl(c) }

  lemma {:induction false} NothingEscaped(s: string)
    requires forall i :: 0 <= i < |Cut(s)| ==> !NeedsEscape(Cut(s)[i])
    ensures Escaped(s) == Cut(s)
  {
    if s != "" && s[0] != '\0' {
      assert Cut(s)[1..] == Cut(s[1..]);
      assert !NeedsEscape(Cut(s)[0]);
      forall i | 0 <= i < |Cut(s[1..])| ensures !NeedsEscape(Cut(s[1..])[i]) {
        assert Cut(s)[i + 1] == Cut(s[1..])[i];
      }
      NothingEscaped(s[1..]);
    }
  }

  /** The characters up to the first NUL are those before it. */
  lemma {:induction false} CutAt(s: string, i: nat)
    requires i <= |s| && (forall j :: 0 <= j < i ==> s[j] != '\0') && (i == |s| || s[i] == '\0')
    ensures Cut(s) == s[..i]
  {
    if i > 0 {
      CutAt(s[1..], i - 1);
      assert s[..i] == [s[0]] + s[1..][..i - 1];
    }
  }

  /** Whether any character of the C string needs escaping. */
  method FindSpecial(s: string) returns (found: bool, length: nat)
    ensures !found ==> length <= |s| && Cut(s) == s[..length] && Escaped(s) == s[..length]
  {
    var i := 0;
    while i < |s| && s[i] != '\0'
      invariant 0 <= i <= |s|
      invariant forall j :: 0 <= j < i ==> s[j] != '\0' && !NeedsEscape(s[j])
    {
      if NeedsEscape(s[i]) {
        return true, i;
      }
      i := i + 1;
    }
    CutAt(s, i);
    NothingEscaped(s);
    found, length := false, i;
  }

  method ValueToQuotedString(s: string) returns (text: string)
    ensures text == Quoted(s)
  {
    var special, length := FindSpecial(s);
    if !special {
      return "\"" + s[..length] + "\"";
    }
    text := "\"";
    var i := 0;
    assert s[0..] == s;
    while i < |s| && s[i] != '\0'
      invariant 0 <= i <= |s|
      invariant text + Escaped(s[i..]) == "\"" + Escaped(s)
    {
      assert s[i..][1..] == s[i + 1..];
      ghost var before := text;
      text := text + Escape(s[i]);
      assert text + Escaped(s[i + 1..]) == before + Escaped(s[i..]);
      i := i + 1;
    }
    assert Escaped(s[i..]) == "";
    text := text + "\"";
  }

  class Writer {
    var document: string

    constructor ()
      ensures document == ""
    {
      document := "";
    }

    method WriteValue(value: Value)
      modifies this
      ensures document == old(document) + Text(value)
      decreases value, 1
    {
      match value {
        case Null => document := document + "null";
        case Bool(b) => document := document + (if b then "true" else "false");
        case Number(n) => var text := ValueToString(n); document := document + text;
        case Real(text) => document := document + text;
        case Str(s) => var text := ValueToQuotedString(s); document := document + text;
        case Array(items) => WriteItems(value);
        case Object(members) => WriteMembers(value);
      }
    }

    method WriteItems(value: Value)
      requires value.Array?
      modifies this
      ensures document == old(document) + Text(value)
      decreases value, 0
    {
      var items := value.items;
      ghost var parts := Texts(items);
      assert Joined(parts[..0]) == "";
      hide Text, Joined, Texts;
      document := document + "[";
      ghost var start, done := document, "";
      for i := 0 to |items|
        invariant document == start + done && done == Joined(parts[..i])
      {
        JoinedMore(parts, i);
        Regroup(start, done, if i > 0 then "," else "", parts[i]);
        if i > 0 {
          document := document + ",";
        }
        WriteValue(items[i]);
        done := done + ((if i > 0 then "," else "") + parts[i]);
      }
      assert parts[..|items|] == parts;
      document := document + "]";
    }

    method WriteMember(m: Member)
      modifies this
      ensures document == old(document) + Pair(m)
      decreases m, 1
    {
      var name := ValueToQuotedString(m.name);
      document := document + name;
      document := document + ":";
      WriteValue(m.value);
    }

    method WriteMembers(value: Value)
      requires value.Object?
      modifies this
      ensures document == old(document) + Text(value)
      decreases value, 0
    {
      var members := value.members;
      ghost var parts := Pairs(members);
      assert Joined(parts[..0]) == "";
      hide Text, Joined, Pair, Pairs;
      document := document + "{";
      ghost var start, done := document, "";
      for i := 0 to |members|
        invariant document == start + done && done == Joined(parts[..i])
      {
        JoinedMore(parts, i);
        Regroup(start, done, if i > 0 then "," else "", parts[i]);
        if i > 0 {
          document := document + ",";
        }
        WriteMember(members[i]);
        done := done + ((if i > 0 then "," else "") + parts[i]);
      }
      assert parts[..|members|] == parts;
      document := document + "}";
    }
  }

  lemma {:induction false} JoinedMore(parts: seq<string>, i: nat)
    requires i < |parts|
    ensures Joined(parts[..i + 1]) == Joined(parts[..i]) + ((if i > 0 then "," else "") + parts[i])
    decreases |parts|
  {
    if i > 0 {
      assert parts[..i][1..] == parts[1..][..i - 1] && parts[..i + 1][1..] == parts[1..][..i];
      JoinedMore(parts[1..], i - 1);
    }
  }

  /** What is written is read back: every printable value survives the writer and the reader. */
  method RoundTrip(v: Value, reals: string -> bool) returns (ok: bool, w: Value, ghost overruns: nat)
    requires Printable(v)
    ensures ok && w == v && overruns == 0
  {
    hide *;
    var writer := new Writer();
    writer.WriteValue(v);
    PrintedReads(v, reals);
    assert "" + Text(v) == Text(v);
    var errors;
    ok, w, errors, overruns := JsonReader.Parse(writer.document, reals);
  }

  /** Parse accepts an array without a comma, and loses an item of it. */
  method OddArray(reals: string -> bool) returns (ok: bool, w: Value)
    ensures ok && w == Array([Number(1), Number(3)])
  {
    hide *;
    SpacesSeparate(reals);
    var errors;
    ghost var overruns;
    ok, w, errors, overruns := JsonReader.Parse("[1 2 3]", reals);
  }

  /** Parse of a number of 32 characters writes behind the buffer, and succeeds if sscanf does. */
  method Overrun(reals: string -> bool) returns (document: string, ok: bool, ghost overruns: nat)
    ensures |document| == 32 && overruns == 1 && (ok <==> reals(document))
  {
    hide *;
    LongRealOverruns(reals);
    document := LongReal();
    var w, errors;
    ok, w, errors, overruns := JsonReader.Parse(document, reals);
  }
}
