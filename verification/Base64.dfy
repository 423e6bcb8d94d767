/**
  Base64 as in section 4 of RFC 4648, over strings of bytes. The decoder skips what is no digit and
  runs over the end of its input with digits left from before.
 */
module Base64 {
  /** A character that is one byte. */
  predicate IsByte(c: char) { c < 256 as char }

  ghost predicate AllBytes(s: string) { forall i :: 0 <= i < |s| ==> IsByte(s[i]) }

  ghost predicate SevenBit(s: string) { forall i :: 0 <= i < |s| ==> s[i] < 128 as char }

  function EncodeMap(d: nat): (c: char)
    requires d < 64
    ensures c < 128 as char
  {
    if d < 26 then 'A' + d as char
    else if d < 52 then 'a' + (d - 26) as char
    else if d < 62 then '0' + (d - 52) as char
    else if d == 62 then '+' else '/'
  }

  /** The digit a character stands for, or 255. */
  function DecodeMap(c: char): (d: nat)
    ensures d < 64 || d == 255
  {
    if 'A' <= c <= 'Z' then (c - 'A') as nat
    else if 'a' <= c <= 'z' then (c - 'a') as nat + 26
    else if '0' <= c <= '9' then (c - '0') as nat + 52
    else if c == '+' then 62 else if c == '/' then 63 else 255
  }

  lemma DecodeMapInverts(d: nat)
    requires d < 64
    ensures DecodeMap(EncodeMap(d)) == d
  {
  }

  /** Four digits for three bytes, and back. */
  function Digits(a: char, b: char, c: char): (r: string)
    requires IsByte(a) && IsByte(b) && IsByte(c)
    ensures |r| == 4 && SevenBit(r)
  {
    var (x, y, z) := (a as nat, b as nat, c as nat);
    [EncodeMap(x / 4), EncodeMap(x % 4 * 16 + y / 16), EncodeMap(y % 16 * 4 + z / 64), EncodeMap(z % 64)]
  }

  function First(d1: nat, d2: nat): char requires d1 < 64 && d2 < 64 { (d1 * 4 + d2 / 16) as char }
  function Second(d2: nat, d3: nat): char requires d2 < 64 && d3 < 64 { (d2 % 16 * 16 + d3 / 4) as char }
  function Third(d3: nat, d4: nat): char requires d3 < 64 && d4 < 64 { (d3 % 4 * 64 + d4) as char }

  /** The text for some bytes. */
  function Encoded(s: string): string
    requires AllBytes(s)
  {
    if s == "" then ""
    else if |s| == 1 then Digits(s[0], '\0', '\0')[..2] + "=="
    else if |s| == 2 then Digits(s[0], s[1], '\0')[..3] + "="
    else Digits(s[0], s[1], s[2]) + Encoded(s[3..])
  }

  lemma {:induction false} EncodedLength(s: string)
    requires AllBytes(s)
    ensures |Encoded(s)| == 4 * ((|s| + 2) / 3) && SevenBit(Encoded(s))
  {
    hide EncodeMap, Digits;
    if |s| >= 3 {
      EncodedLength(s[3..]);
    }
  }

  method Encode(source: string) returns (target: string)
    requires AllBytes(source)
    ensures target == Encoded(source) && |target| == 4 * ((|source| + 2) / 3)
  {
    EncodedLength(source);
    target := "";
    var i := 0;
    while |source| - i >= 3
      invariant 0 <= i <= |source| && target + Encoded(source[i..]) == Encoded(source)
    {
      assert source[i..][3..] == source[i + 3..];
      target := target + Digits(source[i], source[i + 1], source[i + 2]);
      i := i + 3;
    }
    ghost var rest := source[i..];
    if |source| - i == 1 {
      target := target + Digits(source[i], '\0', '\0')[..2] + "==";
    } else if |source| - i == 2 {
      target := target + Digits(source[i], source[i + 1], '\0')[..3] + "=";
    }
  }

  /** Reads on to the next digit. Stops at the end if what is left holds none; at the end it keeps the digit it had. */
  method NextDigit(source: string, p: nat, digit: nat) returns (stop: bool, p': nat, digit': nat)
    requires p <= |source| && digit < 64
    ensures p <= p' <= |source| && digit' < 64 && (stop ==> p' == |source|)
    ensures p == |source| ==> !stop && digit' == digit
    ensures p < |source| ==> p' > p
    ensures p < |source| && DecodeMap(source[p]) != 255 ==> !stop && p' == p + 1 && digit' == DecodeMap(source[p])
    ensures p < |source| && (forall i :: p <= i < |source| ==> DecodeMap(source[i]) == 255) ==> stop
  {
    stop, p', digit' := false, p, digit;
    while p' < |source|
      invariant p <= p' <= |source| && !stop && digit' == digit && (p < |source| ==> p' < |source|)
      invariant forall i :: p <= i < p' ==> DecodeMap(source[i]) == 255
    {
      var d := DecodeMap(source[p']);
      p' := p' + 1;
      assert d == DecodeMap(source[p' - 1]);
      if d != 255 {
        digit' := d;
        return;
      }
      if p' == |source| {
        stop := true;
        return;
      }
    }
  }

  lemma DigitsInvert(a: char, b: char, c: char)
    requires IsByte(a) && IsByte(b) && IsByte(c)
    ensures var d := Digits(a, b, c);
            var (d1, d2, d3, d4) := (DecodeMap(d[0]), DecodeMap(d[1]), DecodeMap(d[2]), DecodeMap(d[3]));
            d1 < 64 && d2 < 64 && d3 < 64 && d4 < 64 && First(d1, d2) == a && Second(d2, d3) == b && Third(d3, d4) == c
  {
    var (x, y, z) := (a as nat, b as nat, c as nat);
    DecodeMapInverts(x / 4);
    DecodeMapInverts(x % 4 * 16 + y / 16);
    DecodeMapInverts(y % 16 * 4 + z / 64);
    DecodeMapInverts(z % 64);
    assert (x % 4 * 16 + y / 16) / 16 == x % 4 && (x % 4 * 16 + y / 16) % 16 == y / 16;
    assert (y % 16 * 4 + z / 64) / 4 == y % 16 && (y % 16 * 4 + z / 64) % 4 == z / 64;
  }

  /** What lies ahead when the text of some bytes does: two digits, and two more or padding up to the end. */
  ghost predicate Ahead(source: string, p: nat, rest: string)
    requires AllBytes(rest)
  {
    rest != "" && p + 4 <= |source| &&
    var (d1, d2, d3, d4) :=
          (DecodeMap(source[p]), DecodeMap(source[p + 1]), DecodeMap(source[p + 2]), DecodeMap(source[p + 3]));
    && d1 != 255 && d2 != 255 && First(d1, d2) == rest[0]
    && (if |rest| == 1 then p + 4 == |source| && d3 == d4 == 255
        else d3 != 255 && Second(d2, d3) == rest[1] &&
             if |rest| == 2 then p + 4 == |source| && d4 == 255
             else d4 != 255 && Third(d3, d4) == rest[2])
  }

  lemma EncodedEmpty(s: string)
    requires AllBytes(s)
    ensures Encoded(s) == "" <==> s == ""
  {
  }

  /** A group of digits for every four characters, and one more for what is left. */
  lemma Room(length: nat, groups: nat)
    requires 4 * groups <= length + 3
    ensures 3 * groups <= 3 * ((length + 3) / 4)
  {
  }

  lemma PaddingIsNoDigit()
    ensures DecodeMap('=') == 255
  {
  }

  lemma EncodedAhead(source: string, p: nat, rest: string)
    requires p <= |source| && AllBytes(rest) && rest != "" && source[p..] == Encoded(rest)
    ensures Ahead(source, p, rest)
    ensures |rest| >= 3 ==> source[p + 4..] == Encoded(rest[3..])
  {
    hide DecodeMap, Encoded, Digits, First, Second, Third;
    var b, c := if |rest| > 1 then rest[1] else '\0', if |rest| > 2 then rest[2] else '\0';
    var d, e := Digits(rest[0], b, c), Encoded(rest);
    DigitsInvert(rest[0], b, c);
    EncodedParts(rest, d);
    PaddingIsNoDigit();
    assert source[p + 4..] == e[4..];
    assert source[p] == e[0] && source[p + 1] == e[1] && source[p + 2] == e[2] && source[p + 3] == e[3];
  }

  lemma EncodedParts(s: string, d: string)
    requires AllBytes(s) && s != "" && d == Digits(s[0], if |s| > 1 then s[1] else '\0', if |s| > 2 then s[2] else '\0')
    ensures var e := Encoded(s);
            && |e| >= 4 && e[0] == d[0] && e[1] == d[1] && e[2] == (if |s| == 1 then '=' else d[2])
            && e[3] == (if |s| < 3 then '=' else d[3])
            && (if |s| < 3 then |e| == 4 else e[4..] == Encoded(s[3..]))
  {
    hide EncodeMap;
  }

  /** The four digits read last. */
  datatype Group = Group(d1: nat, d2: nat, d3: nat, d4: nat) {
    predicate Valid() { d1 < 64 && d2 < 64 && d3 < 64 && d4 < 64 }
  }

  /** One group of digits. It is the last if nothing but padding was left for one of them. */
  method DecodeGroup(source: string, p: nat, before: Group, ghost rest: string)
    returns (last: bool, p': nat, b: Group, chunk: string)
    requires p < |source| && before.Valid() && AllBytes(rest)
    ensures p < p' <= |source| && b.Valid() && |chunk| <= 3
    ensures !last ==> |chunk| == 3 && (p' == |source| || p' >= p + 4)
    ensures Ahead(source, p, rest) ==>
              if |rest| < 3 then last && chunk == rest else !last && chunk == rest[..3] && p' == p + 4
  {
    hide DecodeMap, First, Second, Third, Encoded;
    b, chunk := before, "";
    var d;
    last, p', d := NextDigit(source, p, b.d1);
    b := b.(d1 := d);
    if last {
      return;
    }
    last, p', d := NextDigit(source, p', b.d2);
    b := b.(d2 := d);
    if last {
      return;
    }
    last, p', d := NextDigit(source, p', b.d3);
    b, chunk := b.(d3 := d), [First(b.d1, b.d2)];
    if last {
      return;
    }
    last, p', d := NextDigit(source, p', b.d4);
    b, chunk := b.(d4 := d), chunk + [Second(b.d2, b.d3)];
    if last {
      return;
    }
    chunk := chunk + [Third(b.d3, b.d4)];
  }

  /**
    Decodes any text of seven-bit characters. It never writes more than the length computed for it, and
    restores the bytes whose text it is given, if it is given one.
   */
  method Decode(source: string, ghost bytes: string) returns (target: string)
    requires SevenBit(source)
    ensures |target| <= 3 * ((|source| + 3) / 4)
    ensures AllBytes(bytes) && source == Encoded(bytes) ==> target == bytes
  {
    hide Encoded, Ahead;
    target := "";
    var b, p, last := Group(0, 0, 0, 0), 0, false;
    ghost var good, rounds := AllBytes(bytes) && source == Encoded(bytes), 0;
    ghost var rest := if good then bytes else "";
    while p < |source|
      invariant 0 <= p <= |source| && b.Valid()
      invariant |target| == 3 * rounds && (p < |source| ==> 4 * rounds <= p) && 4 * rounds <= |source| + 3
      invariant AllBytes(rest)
      invariant good ==> target + rest == bytes && source[p..] == Encoded(rest)
    {
      if good {
        EncodedEmpty(rest);
        EncodedAhead(source, p, rest);
      }
      var chunk;
      last, p, b, chunk := DecodeGroup(source, p, b, rest);
      target := target + chunk;
      rest := if good && |rest| >= 3 then rest[3..] else "";
      if last {
        Room(|source|, rounds + 1);
        return;
      }
      rounds := rounds + 1;
    }
    if good {
      EncodedEmpty(rest);
    }
    Room(|source|, rounds);
  }

  /** Every string of bytes survives encoding and decoding. */
  method RoundTrip(s: string) returns (r: string)
    requires AllBytes(s)
    ensures r == s
  {
    var text := Encode(s);
    EncodedLength(s);
    r := Decode(text, s);
  }
}
