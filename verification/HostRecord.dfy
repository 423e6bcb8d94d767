/**
  The record a host publishes: its address and relays as JSON, in Base64, and what a client makes
  of it.
 */
module HostRecord {
  import opened JsonText
  import opened JsonBack
  import opened JsonGrammar
  import JsonReader
  import JsonWriter
  import Base64

  datatype Endpoint = Endpoint(host: string, socksPort: nat, quicPort: nat)

  datatype Relay = Relay(name: string, endpoints: seq<Endpoint>)

  /** An entry of an array: one that is passed over, one that makes the JSON library give up, or one taken. */
  datatype Entry<T> = Skipped | Aborted | Taken(value: T)

  datatype Outcome = Rejected | Failed | Accepted

  // ---- The record as JSON ----

  function EndpointValue(e: Endpoint): Value {
    Object([Member("host", Str(e.host)), Member("quic", Number(e.quicPort)), Member("socks", Number(e.socksPort))])
  }

  function EndpointValues(es: seq<Endpoint>): seq<Value> {
    seq(|es|, i requires 0 <= i < |es| => EndpointValue(es[i]))
  }

  function RelayValue(r: Relay): Value {
    Object([Member("endpoints", Array(EndpointValues(r.endpoints))), Member("name", Str(r.name))])
  }

  function RelayValues(rs: seq<Relay>): seq<Value> {
    seq(|rs|, i requires 0 <= i < |rs| => RelayValue(rs[i]))
  }

  function RecordValue(url: string, relays: seq<Relay>): Value {
    Object([Member("relays", Array(RelayValues(relays))), Member("url", Str(url))])
  }

  // ---- What the fields have to satisfy ----

  ghost predicate Text8(s: string) { NulFree(s) && Base64.AllBytes(s) }

  ghost predicate EndpointOk(e: Endpoint) { Text8(e.host) && e.socksPort < 65536 && e.quicPort < 65536 }

  ghost predicate RelayOk(r: Relay) {
    Text8(r.name) && forall i :: 0 <= i < |r.endpoints| ==> EndpointOk(r.endpoints[i])
  }

  ghost predicate RelaysOk(rs: seq<Relay>) { forall i :: 0 <= i < |rs| ==> RelayOk(rs[i]) }

  lemma NameOrder()
    ensures Less("host", "quic") && Less("quic", "socks") && Less("host", "socks") && Less("endpoints", "name")
            && Less("relays", "url")
  {
    assert "host"[0] == 'h' && "quic"[0] == 'q' && "socks"[0] == 's' && "endpoints"[0] == 'e' && "name"[0] == 'n'
           && "relays"[0] == 'r' && "url"[0] == 'u';
  }

  lemma EndpointPrintable(e: Endpoint)
    requires EndpointOk(e)
    ensures Printable(EndpointValue(e))
  {
    NameOrder();
    assert Printable(Str(e.host)) && Printable(Number(e.quicPort)) && Printable(Number(e.socksPort));
  }

  lemma RelayPrintable(r: Relay)
    requires RelayOk(r)
    ensures Printable(RelayValue(r))
  {
    NameOrder();
    var values := EndpointValues(r.endpoints);
    forall i | 0 <= i < |values| ensures Printable(values[i]) {
      EndpointPrintable(r.endpoints[i]);
    }
    assert Printable(Array(values)) && Printable(Str(r.name));
  }

  lemma RecordPrintable(url: string, relays: seq<Relay>)
    requires Text8(url) && RelaysOk(relays)
    ensures Printable(RecordValue(url, relays))
  {
    NameOrder();
    var values := RelayValues(relays);
    forall i | 0 <= i < |values| ensures Printable(values[i]) {
      RelayPrintable(relays[i]);
    }
    assert Printable(Array(values)) && Printable(Str(url));
  }

  // ---- The text is made of bytes ----

  ghost predicate Latin(v: Value)
    decreases v
  {
    match v
    case Str(s) => Base64.AllBytes(s)
    case Real(text) => Base64.AllBytes(text)
    case Array(items) => forall i :: 0 <= i < |items| ==> Latin(items[i])
    case Object(members) => forall i :: 0 <= i < |members| ==>
      Base64.AllBytes(members[i].name) && Latin(members[i].value)
    case _ => true
  }

  lemma {:induction false} EscapedBytes(s: string)
    requires Base64.AllBytes(s)
    ensures Base64.AllBytes(Escaped(s))
  {
    if s != "" && s[0] != '\0' {
      EscapedBytes(s[1..]);
      assert Base64.AllBytes(Escape(s[0]));
    }
  }

  lemma {:induction false} DecimalBytes(n: nat)
    ensures Base64.AllBytes(Decimal(n))
  {
    DecimalMeans(n);
  }

  lemma {:induction false} JoinedBytes(parts: seq<string>)
    requires forall i :: 0 <= i < |parts| ==> Base64.AllBytes(parts[i])
    ensures Base64.AllBytes(Joined(parts))
  {
    if |parts| > 1 {
      JoinedBytes(parts[1..]);
    }
  }

  lemma {:induction false} TextBytes(v: Value)
    requires Latin(v)
    ensures Base64.AllBytes(Text(v))
    decreases v
  {
    match v
    case Number(n) => DecimalBytes(if n < 0 then -n else n);
    case Str(s) => EscapedBytes(s);
    case Array(items) =>
      forall i | 0 <= i < |items| ensures Base64.AllBytes(Texts(items)[i]) {
        TextBytes(items[i]);
      }
      JoinedBytes(Texts(items));
    case Object(members) =>
      forall i | 0 <= i < |members| ensures Base64.AllBytes(Pairs(members)[i]) {
        EscapedBytes(members[i].name);
        TextBytes(members[i].value);
      }
      JoinedBytes(Pairs(members));
    case _ =>
  }

  lemma RecordLatin(url: string, relays: seq<Relay>)
    requires Text8(url) && RelaysOk(relays)
    ensures Latin(RecordValue(url, relays))
  {
    var values := RelayValues(relays);
    forall i | 0 <= i < |values| ensures Latin(values[i]) {
      var es := EndpointValues(relays[i].endpoints);
      forall j | 0 <= j < |es| ensures Latin(es[j]) {
        EndpointLatin(relays[i].endpoints[j]);
      }
      assert Latin(Array(es)) && Latin(Str(relays[i].name));
    }
    assert Latin(Array(values)) && Latin(Str(url));
  }

  lemma EndpointLatin(e: Endpoint)
    requires EndpointOk(e)
    ensures Latin(EndpointValue(e))
  {
    assert Latin(Str(e.host)) && Latin(Number(e.quicPort)) && Latin(Number(e.socksPort));
  }

  // ---- Reading the record ----

  /** asString of a string value: a C string. */
  function AsString(v: Value): string requires v.Str? { Cut(v.s) }

  /** The port a member gives, 0 if it gives none; a negative number makes asUInt throw. */
  function PortOf(v: Value): Entry<nat> {
    match v
    case Number(n) => if n < 0 then Aborted else Taken(n % 65536)
    case Bool(b) => Taken(if b then 1 else 0)
    case _ => Taken(0)
  }

  /** The members of what has to be an object, or null, which counts as an empty one. */
  function MembersOf(v: Value): Entry<seq<Member>> {
    match v case Object(members) => Taken(members) case Null => Taken([]) case _ => Aborted
  }

  function EndpointOf(v: Value): Entry<Endpoint> {
    var ms := MembersOf(v);
    if !ms.Taken? then Aborted
    else
      var host, socks, quic := Find(ms.value, "host"), PortOf(Find(ms.value, "socks")), PortOf(Find(ms.value, "quic"));
      if !host.Str? then Skipped
      else if !socks.Taken? || !quic.Taken? then Aborted
      else Taken(Endpoint(AsString(host), socks.value, quic.value))
  }

  lemma EndpointBack(e: Endpoint)
    requires EndpointOk(e)
    ensures EndpointOf(EndpointValue(e)) == Taken(e)
  {
    NameOrder();
    CutNothing(e.host);
    var ms := EndpointValue(e).members;
    LessIsStrict("host", "quic");
    LessIsStrict("quic", "socks");
    LessIsStrict("host", "socks");
    assert Find(ms, "host") == Str(e.host);
    assert Find(ms, "quic") == Find(ms[1..], "quic") == Number(e.quicPort);
    assert Find(ms, "socks") == Find(ms[1..], "socks") == Find(ms[1..][1..], "socks") == Number(e.socksPort);
  }

  lemma TwoMembers(a: Member, b: Member)
    requires Less(a.name, b.name)
    ensures Find([a, b], a.name) == a.value && Find([a, b], b.name) == b.value
  {
    LessIsStrict(a.name, b.name);
    assert [a, b][1..] == [b];
  }

  method RelayOf(v: Value, ghost r: Relay) returns (entry: Entry<Relay>)
    ensures RelayOk(r) && v == RelayValue(r) ==> entry == Taken(r)
  {
    ghost var good := RelayOk(r) && v == RelayValue(r);
    if good {
      NameOrder();
      TwoMembers(v.members[0], v.members[1]);
      CutNothing(r.name);
    }
    var ms := MembersOf(v);
    if !ms.Taken? {
      return Aborted;
    }
    var name, list := Find(ms.value, "name"), Find(ms.value, "endpoints");
    if !name.Str? || !list.Array? {
      return Skipped;
    }
    var endpoints: seq<Endpoint> := [];
    for j := 0 to |list.items|
      invariant good ==> endpoints == r.endpoints[..j]
    {
      if good {
        EndpointBack(r.endpoints[j]);
      }
      var endpoint := EndpointOf(list.items[j]);
      if endpoint.Aborted? {
        return Aborted;
      }
      if endpoint.Taken? {
        endpoints := endpoints + [endpoint.value];
      }
    }
    assert good ==> r.endpoints[..|list.items|] == r.endpoints;
    entry := Taken(Relay(AsString(name), endpoints));
  }

  class HostInfo {
    var url: string
    var relays: seq<Relay>

    constructor (url: string, relays: seq<Relay>)
      ensures this.url == url && this.relays == relays
    {
      this.url, this.relays := url, relays;
    }

    method ToText() returns (text: string)
      ensures text == Text(RecordValue(url, relays))
    {
      var list: seq<Value> := [];
      for i := 0 to |relays|
        invariant list == RelayValues(relays[..i])
      {
        var endpoints: seq<Value> := [];
        for j := 0 to |relays[i].endpoints|
          invariant endpoints == EndpointValues(relays[i].endpoints[..j])
        {
          var e := EndpointObject(relays[i].endpoints[j]);
          endpoints := endpoints + [e];
        }
        assert relays[i].endpoints[..|relays[i].endpoints|] == relays[i].endpoints;
        var r := PairObject("name", Str(relays[i].name), "endpoints", Array(endpoints));
        list := list + [r];
      }
      assert relays[..|relays|] == relays;
      var record := PairObject("url", Str(url), "relays", Array(list));
      var writer := new JsonWriter.Writer();
      writer.WriteValue(record);
      text := writer.document;
    }

    /** Takes over the address and appends the relays of a record; the ghosts name the record, if it is one. */
    method FromText(text: string, reals: string -> bool, ghost url0: string, ghost relays0: seq<Relay>)
      returns (outcome: Outcome)
      modifies this
      ensures Text8(url0) && RelaysOk(relays0) && text == Text(RecordValue(url0, relays0)) ==>
                outcome == Accepted && url == url0 && relays == old(relays) + relays0
      ensures outcome == Rejected ==> url == old(url) && relays == old(relays)
      ensures old(relays) <= relays
    {
      hide Text, Printable, ValueAt, ValueOverruns, Less, Cut, Find, RelayOk;
      ghost var good := Text8(url0) && RelaysOk(relays0) && text == Text(RecordValue(url0, relays0));
      ghost var record := RecordValue(url0, relays0);
      if good {
        RecordPrintable(url0, relays0);
        PrintedReads(record, reals);
        NameOrder();
        TwoMembers(record.members[0], record.members[1]);
        CutNothing(url0);
      }
      var ok, obj, errors, _ := JsonReader.Parse(text, reals);
      if !ok || !obj.Object? || !Find(obj.members, "url").Str? {
        return Rejected;
      }
      url := AsString(Find(obj.members, "url"));
      var list := Find(obj.members, "relays");
      if !list.Array? {
        return Accepted;
      }
      for i := 0 to |list.items|
        invariant old(relays) <= relays
        invariant good ==> url == url0 && relays == old(relays) + relays0[..i]
      {
        var entry := RelayOf(list.items[i], if good then relays0[i] else Relay("", []));
        if entry.Aborted? {
          return Failed;
        }
        if entry.Taken? {
          relays := relays + [entry.value];
        }
      }
      outcome := Accepted;
    }
  }

  method EndpointObject(e: Endpoint) returns (v: Value)
    ensures v == EndpointValue(e)
  {
    NameOrder();
    var ms := Insert([], "host", Str(e.host));
    InsertLast(ms, "socks", Number(e.socksPort));
    ms := Insert(ms, "socks", Number(e.socksPort));
    InsertBetween(ms[0], "quic", Number(e.quicPort), ms[1]);
    ms := Insert(ms, "quic", Number(e.quicPort));
    v := Object(ms);
  }

  lemma InsertBetween(a: Member, name: string, value: Value, b: Member)
    requires Less(a.name, name) && Less(name, b.name)
    ensures Insert([a, b], name, value) == [a, Member(name, value), b]
  {
    LessIsStrict(a.name, name);
    assert [a, b][1..] == [b];
  }

  /** An object of two members, set one after the other. */
  method PairObject(second: string, secondValue: Value, first: string, firstValue: Value) returns (v: Value)
    ensures Less(first, second) ==> v == Object([Member(first, firstValue), Member(second, secondValue)])
  {
    var ms := Insert([], second, secondValue);
    ms := Insert(ms, first, firstValue);
    v := Object(ms);
  }

  /** What a host publishes is what a client gets, through the text that the network stores. */
  method Publish(url: string, relays: seq<Relay>, reals: string -> bool)
    returns (outcome: Outcome, url': string, relays': seq<Relay>)
    requires Text8(url) && RelaysOk(relays)
    ensures outcome == Accepted && url' == url && relays' == relays
  {
    var host := new HostInfo(url, relays);
    var text := host.ToText();
    RecordLatin(url, relays);
    TextBytes(RecordValue(url, relays));
    var stored := Base64.Encode(text);
    Base64.EncodedLength(text);
    var fetched := Base64.Decode(stored, text);
    var client := new HostInfo("", []);
    outcome := client.FromText(fetched, reals, url, relays);
    url', relays' := client.url, client.relays;
  }
}
