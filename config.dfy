/** A JSON value as `json.load` returns it; the proxy's configuration document is one of these. */
module JsonValue {
  import opened Wrappers

  datatype Json =
    | Null
    | Bool(b: bool)
    | Num(n: int)
    | Str(s: string)
    | Arr(items: seq<Json>)
    | Obj(fields: map<string, Json>)

  /** `j[key]` on an object, or `None` where Python would raise. */
  function Field(j: Json, key: string): (r: Option<Json>)
    ensures r.Some? <==> j.Obj? && key in j.fields
    ensures r.Some? ==> r.value == j.fields[key]
  {
    if j.Obj? && key in j.fields then Some(j.fields[key]) else None
  }
}

/**
 * The parts of the Xray configuration document that the user manager reads
 * and writes: the client records of the first inbound, its protocol, port
 * and REALITY server names, and the write-back of the client list.
 */
module XrayConfig {
  import opened Wrappers
  import opened JsonValue

  /** The flow every client is created with. */
  const Flow := "xtls-rprx-vision"

  /** One entry of `inbounds[0].settings.clients`. */
  datatype Client = Client(email: string, id: string, flow: string)

  function ClientToJson(c: Client): Json {
    Obj(map["email" := Str(c.email), "id" := Str(c.id), "flow" := Str(c.flow)])
  }

  /** Reads a client object with exactly the three string fields the manager writes. */
  function ClientFromJson(j: Json): (r: Option<Client>)
    ensures r.Some? ==> ClientToJson(r.value) == j
  {
    if j.Obj? && j.fields.Keys == {"email", "id", "flow"}
       && j.fields["email"].Str? && j.fields["id"].Str? && j.fields["flow"].Str?
    then
      var c := Client(j.fields["email"].s, j.fields["id"].s, j.fields["flow"].s);
      assert ClientToJson(c).fields == j.fields;
      Some(c)
    else None
  }

  lemma ClientRoundTrip(c: Client)
    ensures ClientFromJson(ClientToJson(c)) == Some(c)
  {
  }

  function ClientsToJson(cs: seq<Client>): (items: seq<Json>)
    ensures |items| == |cs|
    ensures forall i :: 0 <= i < |cs| ==> items[i] == ClientToJson(cs[i])
  {
    seq(|cs|, i requires 0 <= i < |cs| => ClientToJson(cs[i]))
  }

  /** Writing a list is writing its head in front of its tail. */
  lemma ClientsToJsonCons(c: Client, cs: seq<Client>)
    ensures ClientsToJson([c] + cs) == [ClientToJson(c)] + ClientsToJson(cs)
  {
    assert forall i :: 1 <= i <= |cs| ==> ([c] + cs)[i] == cs[i - 1];
  }

  /** Reads a JSON list of client objects; `None` if any entry is not a client object. */
  function ClientsFromJson(items: seq<Json>): (r: Option<seq<Client>>)
    ensures r.Some? ==> ClientsToJson(r.value) == items
  {
    if items == [] then Some([])
    else
      var head := ClientFromJson(items[0]);
      var tail := ClientsFromJson(items[1..]);
      if head.Some? && tail.Some? then
        var cs := [head.value] + tail.value;
        ClientsToJsonCons(head.value, tail.value);
        assert items == [items[0]] + items[1..];
        Some(cs)
      else None
  }

  lemma {:induction false} ClientsRoundTrip(cs: seq<Client>)
    ensures ClientsFromJson(ClientsToJson(cs)) == Some(cs)
  {
    var items := ClientsToJson(cs);
    if cs != [] {
      ClientRoundTrip(cs[0]);
      ClientsRoundTrip(cs[1..]);
      assert items[1..] == ClientsToJson(cs[1..]);
      assert [cs[0]] + cs[1..] == cs;
    }
  }

  function StringsToJson(ss: seq<string>): (items: seq<Json>)
    ensures |items| == |ss|
    ensures forall i :: 0 <= i < |ss| ==> items[i] == Str(ss[i])
  {
    seq(|ss|, i requires 0 <= i < |ss| => Str(ss[i]))
  }

  /** Reads a JSON list of strings; `None` if any entry is not a string. */
  function StringsFromJson(items: seq<Json>): (r: Option<seq<string>>)
    ensures r.Some? <==> forall i :: 0 <= i < |items| ==> items[i].Str?
    ensures r.Some? ==> StringsToJson(r.value) == items
  {
    if forall i :: 0 <= i < |items| ==> items[i].Str? then
      Some(seq(|items|, i requires 0 <= i < |items| => items[i].s))
    else None
  }

  // ---------------------------------------------------------------------
  // Reading the document

  /** `cfg["inbounds"][0]`. */
  function Inbound(doc: Json): Option<Json> {
    match Field(doc, "inbounds")
    case Some(Arr(items)) => if items != [] then Some(items[0]) else None
    case _ => None
  }

  /** `cfg["inbounds"][0]["settings"]`, which must be an object for the write-back. */
  function Settings(doc: Json): Option<Json> {
    match Inbound(doc)
    case None => None
    case Some(inbound) =>
      match Field(inbound, "settings")
      case Some(settings) => if settings.Obj? then Some(settings) else None
      case None => None
  }

  /**
   * `get_users`: `cfg["inbounds"][0]["settings"]["clients"]`, as client
   * records. The records are exactly what the `clients` list holds.
   */
  function Users(doc: Json): (r: Option<seq<Client>>)
    ensures r.Some? ==> Settings(doc).Some?
                        && Field(Settings(doc).value, "clients") == Some(Arr(ClientsToJson(r.value)))
  {
    match Settings(doc)
    case None => None
    case Some(settings) =>
      match Field(settings, "clients")
      case Some(Arr(items)) => ClientsFromJson(items)
      case _ => None
  }

  /** `cfg["inbounds"][0]["protocol"]`: the string stored there, `None` where there is none. */
  function Protocol(doc: Json): (r: Option<string>)
    ensures r.Some? ==> Inbound(doc).Some? && Field(Inbound(doc).value, "protocol") == Some(Str(r.value))
    ensures r.None? ==> Inbound(doc).None? || Field(Inbound(doc).value, "protocol").None?
                        || !Field(Inbound(doc).value, "protocol").value.Str?
  {
    match Inbound(doc)
    case None => None
    case Some(inbound) =>
      match Field(inbound, "protocol")
      case Some(Str(p)) => Some(p)
      case _ => None
  }

  /** `cfg["inbounds"][0]["port"]`: the integer stored there, `None` where there is none. */
  function Port(doc: Json): (r: Option<int>)
    ensures r.Some? ==> Inbound(doc).Some? && Field(Inbound(doc).value, "port") == Some(Num(r.value))
    ensures r.None? ==> Inbound(doc).None? || Field(Inbound(doc).value, "port").None?
                        || !Field(Inbound(doc).value, "port").value.Num?
  {
    match Inbound(doc)
    case None => None
    case Some(inbound) =>
      match Field(inbound, "port")
      case Some(Num(n)) => Some(n)
      case _ => None
  }

  /** `cfg["inbounds"][0]["streamSettings"]["realitySettings"]`. */
  function Reality(doc: Json): Option<Json> {
    match Inbound(doc)
    case None => None
    case Some(inbound) =>
      match Field(inbound, "streamSettings")
      case None => None
      case Some(stream) => Field(stream, "realitySettings")
  }

  /** `...["realitySettings"]["serverNames"]`, when it is a list of strings; the strings are exactly its entries. */
  function ServerNames(doc: Json): (r: Option<seq<string>>)
    ensures r.Some? ==> Reality(doc).Some?
                        && Field(Reality(doc).value, "serverNames") == Some(Arr(StringsToJson(r.value)))
  {
    match Reality(doc)
    case None => None
    case Some(reality) =>
      match Field(reality, "serverNames")
      case Some(Arr(items)) => StringsFromJson(items)
      case _ => None
  }

  /**
   * `...["realitySettings"]["serverNames"][0]`, when it is a string; the
   * other entries may be anything. It is the first of `ServerNames` whenever
   * that list is readable and not empty.
   */
  function FirstServerName(doc: Json): (r: Option<string>)
    ensures r.Some? ==> Reality(doc).Some? && Field(Reality(doc).value, "serverNames").Some?
                        && Field(Reality(doc).value, "serverNames").value.Arr?
                        && |Field(Reality(doc).value, "serverNames").value.items| > 0
                        && Field(Reality(doc).value, "serverNames").value.items[0] == Str(r.value)
    ensures (Reality(doc).Some? && Field(Reality(doc).value, "serverNames").Some?
             && Field(Reality(doc).value, "serverNames").value.Arr?
             && |Field(Reality(doc).value, "serverNames").value.items| > 0
             && Field(Reality(doc).value, "serverNames").value.items[0].Str?) ==> r.Some?
    ensures ServerNames(doc).Some? && ServerNames(doc).value != [] ==> r == Some(ServerNames(doc).value[0])
  {
    match Reality(doc)
    case None => None
    case Some(reality) =>
      match Field(reality, "serverNames")
      case Some(Arr(items)) => if items != [] && items[0].Str? then Some(items[0].s) else None
      case _ => None
  }

  /** `...["realitySettings"]["privateKey"]`. */
  function PrivateKey(doc: Json): Option<string> {
    match Reality(doc)
    case None => None
    case Some(reality) =>
      match Field(reality, "privateKey")
      case Some(Str(k)) => Some(k)
      case _ => None
  }

  /** `...["realitySettings"]["shortIds"]`. */
  function ShortIds(doc: Json): Option<seq<string>> {
    match Reality(doc)
    case None => None
    case Some(reality) =>
      match Field(reality, "shortIds")
      case Some(Arr(items)) => StringsFromJson(items)
      case _ => None
  }

  // ---------------------------------------------------------------------
  // Writing the client list back

  /**
   * `cfg["inbounds"][0]["settings"]["clients"] = clients`: the document with
   * the first inbound's client list replaced and every other part kept.
   */
  function WithClients(doc: Json, cs: seq<Client>): (d: Json)
    requires Settings(doc).Some?
    ensures Users(d) == Some(cs)
  {
    var inbounds := doc.fields["inbounds"].items;
    var inbound := inbounds[0];
    var settings := inbound.fields["settings"];
    var settings' := Obj(settings.fields["clients" := Arr(ClientsToJson(cs))]);
    var inbound' := Obj(inbound.fields["settings" := settings']);
    ClientsRoundTrip(cs);
    Obj(doc.fields["inbounds" := Arr([inbound'] + inbounds[1..])])
  }

  /** The write-back touches nothing of the inbound but its client list. */
  lemma WithClientsKeeps(doc: Json, cs: seq<Client>)
    requires Settings(doc).Some?
    ensures Protocol(WithClients(doc, cs)) == Protocol(doc)
    ensures Port(WithClients(doc, cs)) == Port(doc)
    ensures Reality(WithClients(doc, cs)) == Reality(doc)
    ensures ServerNames(WithClients(doc, cs)) == ServerNames(doc)
    ensures FirstServerName(WithClients(doc, cs)) == FirstServerName(doc)
    ensures PrivateKey(WithClients(doc, cs)) == PrivateKey(doc)
    ensures ShortIds(WithClients(doc, cs)) == ShortIds(doc)
  {
    var inbound := doc.fields["inbounds"].items[0];
    var inbound' := Inbound(WithClients(doc, cs)).value;
    assert inbound'.fields.Keys == inbound.fields.Keys;
    assert forall key | key in inbound.fields && key != "settings" :: inbound'.fields[key] == inbound.fields[key];
  }

  /**
   * The write-back changes nothing but the client list: the other top-level
   * entries, the inbounds after the first, the other entries of the first
   * inbound and of its `settings` all keep their values.
   */
  lemma WithClientsFrame(doc: Json, cs: seq<Client>)
    requires Settings(doc).Some?
    ensures WithClients(doc, cs).Obj? && WithClients(doc, cs).fields.Keys == doc.fields.Keys
    ensures forall key | key in doc.fields && key != "inbounds" :: WithClients(doc, cs).fields[key] == doc.fields[key]
    ensures var inbounds := doc.fields["inbounds"].items;
            var inbounds' := WithClients(doc, cs).fields["inbounds"];
            inbounds'.Arr? && |inbounds'.items| == |inbounds| && inbounds'.items[1..] == inbounds[1..]
    ensures var inbound := Inbound(doc).value;
            var inbound' := Inbound(WithClients(doc, cs)).value;
            inbound'.fields.Keys == inbound.fields.Keys
            && forall key | key in inbound.fields && key != "settings" :: inbound'.fields[key] == inbound.fields[key]
    ensures var settings := Settings(doc).value;
            var settings' := Settings(WithClients(doc, cs)).value;
            settings'.fields.Keys == settings.fields.Keys + {"clients"}
            && forall key | key in settings.fields && key != "clients" :: settings'.fields[key] == settings.fields[key]
  {
  }

  /** Writing back the list that was read leaves the document exactly as it was. */
  lemma WithClientsOfUsers(doc: Json)
    requires Users(doc).Some?
    ensures WithClients(doc, Users(doc).value) == doc
  {
    var inbounds := doc.fields["inbounds"].items;
    var inbound := inbounds[0];
    var settings := inbound.fields["settings"];
    var items := settings.fields["clients"].items;
    assert ClientsToJson(Users(doc).value) == items;
    assert settings.fields["clients" := Arr(items)] == settings.fields;
    assert inbound.fields["settings" := settings] == inbound.fields;
    assert [inbound] + inbounds[1..] == inbounds;
    assert doc.fields["inbounds" := Arr(inbounds)] == doc.fields;
  }

  /** A second write-back overrides the first: nothing of the first survives but what the second keeps. */
  lemma WithClientsTwice(doc: Json, a: seq<Client>, b: seq<Client>)
    requires Settings(doc).Some?
    ensures WithClients(WithClients(doc, a), b) == WithClients(doc, b)
  {
    var inbounds := doc.fields["inbounds"].items;
    var inbound := inbounds[0];
    var settings := inbound.fields["settings"];
    var sa := Obj(settings.fields["clients" := Arr(ClientsToJson(a))]);
    var ia := Obj(inbound.fields["settings" := sa]);
    var d := WithClients(doc, a);
    assert d == Obj(doc.fields["inbounds" := Arr([ia] + inbounds[1..])]);
    var sb := Obj(settings.fields["clients" := Arr(ClientsToJson(b))]);
    assert sa.fields["clients" := Arr(ClientsToJson(b))] == sb.fields;
    assert ia.fields["settings" := sb] == inbound.fields["settings" := sb];
    assert ([ia] + inbounds[1..])[1..] == inbounds[1..];
    assert doc.fields["inbounds" := Arr([ia] + inbounds[1..])]["inbounds" := Arr([Obj(inbound.fields["settings" := sb])] + inbounds[1..])]
        == doc.fields["inbounds" := Arr([Obj(inbound.fields["settings" := sb])] + inbounds[1..])];
  }
}
