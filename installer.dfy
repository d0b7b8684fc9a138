/**
 * The installer's pure parts: the first configuration document, built from
 * the parsed key file with a single client `main`, and the link it prints for
 * that client.
 */
module Installer {
  import opened Wrappers
  import opened Text
  import opened JsonValue
  import opened XrayConfig
  import opened Links
  import Manager

  /** The keys `create_config` looks up with `keys[...]`; a missing one stops it with a `KeyError`. */
  predicate HasConfigKeys(keys: map<string, string>) {
    "uuid" in keys && "PrivateKey" in keys && "shortsid" in keys
  }

  function Strs(ss: seq<string>): Json {
    Arr(StringsToJson(ss))
  }

  /** The REALITY settings: GitHub as the camouflage target, the private key and the one short id. */
  function RealitySettings(privateKey: string, shortId: string): Json {
    Obj(map[
      "show" := Bool(false),
      "dest" := Str("github.com:443"),
      "xver" := Num(0),
      "serverNames" := Strs(["github.com", "www.github.com"]),
      "privateKey" := Str(privateKey),
      "minClientVer" := Str(""),
      "maxClientVer" := Str(""),
      "maxTimeDiff" := Num(0),
      "shortIds" := Strs([shortId])
    ])
  }

  /** The single VLESS inbound on port 443 with the client `main`. */
  function MainInbound(uuid: string, privateKey: string, shortId: string): Json {
    Obj(map[
      "listen" := Str("0.0.0.0"),
      "port" := Num(443),
      "protocol" := Str("vless"),
      "settings" := Obj(map[
        "clients" := Arr([ClientToJson(Client("main", uuid, Flow))]),
        "decryption" := Str("none")
      ]),
      "streamSettings" := Obj(map[
        "network" := Str("tcp"),
        "security" := Str("reality"),
        "realitySettings" := RealitySettings(privateKey, shortId)
      ]),
      "sniffing" := Obj(map[
        "enabled" := Bool(true),
        "destOverride" := Strs(["http", "tls"])
      ])
    ])
  }

  /** Routing that blocks the advertising domain list. */
  const Routing: Json :=
    Obj(map[
      "domainStrategy" := Str("IPIfNonMatch"),
      "rules" := Arr([Obj(map[
        "type" := Str("field"),
        "domain" := Strs(["geosite:category-ads-all"]),
        "outboundTag" := Str("block")
      ])])
    ])

  /** A direct outbound and the `block` sink. */
  const Outbounds: Json :=
    Arr([
      Obj(map["protocol" := Str("freedom"), "tag" := Str("direct")]),
      Obj(map["protocol" := Str("blackhole"), "tag" := Str("block")])
    ])

  /** Handshake and idle timeouts of policy level 0. */
  const Policy: Json :=
    Obj(map["levels" := Obj(map["0" := Obj(map["handshake" := Num(3), "connIdle" := Num(180)])])])

  /** `create_config`: the document it writes, or `None` where a required key is missing. */
  function CreateConfig(keys: map<string, string>): (r: Option<Json>)
    ensures r.Some? <==> HasConfigKeys(keys)
  {
    if !HasConfigKeys(keys) then None
    else
      Some(Obj(map[
        "log" := Obj(map["loglevel" := Str("warning")]),
        "routing" := Routing,
        "inbounds" := Arr([MainInbound(keys["uuid"], keys["PrivateKey"], keys["shortsid"])]),
        "outbounds" := Outbounds,
        "policy" := Policy
      ]))
  }

  /** The inbound of the created document is the `main` inbound. */
  lemma CreatedInbound(keys: map<string, string>)
    requires HasConfigKeys(keys)
    ensures Inbound(CreateConfig(keys).value) == Some(MainInbound(keys["uuid"], keys["PrivateKey"], keys["shortsid"]))
  {
  }

  /** The created document holds exactly one client, `main`, whose id is the key file's `uuid`. */
  lemma CreateConfigClients(keys: map<string, string>)
    requires HasConfigKeys(keys)
    ensures Users(CreateConfig(keys).value) == Some([Client("main", keys["uuid"], Flow)])
  {
    var c := Client("main", keys["uuid"], Flow);
    CreatedInbound(keys);
    ClientsRoundTrip([c]);
    assert ClientsToJson([c]) == [ClientToJson(c)];
  }

  /** The created inbound is VLESS on port 443. */
  lemma CreateConfigInbound(keys: map<string, string>)
    requires HasConfigKeys(keys)
    ensures Protocol(CreateConfig(keys).value) == Some("vless")
    ensures Port(CreateConfig(keys).value) == Some(443)
  {
    CreatedInbound(keys);
  }

  /** The created REALITY settings name GitHub, and carry the private key and the short id of the key file. */
  lemma CreateConfigReality(keys: map<string, string>)
    requires HasConfigKeys(keys)
    ensures ServerNames(CreateConfig(keys).value) == Some(["github.com", "www.github.com"])
    ensures FirstServerName(CreateConfig(keys).value) == Some("github.com")
    ensures PrivateKey(CreateConfig(keys).value) == Some(keys["PrivateKey"])
    ensures ShortIds(CreateConfig(keys).value) == Some([keys["shortsid"]])
  {
    CreatedInbound(keys);
    var reality := RealitySettings(keys["PrivateKey"], keys["shortsid"]);
    assert Reality(CreateConfig(keys).value) == Some(reality);
    var names := ["github.com", "www.github.com"];
    assert StringsFromJson(StringsToJson(names)).value == names;
    assert StringsFromJson(StringsToJson([keys["shortsid"]])).value == [keys["shortsid"]];
  }

  /** `str(443)`. */
  lemma PortText()
    ensures IntToString(443) == "443"
  {
    assert NatToString(4) == "4";
    assert NatToString(44) == NatToString(4) + "4";
    assert NatToString(443) == NatToString(44) + "3";
  }

  /**
   * The link the installer prints at the end: the key file's `uuid` and
   * `shortsid` (a missing one stops it), `pbk` from `Password` only, the
   * address, and `vless-<address>` as the fragment; `None` where the script
   * would stop with an error.
   */
  function InstallerLink(keys: map<string, string>, doc: Json, ipOutput: string): (r: Option<string>)
    ensures r.Some? <==> Manager.Linkable(doc) && "uuid" in keys && "shortsid" in keys
  {
    if !Manager.Linkable(doc) || "uuid" !in keys || "shortsid" !in keys then None
    else
      var ip := Strip(ipOutput);
      var pbk := if "Password" in keys then keys["Password"] else "";
      Some(ShareLink(Protocol(doc).value, keys["uuid"], ip, IntToString(Port(doc).value),
                     FirstServerName(doc).value, pbk, keys["shortsid"], "vless-" + ip))
  }

  /** Over the document it has just written, the installer prints the `main` VLESS link to port 443 with SNI `github.com`. */
  lemma InstallerLinkOfCreatedConfig(keys: map<string, string>, ipOutput: string)
    requires HasConfigKeys(keys)
    ensures var ip := Strip(ipOutput);
            var pbk := if "Password" in keys then keys["Password"] else "";
            InstallerLink(keys, CreateConfig(keys).value, ipOutput)
            == Some(ShareLink("vless", keys["uuid"], ip, "443", "github.com", pbk, keys["shortsid"], "vless-" + ip))
  {
    CreateConfigInbound(keys);
    CreateConfigReality(keys);
    PortText();
  }

  /**
   * On the created document, the manager's link for `main` and the
   * installer's link differ only in the fragment, as long as the key file
   * has a `Password` or no `PublicKey` (the manager falls back to
   * `PublicKey`, the installer does not).
   */
  lemma ManagerAgreesWithInstaller(keys: map<string, string>, ipOutput: string)
    requires HasConfigKeys(keys)
    requires "Password" in keys || "PublicKey" !in keys
    ensures var doc := CreateConfig(keys).value;
            var ip := Strip(ipOutput);
            var pbk := PublicKeyParam(keys);
            Users(doc).Some?
            && Manager.LinkFor(doc, keys, ip, "main")
            == Manager.Link(ShareLink("vless", keys["uuid"], ip, "443", "github.com", pbk, keys["shortsid"], "main"))
            && InstallerLink(keys, doc, ipOutput)
            == Some(ShareLink("vless", keys["uuid"], ip, "443", "github.com", pbk, keys["shortsid"], "vless-" + ip))
  {
    var doc := CreateConfig(keys).value;
    CreateConfigClients(keys);
    CreateConfigInbound(keys);
    CreateConfigReality(keys);
    PortText();
    InstallerLinkOfCreatedConfig(keys, ipOutput);
    var cs := [Client("main", keys["uuid"], Flow)];
    assert Manager.FirstWithEmail(cs, "main") == Some(0);
  }
}
