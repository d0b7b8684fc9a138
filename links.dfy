/**
 * The VLESS + REALITY share link, `scheme://userinfo@host:port?query#fragment`
 * (the URI shape of section 3 of RFC 3986). Every component is pasted in
 * verbatim: nothing is percent-encoded.
 */
module Links {
  import opened Wrappers
  import opened Text

  /** The query: fixed parameters around the server name, public key and short id. */
  function Query(sni: string, pbk: string, sid: string): string {
    "security=reality&sni=" + sni + "&fp=firefox&pbk=" + pbk + "&sid=" + sid
    + "&spx=/&type=tcp" + "&flow=xtls-rprx-vision" + "&encryption=none"
  }

  /** `userinfo@host:port`. */
  function Authority(id: string, host: string, port: string): string {
    id + "@" + host + ":" + port
  }

  /**
   * The link of both the manager and the installer:
   * `protocol://id@host:port?<Query>#fragment`.
   */
  function ShareLink(protocol: string, id: string, host: string, port: string,
                     sni: string, pbk: string, sid: string, fragment: string): string
  {
    protocol + "://" + Locator(Authority(id, host, port), Query(sni, pbk, sid), fragment)
  }

  /** What follows the scheme: `authority?query#fragment`. */
  function Locator(auth: string, q: string, fragment: string): string {
    auth + "?" + q + "#" + fragment
  }

  /**
   * The `pbk` parameter: `keys.get("Password", keys.get("PublicKey", ""))`.
   * It is what the installer's `keys.get("Password", "")` gives, except for a
   * key file with a `PublicKey` and no `Password`, where it is the public key.
   */
  function PublicKeyParam(keys: map<string, string>): (r: string)
    ensures "Password" in keys || "PublicKey" !in keys ==> r == (if "Password" in keys then keys["Password"] else "")
    ensures "Password" !in keys && "PublicKey" in keys ==> r == keys["PublicKey"]
  {
    if "Password" in keys then keys["Password"]
    else if "PublicKey" in keys then keys["PublicKey"]
    else ""
  }

  /** The `sid` parameter: `keys.get("shortsid", "")`, the short id when the key file has one and empty otherwise. */
  function ShortIdParam(keys: map<string, string>): (r: string)
    ensures "shortsid" in keys ==> r == keys["shortsid"]
    ensures "shortsid" !in keys ==> r == ""
  {
    if "shortsid" in keys then keys["shortsid"] else ""
  }

  // ---------------------------------------------------------------------
  // Reading a link back

  datatype LinkParts = LinkParts(scheme: string, userinfo: string, host: string,
                                 port: string, query: string, fragment: string)

  /**
   * Splits a link at the first occurrence of each delimiter in turn: the
   * scheme before the first `://`, the fragment after the first `#`, the
   * query after the first `?`, the user information before the first `@`,
   * and host and port around the first `:`. Unlike an RFC 3986 reader it
   * never treats `/` as a delimiter.
   */
  function ParseLink(link: string): Option<LinkParts> {
    var a := Split1(link, "://");
    if |a| != 2 then None else
    var b := Split1(a[1], "#");
    if |b| != 2 then None else
    var c := Split1(b[0], "?");
    if |c| != 2 then None else
    var d := Split1(c[0], "@");
    if |d| != 2 then None else
    var e := Split1(d[1], ":");
    if |e| != 2 then None else
    Some(LinkParts(a[0], d[0], e[0], e[1], c[1], b[1]))
  }

  /** The fixed parts of the query hold no `#`. */
  lemma QueryHasNoHash(sni: string, pbk: string, sid: string)
    requires '#' !in sni && '#' !in pbk && '#' !in sid
    ensures '#' !in Query(sni, pbk, sid)
  {
  }

  /** The fragment starts after the first `#` when neither authority nor query holds one. */
  lemma FragmentSplit(auth: string, q: string, fragment: string)
    requires '#' !in auth && '#' !in q
    ensures Split1(Locator(auth, q, fragment), "#") == [auth + "?" + q, fragment]
  {
    Split1Of(auth + "?" + q, "#", fragment);
  }

  /** The user information ends at the first `@`, the host at the first `:`. */
  lemma AuthoritySplit(id: string, host: string, port: string)
    requires '@' !in id && ':' !in host
    ensures Split1(Authority(id, host, port), "@") == [id, host + ":" + port]
    ensures Split1(host + ":" + port, ":") == [host, port]
  {
    assert Authority(id, host, port) == id + "@" + (host + ":" + port);
    Split1Of(id, "@", host + ":" + port);
    Split1Of(host, ":", port);
  }

  /** The authority holds no `?` or `#` when none of its parts does. */
  lemma AuthorityDelimiters(id: string, host: string, port: string)
    requires '?' !in id && '#' !in id && '?' !in host && '#' !in host && '?' !in port && '#' !in port
    ensures '?' !in Authority(id, host, port) && '#' !in Authority(id, host, port)
  {
  }

  /**
   * A link is read back into exactly the components it was built from,
   * provided no component holds the delimiter that ends it. The fragment in
   * particular comes back verbatim, whatever characters it holds.
   */
  lemma ParseShareLink(protocol: string, id: string, host: string, port: string,
                       sni: string, pbk: string, sid: string, fragment: string)
    requires ':' !in protocol
    requires '@' !in id && '?' !in id && '#' !in id
    requires ':' !in host && '?' !in host && '#' !in host
    requires '?' !in port && '#' !in port
    requires '#' !in sni && '#' !in pbk && '#' !in sid
    ensures ParseLink(ShareLink(protocol, id, host, port, sni, pbk, sid, fragment))
            == Some(LinkParts(protocol, id, host, port, Query(sni, pbk, sid), fragment))
  {
    var q := Query(sni, pbk, sid);
    var auth := Authority(id, host, port);
    var rest := Locator(auth, q, fragment);
    Split1Of(protocol, "://", rest);
    QueryHasNoHash(sni, pbk, sid);
    AuthorityDelimiters(id, host, port);
    FragmentSplit(auth, q, fragment);
    Split1Of(auth, "?", q);
    AuthoritySplit(id, host, port);
    ParseLinkOfSplits(ShareLink(protocol, id, host, port, sni, pbk, sid, fragment), rest, auth + "?" + q,
                      auth, host + ":" + port, LinkParts(protocol, id, host, port, q, fragment));
  }

  /** `ParseLink` in terms of the five splits it makes. */
  lemma ParseLinkOfSplits(link: string, rest: string, beforeFragment: string, auth: string,
                          hostPort: string, parts: LinkParts)
    requires Split1(link, "://") == [parts.scheme, rest]
    requires Split1(rest, "#") == [beforeFragment, parts.fragment]
    requires Split1(beforeFragment, "?") == [auth, parts.query]
    requires Split1(auth, "@") == [parts.userinfo, hostPort]
    requires Split1(hostPort, ":") == [parts.host, parts.port]
    ensures ParseLink(link) == Some(parts)
  {
  }
}
