/**
 * The user manager: the client list of the first inbound, kept in the
 * configuration document, with listing, adding, removing (by email or by menu
 * number) and the share link of one client.
 *
 * The script re-reads the document from disk at the start of every action and
 * writes it back whole after every change. The model keeps the document that
 * was read as a `Registry` object: `clients` is the list the actions edit and
 * `Document()` is what the file holds after the last write-back.
 */
module Manager {
  import opened Wrappers
  import opened Text
  import opened JsonValue
  import opened XrayConfig
  import opened Links

  // ---------------------------------------------------------------------
  // The client list

  /** Some client carries this email (`c.get("email") == email` for some `c`). */
  predicate Registered(cs: seq<Client>, email: string) {
    exists i :: 0 <= i < |cs| && cs[i].email == email
  }

  /** No two clients share an email. */
  predicate UniqueEmails(cs: seq<Client>) {
    forall i, j :: 0 <= i < j < |cs| ==> cs[i].email != cs[j].email
  }

  /** The position of the first client with this email, as a front-to-back scan finds it. */
  function FirstWithEmail(cs: seq<Client>, email: string): (r: Option<nat>)
    ensures r.None? <==> !Registered(cs, email)
    ensures r.Some? ==> r.value < |cs| && cs[r.value].email == email
    ensures r.Some? ==> forall k :: 0 <= k < r.value ==> cs[k].email != email
  {
    if cs == [] then None
    else if cs[0].email == email then Some(0)
    else
      match FirstWithEmail(cs[1..], email)
      case None =>
        assert forall k :: 1 <= k < |cs| ==> cs[k] == cs[1..][k - 1];
        None
      case Some(i) => Some(i + 1)
  }

  /** `del cs[i]`: the list without its `i`-th entry, the others in their order. */
  function RemoveAt(cs: seq<Client>, i: nat): (r: seq<Client>)
    requires i < |cs|
    ensures |r| == |cs| - 1
    ensures forall k :: 0 <= k < i ==> r[k] == cs[k]
    ensures forall k :: i <= k < |r| ==> r[k] == cs[k + 1]
  {
    cs[..i] + cs[i + 1..]
  }

  /** Deleting one entry loses exactly that entry: nothing is duplicated or invented. */
  lemma RemoveAtMultiset(cs: seq<Client>, i: nat)
    requires i < |cs|
    ensures multiset(RemoveAt(cs, i)) + multiset{cs[i]} == multiset(cs)
  {
    assert cs == cs[..i] + [cs[i]] + cs[i + 1..];
  }

  /** Deleting keeps emails distinct, and the deleted email is then no longer registered. */
  lemma RemoveAtUnique(cs: seq<Client>, i: nat)
    requires i < |cs| && UniqueEmails(cs)
    ensures UniqueEmails(RemoveAt(cs, i))
    ensures !Registered(RemoveAt(cs, i), cs[i].email)
  {
    var r := RemoveAt(cs, i);
    forall a, b | 0 <= a < b < |r| ensures r[a].email != r[b].email {
      var a' := if a < i then a else a + 1;
      var b' := if b < i then b else b + 1;
      assert r[a] == cs[a'] && r[b] == cs[b'];
    }
    forall k | 0 <= k < |r| ensures r[k].email != cs[i].email {
      var k' := if k < i then k else k + 1;
      assert r[k] == cs[k'];
    }
  }

  /** Appending a client with a new email keeps emails distinct. */
  lemma AppendUnique(cs: seq<Client>, c: Client)
    requires UniqueEmails(cs) && !Registered(cs, c.email)
    ensures UniqueEmails(cs + [c])
  {
    var r := cs + [c];
    forall a, b | 0 <= a < b < |r| ensures r[a].email != r[b].email {
      if b == |cs| {
        assert r[a] == cs[a];
      } else {
        assert r[a] == cs[a] && r[b] == cs[b];
      }
    }
  }

  /** A client appended under a new email is found at the end, and every other email where it was. */
  lemma FirstWithEmailAppend(cs: seq<Client>, c: Client, email: string)
    requires !Registered(cs, c.email)
    ensures FirstWithEmail(cs + [c], c.email) == Some(|cs|)
    ensures email != c.email ==> FirstWithEmail(cs + [c], email) == FirstWithEmail(cs, email)
  {
    var r := cs + [c];
    assert r[|cs|] == c;
    assert forall k :: 0 <= k < |cs| ==> r[k] == cs[k];
  }

  /** With distinct emails, the client at position `i` is the first (and only) one with its email. */
  lemma FirstWithEmailOfUnique(cs: seq<Client>, i: nat)
    requires i < |cs| && UniqueEmails(cs)
    ensures FirstWithEmail(cs, cs[i].email) == Some(i)
  {
  }

  /** Adding a client under a new email and then deleting the first entry with that email restores the list. */
  lemma AddThenRemove(cs: seq<Client>, c: Client)
    requires !Registered(cs, c.email)
    ensures FirstWithEmail(cs + [c], c.email) == Some(|cs|)
    ensures RemoveAt(cs + [c], |cs|) == cs
  {
    FirstWithEmailAppend(cs, c, c.email);
    assert (cs + [c])[..|cs|] == cs;
  }

  // ---------------------------------------------------------------------
  // What the user types

  /** The name prompt: the input is trimmed and must be non-empty and free of the space character. */
  function ValidName(typed: string): (r: Option<string>)
    ensures r.Some? <==> Strip(typed) != [] && ' ' !in Strip(typed)
    ensures r.Some? ==> r.value == Strip(typed) && Stripped(r.value)
  {
    var name := Strip(typed);
    if name == [] || ' ' in name then None else Some(name)
  }

  /** Only the space character is refused inside a name: a tab or newline between two words is kept. */
  lemma ValidNameAllowsOtherWhitespace(a: string, c: char, b: string)
    requires a != [] && b != [] && Stripped(a) && Stripped(b)
    requires ' ' !in a && ' ' !in b && c != ' '
    ensures ValidName(a + [c] + b) == Some(a + [c] + b)
  {
    var s := a + [c] + b;
    assert s[0] == a[0] && s[|s| - 1] == b[|b| - 1];
    StripOfStripped(s);
    assert ' ' !in s by {
      forall k | 0 <= k < |s| ensures s[k] != ' ' {
        if k < |a| { assert s[k] == a[k]; }
        else if k > |a| { assert s[k] == b[k - |a| - 1]; }
      }
    }
  }

  datatype Choice = NotANumber | OutOfRange | Index(i: nat)

  /**
   * The menu-number prompt over a list of `n` entries: the trimmed input must
   * be all digits, and its value between 1 and `n`; it selects entry value-1.
   */
  function MenuChoice(typed: string, n: nat): (r: Choice)
    ensures r == NotANumber <==> !IsDigits(Strip(typed))
    ensures r.Index? ==> r.i < n && DigitsValue(Strip(typed)) == r.i + 1
    ensures r == OutOfRange ==> IsDigits(Strip(typed)) && (DigitsValue(Strip(typed)) == 0 || DigitsValue(Strip(typed)) > n)
  {
    var choice := Strip(typed);
    if !IsDigits(choice) then NotANumber
    else
      var idx := DigitsValue(choice);
      if idx < 1 || idx > n then OutOfRange else Index(idx - 1)
  }

  /** Typing the number shown next to entry `i` (1-based), with any padding, selects entry `i`. */
  lemma MenuChoiceSelects(i: nat, n: nat, before: string, after: string)
    requires i < n
    requires forall k :: 0 <= k < |before| ==> IsSpace(before[k])
    requires forall k :: 0 <= k < |after| ==> IsSpace(after[k])
    ensures MenuChoice(before + NatToString(i + 1) + after, n) == Index(i)
  {
    var digits := NatToString(i + 1);
    assert IsDigit(digits[0]) && IsDigit(digits[|digits| - 1]);
    StripOfPadded(before, digits, after);
    DigitsValueOfNatToString(i + 1);
  }

  // ---------------------------------------------------------------------
  // The share link

  datatype LinkOutcome =
    | UserNotFound
    /** The document lacks the protocol, the port or a first server name: the script stops with an error. */
    | Unreadable
    | Link(uri: string)

  /** The document holds everything the link needs besides the client. */
  predicate Linkable(doc: Json) {
    Protocol(doc).Some? && Port(doc).Some? && FirstServerName(doc).Some?
  }

  /**
   * The link for the client with this id: the server's address, the
   * inbound's protocol and port, the first server name, the key file's public
   * key and short id, and the email itself as the fragment.
   */
  function LinkWithId(doc: Json, id: string, keys: map<string, string>, ip: string, email: string): (r: LinkOutcome)
    ensures r != UserNotFound
    ensures r == Unreadable <==> !Linkable(doc)
  {
    if !Linkable(doc) then Unreadable
    else
      Link(ShareLink(Protocol(doc).value, id, ip, IntToString(Port(doc).value),
                     FirstServerName(doc).value, PublicKeyParam(keys), ShortIdParam(keys), email))
  }

  /** The write-back of a client list does not change how a link is made for a given id. */
  lemma LinkWithIdKeeps(doc: Json, cs: seq<Client>, id: string, keys: map<string, string>, ip: string, email: string)
    requires Settings(doc).Some?
    ensures LinkWithId(WithClients(doc, cs), id, keys, ip, email) == LinkWithId(doc, id, keys, ip, email)
  {
    WithClientsKeeps(doc, cs);
  }

  /** `make_link_for_email` on a document: the link of the first client with `email`. */
  function LinkFor(doc: Json, keys: map<string, string>, ip: string, email: string): (r: LinkOutcome)
    requires Users(doc).Some?
    ensures r == UserNotFound <==> !Registered(Users(doc).value, email)
    ensures r == Unreadable <==> Registered(Users(doc).value, email) && !Linkable(doc)
  {
    var cs := Users(doc).value;
    match FirstWithEmail(cs, email)
    case None => UserNotFound
    case Some(i) => LinkWithId(doc, cs[i].id, keys, ip, email)
  }

  /**
   * Reading the link back gives the first matching client's id as the user
   * information, the address as host, the port, and the email verbatim as the
   * fragment, as long as none of them holds the delimiter that ends it.
   */
  lemma LinkForParses(doc: Json, keys: map<string, string>, ip: string, email: string)
    requires Users(doc).Some? && Linkable(doc)
    requires Registered(Users(doc).value, email)
    requires var p := Protocol(doc).value; ':' !in p
    requires var id := Users(doc).value[FirstWithEmail(Users(doc).value, email).value].id;
             '@' !in id && '?' !in id && '#' !in id
    requires ':' !in ip && '?' !in ip && '#' !in ip
    requires '#' !in FirstServerName(doc).value && '#' !in PublicKeyParam(keys) && '#' !in ShortIdParam(keys)
    ensures LinkFor(doc, keys, ip, email).Link?
    ensures var id := Users(doc).value[FirstWithEmail(Users(doc).value, email).value].id;
            ParseLink(LinkFor(doc, keys, ip, email).uri)
            == Some(LinkParts(Protocol(doc).value, id, ip, IntToString(Port(doc).value),
                              Query(FirstServerName(doc).value, PublicKeyParam(keys), ShortIdParam(keys)), email))
  {
    var cs := Users(doc).value;
    var i := FirstWithEmail(cs, email).value;
    IntToStringPlain(Port(doc).value);
    ParseShareLink(Protocol(doc).value, cs[i].id, ip, IntToString(Port(doc).value),
                   FirstServerName(doc).value, PublicKeyParam(keys), ShortIdParam(keys), email);
  }

  /** After an add, the new client's link carries the id it was given. */
  lemma LinkAfterAdd(doc: Json, c: Client, keys: map<string, string>, ip: string)
    requires Users(doc).Some? && !Registered(Users(doc).value, c.email)
    ensures LinkFor(WithClients(doc, Users(doc).value + [c]), keys, ip, c.email)
            == LinkWithId(doc, c.id, keys, ip, c.email)
  {
    var cs := Users(doc).value;
    FirstWithEmailAppend(cs, c, c.email);
    assert (cs + [c])[|cs|] == c;
    LinkWithIdKeeps(doc, cs + [c], c.id, keys, ip, c.email);
  }

  /** An add leaves every other client's link as it was. */
  lemma LinkOfOthersAfterAdd(doc: Json, c: Client, keys: map<string, string>, ip: string, email: string)
    requires Users(doc).Some? && !Registered(Users(doc).value, c.email) && email != c.email
    ensures LinkFor(WithClients(doc, Users(doc).value + [c]), keys, ip, email) == LinkFor(doc, keys, ip, email)
  {
    var cs := Users(doc).value;
    FirstWithEmailAppend(cs, c, email);
    if Registered(cs, email) {
      var i := FirstWithEmail(cs, email).value;
      assert (cs + [c])[i] == cs[i];
      LinkWithIdKeeps(doc, cs + [c], cs[i].id, keys, ip, email);
    }
  }

  /** After the only client with an email is removed, no link is made for that email. */
  lemma LinkAfterRemove(doc: Json, keys: map<string, string>, ip: string, i: nat)
    requires Users(doc).Some? && i < |Users(doc).value| && UniqueEmails(Users(doc).value)
    ensures var cs := Users(doc).value;
            LinkFor(WithClients(doc, RemoveAt(cs, i)), keys, ip, cs[i].email) == UserNotFound
  {
    RemoveAtUnique(Users(doc).value, i);
  }

  // ---------------------------------------------------------------------
  // The registry object

  datatype AddOutcome = InvalidName | DuplicateName | Added(client: Client)

  datatype RemoveOutcome = NothingToRemove | NotANumberTyped | OutOfRangeTyped | Removed(email: string)

  class Registry {
    /** The document as it was read; everything in it but the client list stays as it is. */
    const loaded: Json
    /** The client list of the first inbound, as the actions edit it. */
    var clients: seq<Client>

    ghost predicate Valid() {
      Users(loaded).Some?
    }

    /** The document on disk after the last write-back. */
    ghost function Document(): Json
      requires Valid()
      reads this
    {
      WithClients(loaded, clients)
    }

    /** Reads a document whose first inbound has a list of client records. */
    constructor Load(doc: Json)
      requires Users(doc).Some?
      ensures Valid() && loaded == doc
      ensures clients == Users(doc).value
      ensures Document() == doc
    {
      loaded := doc;
      clients := Users(doc).value;
      WithClientsOfUsers(doc);
    }

    /**
     * `user_list`: the number of clients (`False`, which is 0, for an empty
     * list) and the emails in the order they are listed.
     */
    method UserList() returns (count: nat, emails: seq<string>)
      requires Valid()
      ensures count == |clients| == |emails|
      ensures forall i :: 0 <= i < |clients| ==> emails[i] == clients[i].email
      ensures count == 0 <==> Users(Document()).value == []
    {
      emails := [];
      var i := 0;
      while i < |clients|
        invariant 0 <= i <= |clients| && |emails| == i
        invariant forall k :: 0 <= k < i ==> emails[k] == clients[k].email
      {
        emails := emails + [clients[i].email];
        i := i + 1;
      }
      count := |clients|;
    }

    /** The front-to-back scan for the first client with this email. */
    method Find(email: string) returns (r: Option<nat>)
      ensures r == FirstWithEmail(clients, email)
    {
      var i := 0;
      while i < |clients|
        invariant 0 <= i <= |clients|
        invariant forall k :: 0 <= k < i ==> clients[k].email != email
      {
        if clients[i].email == email {
          return Some(i);
        }
        i := i + 1;
      }
      return None;
    }

    /**
     * `add_user_interactive`: the typed name is trimmed and checked, refused
     * if some client already has it, and otherwise appended with the id that
     * `xray uuid` printed (trimmed) and the vision flow.
     */
    method Add(typed: string, uuidOutput: string) returns (r: AddOutcome)
      requires Valid()
      modifies this
      ensures Valid()
      ensures ValidName(typed).None? ==> r == InvalidName && clients == old(clients)
      ensures ValidName(typed).Some? && Registered(old(clients), ValidName(typed).value)
              ==> r == DuplicateName && clients == old(clients)
      ensures ValidName(typed).Some? && !Registered(old(clients), ValidName(typed).value)
              ==> r == Added(Client(ValidName(typed).value, Strip(uuidOutput), Flow))
                  && clients == old(clients) + [r.client]
      ensures UniqueEmails(old(clients)) ==> UniqueEmails(clients)
      ensures Document() == WithClients(old(Document()), clients)
    {
      var name := ValidName(typed);
      if name.None? {
        r := InvalidName;
      } else {
        var existing := Find(name.value);
        if existing.Some? {
          r := DuplicateName;
        } else {
          var c := Client(name.value, Strip(uuidOutput), Flow);
          assert UniqueEmails(clients) ==> UniqueEmails(clients + [c]) by {
            if UniqueEmails(clients) {
              AppendUnique(clients, c);
            }
          }
          clients := clients + [c];
          r := Added(c);
        }
      }
      WithClientsTwice(loaded, old(clients), clients);
    }

    /**
     * `remove_user_for_email`: deletes the first client with this email and
     * reports whether there was one; otherwise nothing changes.
     */
    method RemoveByEmail(email: string) returns (removed: bool)
      requires Valid()
      modifies this
      ensures Valid()
      ensures removed <==> Registered(old(clients), email)
      ensures !removed ==> clients == old(clients)
      ensures removed ==> clients == RemoveAt(old(clients), FirstWithEmail(old(clients), email).value)
      ensures UniqueEmails(old(clients)) ==> UniqueEmails(clients)
      ensures Document() == WithClients(old(Document()), clients)
    {
      removed := false;
      if clients != [] {
        var i := 0;
        while i < |clients|
          invariant 0 <= i <= |clients| && clients == old(clients) && !removed
          invariant forall k :: 0 <= k < i ==> clients[k].email != email
        {
          if clients[i].email == email {
            assert UniqueEmails(clients) ==> UniqueEmails(RemoveAt(clients, i)) by {
              if UniqueEmails(clients) {
                RemoveAtUnique(clients, i);
              }
            }
            assert FirstWithEmail(old(clients), email) == Some(i);
            clients := RemoveAt(clients, i);
            removed := true;
            break;
          }
          i := i + 1;
        }
        assert !removed ==> !Registered(old(clients), email);
      }
      WithClientsTwice(loaded, old(clients), clients);
    }

    /**
     * `remove_user_interactive`: with a non-empty list, the typed menu number
     * selects the client to delete; anything but a number in range changes
     * nothing.
     */
    method RemoveByChoice(typed: string) returns (r: RemoveOutcome)
      requires Valid()
      modifies this
      ensures Valid()
      ensures old(clients) == [] ==> r == NothingToRemove
      ensures old(clients) != [] && MenuChoice(typed, |old(clients)|) == NotANumber ==> r == NotANumberTyped
      ensures old(clients) != [] && MenuChoice(typed, |old(clients)|) == OutOfRange ==> r == OutOfRangeTyped
      ensures !r.Removed? ==> clients == old(clients)
      ensures r.Removed? <==> old(clients) != [] && MenuChoice(typed, |old(clients)|).Index?
      ensures r.Removed? ==> var i := MenuChoice(typed, |old(clients)|).i;
                             r.email == old(clients)[i].email && clients == RemoveAt(old(clients), i)
      ensures UniqueEmails(old(clients)) ==> UniqueEmails(clients)
      ensures Document() == WithClients(old(Document()), clients)
    {
      if clients == [] {
        r := NothingToRemove;
      } else {
        var choice := MenuChoice(typed, |clients|);
        if choice == NotANumber {
          r := NotANumberTyped;
        } else if choice == OutOfRange {
          r := OutOfRangeTyped;
        } else {
          var i := choice.i;
          var email := clients[i].email;
          assert UniqueEmails(clients) ==> UniqueEmails(RemoveAt(clients, i)) by {
            if UniqueEmails(clients) {
              RemoveAtUnique(clients, i);
            }
          }
          clients := RemoveAt(clients, i);
          r := Removed(email);
        }
      }
      WithClientsTwice(loaded, old(clients), clients);
    }

    /**
     * `make_link_for_email`: the link of the first client with this email,
     * over the key map and the address `curl` printed (trimmed).
     */
    method MakeLink(email: string, keys: map<string, string>, ipOutput: string) returns (r: LinkOutcome)
      requires Valid()
      ensures r == LinkFor(Document(), keys, Strip(ipOutput), email)
    {
      var found := Find(email);
      if found.None? {
        return UserNotFound;
      }
      LinkWithIdKeeps(loaded, clients, clients[found.value].id, keys, Strip(ipOutput), email);
      r := LinkWithId(loaded, clients[found.value].id, keys, Strip(ipOutput), email);
    }
  }

  /** Choosing entry `i` from the menu deletes the same client as deleting by its email, when emails are distinct. */
  lemma ChoiceAgreesWithEmail(cs: seq<Client>, i: nat, before: string, after: string)
    requires i < |cs| && UniqueEmails(cs)
    requires forall k :: 0 <= k < |before| ==> IsSpace(before[k])
    requires forall k :: 0 <= k < |after| ==> IsSpace(after[k])
    ensures MenuChoice(before + NatToString(i + 1) + after, |cs|) == Index(i)
    ensures FirstWithEmail(cs, cs[i].email) == Some(i)
  {
    MenuChoiceSelects(i, |cs|, before, after);
    FirstWithEmailOfUnique(cs, i);
  }
}
