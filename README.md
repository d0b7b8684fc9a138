# Xray client registry — a Dafny model

This project models the user manager of an Xray VLESS + REALITY server.
It also models the installer steps that feed the manager.

The manager keeps the server's clients in the Xray configuration document.
The clients are the records `{email, id, flow}` under `inbounds[0].settings.clients`.
It can do four things:
- list the clients;
- add a client under a typed name, with a fresh id from `xray uuid`;
- delete a client, either by email or by the number shown in a menu;
- print the `vless://` share link of a client.

That link is built from:
- the client's id;
- the server's public address;
- the inbound's protocol and port;
- the first REALITY server name;
- the public key and short id from the `.keys` file.

The installer writes the `.keys` file, then parses it back. From it, the installer builds the first configuration document, whose only client is `main`, and prints the link for that client.

Modules:

- `Wrappers`: `Option`.
- `Text`: the Python string operations the code relies on, with their properties:
  - `str.strip()` over the full `str.isspace()` set;
  - `sep in s`, `str.find` and `str.split(sep, 1)`;
  - ASCII `str.isdigit()` / `int()` and `str()` of an integer.
- `JsonValue`, `XrayConfig`: the document as a JSON value, and what the manager reads from it:
  - the client records;
  - protocol, port and server names;
  - the REALITY private key and short ids.

  Also the write-back of the client list (`WithClients`) and what that write-back keeps.
- `Keys`: the `.keys` file.
  - The line the installer writes.
  - `load_keys` (`LoadKeys`, a loop), proved against `Collect(lines, ManagerLine)`.
  - `extract_keys` (`ExtractKeys`, a loop), proved against `Collect(lines, InstallerLine)`.
  - The lookup law of `Collect`: a key is present iff some line defines it, and the last defining line wins.
  - Both parsers reading back what the installer writes.
- `Links`: the share link `protocol://id@host:port?query#fragment`, and `ParseLink`, which reads a link back into its components by splitting at the first occurrence of each delimiter.
- `Manager`: the registry.
  - The class `Registry` holds the document that was read (`loaded`) and the client list the actions edit (`clients`).
  - `Document()` is what the file holds after the last write-back, `WithClients(loaded, clients)`.
  - Its methods are the actions of `manager.py`; around them sit the pure functions and lemmas they are specified by.
- `Installer`: `create_config` and the installer's link.

The outputs of shell commands become parameters: `uuidOutput` for `xray uuid` and `ipOutput` for `curl -4 -s icanhazip.com`. `run()` strips its output, so the model applies `Strip` to them.

Most places where the script crashes become explicit outcomes:
- a `KeyError` or `IndexError` on a document or key map that lacks something, when building a link or the first document;
- the `k, v = ...` unpacking in `extract_keys`.

One crash is a precondition instead. `get_users` raises when `inbounds[0].settings.clients` is missing. `Registry.Load` requires that list and, unlike the code, also requires every record to be a client object of the shape given under `XrayConfig.ClientFromJson` in "## Left out".

## Model

| member | source | states |
|---|---|---|
| Text.Strip | manager.py:34 | `str.strip()`: the result is no longer than the input and has no whitespace at either end |
| Text.StripEmpty | manager.py:87-88 | a name strips to empty exactly when it is all whitespace |
| Text.StripKeeps | manager.py:59-60 | a non-whitespace character (the colon) survives stripping |
| Text.StripInside | manager.py:59-60 | stripping adds no character |
| Text.StripOfPadded | manager.py:124 | whitespace around a stripped string is exactly what `strip()` removes |
| Text.StripSkipsTrailingSpace | manager.py:59 | a trailing line break or blank does not change `strip()` |
| Text.FindFirst | manager.py:62 | `str.find`: the first occurrence, none before it, and `None` iff the separator does not occur |
| Text.Split1 | manager.py:62 | `split(sep, 1)`: one part iff `sep` does not occur; otherwise two parts that rebuild the input around the first `sep`, the one `FindFirst` finds |
| Text.Split1Of | installer.py:52 | `a + sep + b` splits back into `a` and `b` when `a` lacks the first character of `sep` |
| Text.Split1AtPair | installer.py:52 | for a separator of two different characters such as `": "`, `a + sep + b` splits back into `a` and `b` whenever `sep` does not occur in `a` |
| Text.OccursChar | manager.py:60 | for one character, substring `in` is character membership |
| Text.NatToString | manager.py:197 | `str(n)` is decimal digits with no leading zero |
| Text.DigitsValueOfNatToString | manager.py:128 | `int(str(n)) == n` |
| XrayConfig.ClientFromJson | manager.py:100-104 | a client record read from JSON is written back as the same JSON |
| XrayConfig.ClientRoundTrip | manager.py:100-104 | writing a client and reading it back gives the same client |
| XrayConfig.ClientsFromJson | manager.py:72 | a client list read from JSON is written back as the same JSON |
| XrayConfig.ClientsRoundTrip | manager.py:105 | writing a client list and reading it back gives the same list |
| XrayConfig.StringsFromJson | manager.py:193 | a JSON list of strings is read iff every entry is a string, and written back the same |
| XrayConfig.Users | manager.py:71-72 | `get_users`: when it reads, the client records are exactly the JSON list stored at `inbounds[0].settings.clients` |
| XrayConfig.Protocol | manager.py:188 | the string stored at `inbounds[0].protocol`; `None` when the inbound, the key or a string value is missing |
| XrayConfig.Port | manager.py:189 | the integer stored at `inbounds[0].port`; `None` when the inbound, the key or an integer value is missing |
| XrayConfig.ServerNames | installer.py:89 | when it reads, the server names are exactly the JSON list of strings stored at `realitySettings.serverNames` |
| XrayConfig.FirstServerName | manager.py:193 | `serverNames[0]`: it is entry 0 of the stored list whenever that entry is a string, whatever the other entries are, and the first of `ServerNames` when the whole list reads |
| XrayConfig.WithClients | manager.py:105 | after the write-back, `get_users` returns exactly the new list |
| XrayConfig.WithClientsKeeps | manager.py:135 | the write-back leaves protocol, port, REALITY settings, server names, private key and short ids unchanged |
| XrayConfig.WithClientsFrame | manager.py:105 | the write-back changes only the client list: the top-level keys and every entry but `inbounds` keep their values, the inbounds after the first are kept, and the first inbound and its `settings` keep every entry but `settings` and `clients` respectively |
| XrayConfig.WithClientsOfUsers | manager.py:164 | writing back the list that was read leaves the document exactly as it was |
| XrayConfig.WithClientsTwice | manager.py:105 | a second write-back overrides the first completely |
| Keys.Collect | manager.py:56-63 | the dictionary both parsers fill, line by line in file order, a later line overriding an earlier one, `None` at the first line that raises; its laws are `CollectFails` and `CollectLookup` |
| Keys.CollectFails | installer.py:49-56 | reading the file fails exactly when some line is malformed |
| Keys.CollectLookup | manager.py:57-63 | a key is in the dictionary iff some line defines it, and its value comes from the last such line |
| Keys.KeyFileLine | installer.py:38-40 | the line `f"{key}: {value}\n"` the installer writes; both parsers read it back (`ManagerReadsKeyFileLine`, `InstallerReadsKeyFileLine`) |
| Keys.KeyFile | installer.py:36-44 | the written file: one such line per entry, in order |
| Keys.ManagerLine | manager.py:59-63 | a `load_keys` line is never malformed; it is skipped iff it has no colon; the key and value are stripped |
| Keys.ManagerLineOfStripped | manager.py:59-63 | a line that strips to `a:b`, with no colon in `a`, is read as the entry `strip(a)`, `strip(b)`: the split is at the first colon of the stripped line |
| Keys.LoadKeys | manager.py:50-64 | the loop builds `Collect(lines, ManagerLine)` |
| Keys.ManagerReadsKeyFileLine | manager.py:59-63 | `load_keys` reads a written `k: v` line back as `k`, `v`, also when `v` is empty |
| Keys.ManagerReadsKeyFile | installer.py:36-44 | `load_keys` of a written key file is the dictionary it was written from |
| Keys.InstallerLine | installer.py:51-56 | an `extract_keys` entry has a stripped key and a stripped value; a line holding `": "` raises exactly when its stripped form no longer holds `": "` |
| Keys.InstallerLineOfStripped | installer.py:51-53 | a line holding `": "` that strips to `a: b`, with no `": "` in `a`, is read as `strip(a)`, `strip(b)`: the split is at the first `": "` of the stripped line |
| Keys.InstallerKeyPairLineOfStripped | installer.py:54-56 | a line without `": "` that starts with `PrivateKey:` or `PublicKey:` and strips to `a:b`, with no colon in `a`, is read as `strip(a)`, `strip(b)` |
| Keys.InstallerLineWithoutSeparator | installer.py:54-56 | a line without `": "` is ignored unless it starts with `PrivateKey:` or `PublicKey:`, and such a line is always read |
| Keys.InstallerReadsKeyFileLine | installer.py:51-53 | `extract_keys` reads a written `k: v` line back as `k`, `v` when `v` is not empty |
| Keys.InstallerRejectsEmptyValue | installer.py:51-52 | a written `k: ` line with an empty value makes the unpacking raise |
| Keys.ExtractKeys | installer.py:47-57 | the loop builds `Collect(lines, InstallerLine)`; it gives `None` where a line raises |
| Keys.InstallerReadsKeyFile | installer.py:36-44 | `extract_keys` of a written key file with non-empty values is the dictionary it was written from |
| Links.ShareLink | manager.py:196-200 | the link f-string: `protocol://id@host:port` (`Authority`), the fixed query around `sni`, `pbk` and `sid` (`Query`), and `#fragment`; `ParseShareLink` reads every component back |
| Links.PublicKeyParam | manager.py:191 | `pbk`: the installer's `Password`-or-empty choice, except that a key file with `PublicKey` and no `Password` gives the public key |
| Links.ShortIdParam | manager.py:192 | `sid`: the key file's short id when it has one, else empty |
| Links.ParseShareLink | manager.py:196-200 | the link reads back into exactly the components it was built from, the fragment verbatim, when no component holds the delimiter that ends it |
| Manager.FirstWithEmail | manager.py:178-182 | the scan finds the first client with the email, none before it; `None` iff no client has it |
| Manager.RemoveAt | manager.py:155 | `del clients[i]`: one entry shorter, the entries before `i` unchanged, those after it shifted down by one |
| Manager.RemoveAtMultiset | manager.py:134 | the deletion loses exactly the deleted entry |
| Manager.RemoveAtUnique | manager.py:155 | the deletion keeps emails distinct, and the deleted email is then unregistered |
| Manager.AppendUnique | manager.py:95-104 | appending under a new email keeps emails pairwise distinct |
| Manager.FirstWithEmailAppend | manager.py:100-104 | an appended client is found last; every other email is found where it was |
| Manager.FirstWithEmailOfUnique | manager.py:152-157 | with distinct emails, the client at `i` is the one the scan for its email finds |
| Manager.AddThenRemove | manager.py:151-157 | adding a new client and then removing by its email restores the list |
| Manager.ValidName | manager.py:87-90 | a name is accepted iff its stripped form is non-empty and contains no space character; the stripped form is kept |
| Manager.ValidNameAllowsOtherWhitespace | manager.py:88 | only `" "` is refused inside a name; a tab or newline between two words is kept |
| Manager.MenuChoice | manager.py:124-131 | not all digits gives "not a number"; a value outside 1..n gives "out of range"; otherwise the selected entry is value-1 |
| Manager.MenuChoiceSelects | manager.py:120-133 | typing the number printed next to entry `i`, with any padding, selects entry `i` |
| Manager.ChoiceAgreesWithEmail | manager.py:133-134 | with distinct emails, menu entry `i` and removal by its email delete the same client |
| Manager.LinkWithId | manager.py:188-200 | a link is made iff the document has a string protocol, an integer port and a string as entry 0 of its server names |
| Manager.LinkWithIdKeeps | manager.py:188-193 | a client-list write-back does not change the link made for a given id |
| Manager.LinkFor | manager.py:178-193 | "user not found" iff no client has the email; a crash iff one does but the document lacks a string protocol, an integer port or a string entry 0 of its server names |
| Manager.LinkForParses | manager.py:190-200 | the link carries the first matching client's id as user information, the address as host, the port, and the email verbatim as fragment |
| Manager.LinkAfterAdd | manager.py:99-110 | the link printed after an add carries the new id and the new email |
| Manager.LinkOfOthersAfterAdd | manager.py:100-105 | an add does not change any other client's link |
| Manager.LinkAfterRemove | manager.py:164-186 | after the only client with an email is removed, no link is made for it |
| Manager.Registry.Load | manager.py:37-42 | the registry holds the clients of the document read, and writing them back reproduces that document |
| Manager.Registry.UserList | manager.py:75-84 | the count is the number of clients (0, i.e. `False`, iff the list is empty), and the emails come in list order |
| Manager.Registry.Find | manager.py:178-182 | the search loop returns `FirstWithEmail` |
| Manager.Registry.Add | manager.py:86-106 | invalid or duplicate names leave the list unchanged; otherwise the list becomes old list + `{name, stripped uuid, vision flow}`; emails stay distinct; the new document is `WithClients` of the old one, so by `WithClientsFrame` it changes only in its client list |
| Manager.Registry.RemoveByEmail | manager.py:142-169 | removes iff some client has the email; then exactly the first such entry is deleted, else nothing changes; emails stay distinct |
| Manager.Registry.RemoveByChoice | manager.py:113-139 | an empty list, a non-number or an out-of-range number change nothing; otherwise exactly entry value-1 is deleted and its email reported |
| Manager.Registry.MakeLink | manager.py:172-200 | the result is `LinkFor` on the saved document, with the stripped address |
| Installer.CreateConfig | installer.py:59-111 | a document is built iff the keys `uuid`, `PrivateKey` and `shortsid` are present |
| Installer.CreateConfigClients | installer.py:75-79 | the created document has exactly one client, `main`, with the key file's `uuid` and the vision flow |
| Installer.CreateConfigInbound | installer.py:70-73 | the created inbound is `vless` on port 443 |
| Installer.CreateConfigReality | installer.py:85-95 | server names `github.com`, `www.github.com`; private key `keys["PrivateKey"]`; short ids `[keys["shortsid"]]` |
| Installer.InstallerLink | installer.py:150-158 | a link is made iff the document is linkable and the keys `uuid` and `shortsid` exist |
| Installer.InstallerLinkOfCreatedConfig | installer.py:150-158 | over the document just created, the link is `vless://uuid@ip:443?...sni=github.com&pbk=<Password or empty>...#vless-<ip>` |
| Installer.ManagerAgreesWithInstaller | installer.py:153-158 | when the key file has `Password` or no `PublicKey`, the manager's link for `main` and the installer's link differ only in the fragment |

## Left out

- Shell commands become parameters or are dropped:
  - `xray uuid` and `curl` are parameters;
  - `systemctl restart xray`, `qrencode`, `apt`, `sysctl`, `openssl` and the install script are not modelled.
- File I/O is not modelled: reading and writing `config.json` and `.keys`, `os.path.exists` with `sys.exit`, and the help file.
  - The configuration document is the registry's state.
  - A missing or unparsable file is a precondition of `Registry.Load`. So is a document whose `inbounds[0].settings.clients` is missing, or holds a record not of the shape given under `XrayConfig.ClientFromJson` below; the code would go on with such records.
  - The key file is given as its lines.
- `Registry` keeps one document across actions. The script instead re-reads the file at the start of each action. The two agree when nothing else writes the file in between.
- Locking and atomic saving are not modelled. The code has no lock around load-modify-save and saves the file in place; the model follows the code.
- Printing, the `menu` loop, `make_link_mainuser` and `sharelink_interactive` are left out. They are prompts around `MakeLink` and `MenuChoice`.
- `main.py` is not part of this model; it is HTTP wiring.
- `Manager.Registry.Add`: an empty `xray uuid` output is accepted as the id, as in the code; the code does not check it.
- `Links.ShareLink`: components are pasted in verbatim, as the code does. The code does not percent-encode the email or any other component.
- `Text.IsDigits` accepts ASCII digits only. Python's `isdigit()` also accepts other Unicode digits, some of which `int()` then rejects.
- `XrayConfig.ClientFromJson` reads only client objects with exactly the string fields `email`, `id` and `flow`. The manager writes clients in that shape. Other shapes, such as a client without `email`, which the code reads as `no-email` or `None`, are outside the model.
- `Manager.LinkFor`: the protocol must be a JSON string, the port a JSON integer and entry 0 of the server names a JSON string. Other JSON types there, which an f-string would also print, count as an unreadable document. The other server names are not looked at.
- `Manager.LinkWithId` and `Installer.InstallerLink` carry the same type restriction on protocol, port and entry 0 of the server names as `Manager.LinkFor`.
- `JsonValue.Json` holds integers only and its objects are unordered maps. `json.load` also returns floating-point numbers, and `json.dump` writes object keys in insertion order; neither is modelled.
