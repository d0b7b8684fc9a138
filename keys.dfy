/**
 * The `.keys` file: the `key: value` lines the installer writes, and the two
 * parsers that read them back, `load_keys` of the manager and the stricter
 * `extract_keys` of the installer. The file is given as its lines, each as
 * Python's `for line in f` yields it (with its line break, if any).
 */
module Keys {
  import opened Wrappers
  import opened Text

  /** What one line contributes to the dictionary. */
  datatype LineResult =
    | Skip                                // the line is ignored
    | Entry(key: string, value: string)   // `keys[key] = value`
    | Malformed                           // the `k, v = ...` unpacking raises

  predicate Defines(e: LineResult, k: string) {
    e.Entry? && e.key == k
  }

  /**
   * The dictionary built by handing the lines, in order, to `entry`: each
   * entry assigns its key, so a later line overrides an earlier one. `None`
   * once some line is malformed, where the Python loop raises.
   */
  function Collect(lines: seq<string>, entry: string -> LineResult): Option<map<string, string>> {
    if lines == [] then Some(map[])
    else
      match Collect(lines[..|lines| - 1], entry)
      case None => None
      case Some(m) =>
        match entry(lines[|lines| - 1])
        case Skip => Some(m)
        case Entry(k, v) => Some(m[k := v])
        case Malformed => None
  }

  /** One more line: what `Collect` does with the line after a prefix. */
  lemma CollectStep(lines: seq<string>, entry: string -> LineResult, i: nat)
    requires i < |lines|
    ensures Collect(lines[..i + 1], entry) ==
      match Collect(lines[..i], entry)
      case None => None
      case Some(m) =>
        match entry(lines[i])
        case Skip => Some(m)
        case Entry(k, v) => Some(m[k := v])
        case Malformed => None
  {
    assert lines[..i + 1][..i] == lines[..i];
    assert lines[..i + 1][i] == lines[i];
  }

  /** Collecting fails exactly when some line is malformed. */
  lemma {:induction false} CollectFails(lines: seq<string>, entry: string -> LineResult)
    ensures Collect(lines, entry).None? <==> exists i :: 0 <= i < |lines| && entry(lines[i]).Malformed?
  {
    if lines != [] {
      var init := lines[..|lines| - 1];
      CollectFails(init, entry);
      assert forall i :: 0 <= i < |init| ==> init[i] == lines[i];
    }
  }

  /**
   * A key is in the collected dictionary exactly when some line defines it,
   * and its value is the one the LAST such line gives.
   */
  lemma {:induction false} CollectLookup(lines: seq<string>, entry: string -> LineResult, k: string)
    requires Collect(lines, entry).Some?
    ensures k in Collect(lines, entry).value <==> exists i :: 0 <= i < |lines| && Defines(entry(lines[i]), k)
    ensures forall i :: 0 <= i < |lines| && Defines(entry(lines[i]), k)
                     && (forall j :: i < j < |lines| ==> !Defines(entry(lines[j]), k))
                     ==> Collect(lines, entry).value[k] == entry(lines[i]).value
  {
    if lines != [] {
      var n := |lines| - 1;
      var init := lines[..n];
      assert forall i :: 0 <= i < n ==> init[i] == lines[i];
      CollectLookup(init, entry, k);
    }
  }

  // ---------------------------------------------------------------------
  // Writing the file

  /** One line as the installer writes it: `f"{key}: {value}\n"`. */
  function KeyFileLine(key: string, value: string): string {
    key + ": " + value + "\n"
  }

  /** A key the parsers can read back: not empty, no whitespace at its ends, no colon. */
  predicate WellFormedKey(k: string) {
    k != [] && Stripped(k) && ':' !in k
  }

  // ---------------------------------------------------------------------
  // `load_keys` (manager)

  /**
   * One line of `load_keys`: strip it; skip it when blank or without a colon;
   * else split at the first colon and strip both halves.
   */
  function ManagerLine(line: string): (r: LineResult)
    ensures !r.Malformed?
    ensures r.Entry? ==> Stripped(r.key) && Stripped(r.value)
    ensures r.Skip? <==> ':' !in line
  {
    var t := Strip(line);
    if t == [] || ':' !in t then
      assert ':' !in line by {
        if ':' in line { StripKeeps(line, ':'); }
      }
      Skip
    else
      assert ':' in line by { StripInside(line, ':'); }
      OccursChar(t, ':');
      var parts := Split1(t, ":");
      Entry(Strip(parts[0]), Strip(parts[1]))
  }

  /** `load_keys`: the loop filling the dictionary line by line. */
  method LoadKeys(lines: seq<string>) returns (keys: map<string, string>)
    ensures Collect(lines, ManagerLine) == Some(keys)
  {
    keys := map[];
    for i := 0 to |lines|
      invariant Collect(lines[..i], ManagerLine) == Some(keys)
    {
      var e := ManagerLine(lines[i]);
      CollectStep(lines, ManagerLine, i);
      if e.Entry? {
        keys := keys[e.key := e.value];
      }
    }
    assert lines[..|lines|] == lines;
  }

  /** Stripping a written line removes its line break ... */
  lemma StripKeyFileLine(k: string, v: string)
    requires WellFormedKey(k) && Stripped(v) && v != []
    ensures Strip(KeyFileLine(k, v)) == k + ": " + v
  {
    var body := k + ": " + v;
    assert KeyFileLine(k, v) == body + ['\n'];
    StripSkipsTrailingSpace(body, '\n');
    assert body[0] == k[0] && body[|body| - 1] == v[|v| - 1];
    StripOfStripped(body);
  }

  /** ... and also the blank after the colon when the value is empty. */
  lemma StripKeyFileLineEmpty(k: string)
    requires WellFormedKey(k)
    ensures Strip(KeyFileLine(k, "")) == k + ":"
  {
    var body := k + ": ";
    assert KeyFileLine(k, "") == body + ['\n'];
    StripSkipsTrailingSpace(body, '\n');
    StripKeyColonBlank(k);
  }

  lemma StripKeyColonBlank(k: string)
    requires WellFormedKey(k)
    ensures Strip(k + ": ") == k + ":"
  {
    var t := k + ":";
    var u := k + ": ";
    assert u[0] == k[0];
    assert TrimLeft(u) == u;
    assert u[..|u| - 1] == t;
    assert TrimRight(u) == TrimRight(t);
    assert t[|t| - 1] == ':';
    assert TrimRight(t) == t;
  }

  /** A line that strips to `a:b`, with no colon in `a`, is read as the entry `a`, `b`, both stripped. */
  lemma ManagerLineOfStripped(line: string, a: string, b: string)
    requires Strip(line) == a + ":" + b && ':' !in a
    ensures ManagerLine(line) == Entry(Strip(a), Strip(b))
  {
    var t := Strip(line);
    assert t[|a|] == ':';
    Split1Of(a, ":", b);
  }

  /** `load_keys` reads back any line the installer writes, empty value included. */
  lemma ManagerReadsKeyFileLine(k: string, v: string)
    requires WellFormedKey(k) && Stripped(v)
    ensures ManagerLine(KeyFileLine(k, v)) == Entry(k, v)
  {
    if v == [] {
      ManagerReadsEmptyValue(k);
    } else {
      ManagerReadsValue(k, v);
    }
  }

  lemma ManagerReadsEmptyValue(k: string)
    requires WellFormedKey(k)
    ensures ManagerLine(KeyFileLine(k, "")) == Entry(k, "")
  {
    StripKeyFileLineEmpty(k);
    assert k + ":" == k + ":" + "";
    ManagerLineOfStripped(KeyFileLine(k, ""), k, "");
    StripOfStripped(k);
  }

  /** `k: v` is `k`, a colon, and the value with its leading blank. */
  lemma SeparatorRegroup(k: string, v: string)
    ensures k + ": " + v == k + ":" + (" " + v)
  {
    assert ": " == ":" + " ";
  }

  lemma ManagerReadsValue(k: string, v: string)
    requires WellFormedKey(k) && Stripped(v) && v != []
    ensures ManagerLine(KeyFileLine(k, v)) == Entry(k, v)
  {
    assert Strip(KeyFileLine(k, v)) == k + ":" + (" " + v) by {
      StripKeyFileLine(k, v);
      SeparatorRegroup(k, v);
    }
    ManagerLineOfStripped(KeyFileLine(k, v), k, " " + v);
    assert Strip(k) == k by { StripOfStripped(k); }
    assert Strip(" " + v) == v by {
      StripSkipsLeadingSpace(' ', v);
      StripOfStripped(v);
    }
  }

  // ---------------------------------------------------------------------
  // `extract_keys` (installer)

  /**
   * One line of `extract_keys`. A line containing `": "` is stripped and split
   * at the first `": "` (the unpacking raises when, after stripping, no
   * `": "` is left); otherwise a line that starts, unstripped, with
   * `PrivateKey:` or `PublicKey:` is stripped and split at the first colon;
   * every other line is ignored.
   */
  function InstallerLine(line: string): (r: LineResult)
    ensures r.Entry? ==> Stripped(r.key) && Stripped(r.value)
    ensures Occurs(line, ": ") ==> (r.Malformed? <==> !Occurs(Strip(line), ": "))
  {
    if Occurs(line, ": ") then
      var parts := Split1(Strip(line), ": ");
      if |parts| == 2 then Entry(Strip(parts[0]), Strip(parts[1])) else Malformed
    else if StartsWith(line, "PrivateKey:") || StartsWith(line, "PublicKey:") then
      var parts := Split1(Strip(line), ":");
      if |parts| == 2 then Entry(Strip(parts[0]), Strip(parts[1])) else Malformed
    else
      Skip
  }

  /**
   * A line holding `": "` that strips to `a: b`, with no `": "` in `a`, is
   * read as the entry `a`, `b`, both stripped: the split is at the first
   * `": "` of the stripped line.
   */
  lemma InstallerLineOfStripped(line: string, a: string, b: string)
    requires Occurs(line, ": ") && Strip(line) == a + ": " + b && !Occurs(a, ": ")
    ensures InstallerLine(line) == Entry(Strip(a), Strip(b))
  {
    Split1AtPair(a, ": ", b);
  }

  /**
   * A line without `": "` that starts with `PrivateKey:` or `PublicKey:` and
   * strips to `a:b`, with no colon in `a`, is read as the entry `a`, `b`, both
   * stripped: the split is at the first colon of the stripped line.
   */
  lemma InstallerKeyPairLineOfStripped(line: string, a: string, b: string)
    requires !Occurs(line, ": ") && (StartsWith(line, "PrivateKey:") || StartsWith(line, "PublicKey:"))
    requires Strip(line) == a + ":" + b && ':' !in a
    ensures InstallerLine(line) == Entry(Strip(a), Strip(b))
  {
    Split1Of(a, ":", b);
  }

  /** A line without `": "` and without the key-pair prefix is ignored; one with the prefix is always read. */
  lemma InstallerLineWithoutSeparator(line: string)
    requires !Occurs(line, ": ")
    ensures InstallerLine(line).Skip? <==> !(StartsWith(line, "PrivateKey:") || StartsWith(line, "PublicKey:"))
    ensures !InstallerLine(line).Malformed?
  {
    if StartsWith(line, "PrivateKey:") || StartsWith(line, "PublicKey:") {
      var c := if StartsWith(line, "PrivateKey:") then 10 else 9;
      assert line[c] == ':';
      StripKeeps(line, ':');
      OccursChar(Strip(line), ':');
    }
  }

  /** A written line holds `": "` right after the key. */
  lemma KeyFileLineSeparated(k: string, v: string)
    ensures Occurs(KeyFileLine(k, v), ": ")
  {
    var line := KeyFileLine(k, v);
    assert OccursAt(line, ": ", |k|) by {
      assert line[|k|..|k| + 2] == ": ";
    }
  }

  /** A key without a colon followed by a bare colon holds no `": "`. */
  lemma NoSeparatorAfterKey(k: string)
    requires ':' !in k
    ensures !Occurs(k + ":", ": ")
  {
    var t := k + ":";
    forall j | 0 <= j <= |t| - 2 ensures !OccursAt(t, ": ", j) {
      assert t[j] == k[j];
      assert t[j..j + 2][0] == t[j];
    }
  }

  /** `extract_keys` reads back a line the installer writes when its value is not empty. */
  lemma InstallerReadsKeyFileLine(k: string, v: string)
    requires WellFormedKey(k) && Stripped(v) && v != []
    ensures InstallerLine(KeyFileLine(k, v)) == Entry(k, v)
  {
    KeyFileLineSeparated(k, v);
    StripKeyFileLine(k, v);
    Split1Of(k, ": ", v);
    StripOfStripped(k);
    StripOfStripped(v);
  }

  /** ... and raises on one whose value is empty: `"k: \n"` strips to `"k:"`, which has no `": "`. */
  lemma InstallerRejectsEmptyValue(k: string)
    requires WellFormedKey(k)
    ensures InstallerLine(KeyFileLine(k, "")) == Malformed
  {
    KeyFileLineSeparated(k, "");
    StripKeyFileLineEmpty(k);
    NoSeparatorAfterKey(k);
  }

  /** `extract_keys`: the loop filling the dictionary, stopped by the first malformed line. */
  method ExtractKeys(lines: seq<string>) returns (keys: Option<map<string, string>>)
    ensures keys == Collect(lines, InstallerLine)
  {
    var m := map[];
    for i := 0 to |lines|
      invariant Collect(lines[..i], InstallerLine) == Some(m)
    {
      var e := InstallerLine(lines[i]);
      CollectStep(lines, InstallerLine, i);
      if e.Malformed? {
        CollectFails(lines, InstallerLine);
        keys := None;
        return;
      }
      if e.Entry? {
        m := m[e.key := e.value];
      }
    }
    assert lines[..|lines|] == lines;
    keys := Some(m);
  }

  // ---------------------------------------------------------------------
  // Whole files

  /** The file written from `entries`, in order. */
  function KeyFile(entries: seq<(string, string)>): (lines: seq<string>)
    ensures |lines| == |entries|
    ensures forall i :: 0 <= i < |entries| ==> lines[i] == KeyFileLine(entries[i].0, entries[i].1)
  {
    seq(|entries|, i requires 0 <= i < |entries| => KeyFileLine(entries[i].0, entries[i].1))
  }

  /** The dictionary `entries` describe when assigned in order. */
  function Assigned(entries: seq<(string, string)>): map<string, string> {
    if entries == [] then map[]
    else Assigned(entries[..|entries| - 1])[entries[|entries| - 1].0 := entries[|entries| - 1].1]
  }

  /** Keys and values the installer writes so that both parsers read them back. */
  predicate Readable(entries: seq<(string, string)>) {
    forall i :: 0 <= i < |entries| ==> WellFormedKey(entries[i].0) && Stripped(entries[i].1)
  }

  /** `load_keys` of a key file gives back exactly the dictionary it was written from. */
  lemma {:induction false} ManagerReadsKeyFile(entries: seq<(string, string)>)
    requires Readable(entries)
    ensures Collect(KeyFile(entries), ManagerLine) == Some(Assigned(entries))
  {
    if entries != [] {
      var n := |entries| - 1;
      ManagerReadsKeyFile(entries[..n]);
      assert KeyFile(entries)[..n] == KeyFile(entries[..n]);
      ManagerReadsKeyFileLine(entries[n].0, entries[n].1);
    }
  }

  /** So does `extract_keys`, provided no value is empty. */
  lemma {:induction false} InstallerReadsKeyFile(entries: seq<(string, string)>)
    requires Readable(entries)
    requires forall i :: 0 <= i < |entries| ==> entries[i].1 != []
    ensures Collect(KeyFile(entries), InstallerLine) == Some(Assigned(entries))
  {
    if entries != [] {
      var n := |entries| - 1;
      InstallerReadsKeyFile(entries[..n]);
      assert KeyFile(entries)[..n] == KeyFile(entries[..n]);
      InstallerReadsKeyFileLine(entries[n].0, entries[n].1);
    }
  }
}
