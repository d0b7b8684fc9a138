/**
 * The handful of Python string operations the registry and the key-file
 * parsers rely on: `str.strip()`, `sub in s`, `str.split(sep, 1)`,
 * `str.isdigit()` with `int()`, and `str()` of an integer.
 */
module Text {
  import opened Wrappers

  /** One character of Python's `str.isspace()`: exactly what `str.strip()` removes. */
  predicate IsSpace(c: char) {
    || ('\t' <= c <= '\r')
    || ('\U{1C}' <= c <= ' ')
    || c == '\U{85}' || c == '\U{A0}' || c == '\U{1680}'
    || ('\U{2000}' <= c <= '\U{200A}')
    || c == '\U{2028}' || c == '\U{2029}' || c == '\U{202F}' || c == '\U{205F}' || c == '\U{3000}'
  }

  /** `s.lstrip()`: the longest suffix of `s` that does not start with whitespace. */
  function TrimLeft(s: string): (r: string)
    ensures |r| <= |s|
    ensures r != [] ==> !IsSpace(r[0])
  {
    if s != [] && IsSpace(s[0]) then TrimLeft(s[1..]) else s
  }

  /** What `TrimLeft` keeps is a suffix of `s`. */
  lemma {:induction false} TrimLeftIsSuffix(s: string)
    ensures TrimLeft(s) == s[|s| - |TrimLeft(s)|..]
  {
    if s != [] && IsSpace(s[0]) {
      TrimLeftIsSuffix(s[1..]);
      assert s[1..][|s| - 1 - |TrimLeft(s)|..] == s[|s| - |TrimLeft(s)|..];
    }
  }

  /** What `TrimLeft` drops is whitespace only. */
  lemma {:induction false} TrimLeftDropsSpace(s: string)
    ensures forall k :: 0 <= k < |s| - |TrimLeft(s)| ==> IsSpace(s[k])
  {
    if s != [] && IsSpace(s[0]) {
      TrimLeftDropsSpace(s[1..]);
    }
  }

  /** `s.rstrip()`: the longest prefix of `s` that does not end with whitespace. */
  function TrimRight(s: string): (r: string)
    ensures |r| <= |s|
    ensures r != [] ==> !IsSpace(r[|r| - 1]) && r[0] == s[0]
  {
    if s != [] && IsSpace(s[|s| - 1]) then TrimRight(s[..|s| - 1]) else s
  }

  /** What `TrimRight` keeps is a prefix of `s`. */
  lemma {:induction false} TrimRightIsPrefix(s: string)
    ensures TrimRight(s) == s[..|TrimRight(s)|]
  {
    if s != [] && IsSpace(s[|s| - 1]) {
      TrimRightIsPrefix(s[..|s| - 1]);
    }
  }

  /** What `TrimRight` drops is whitespace only. */
  lemma {:induction false} TrimRightDropsSpace(s: string)
    ensures forall k :: |TrimRight(s)| <= k < |s| ==> IsSpace(s[k])
  {
    if s != [] && IsSpace(s[|s| - 1]) {
      TrimRightDropsSpace(s[..|s| - 1]);
    }
  }

  /** A string with no whitespace at either end. */
  predicate Stripped(s: string) {
    s == [] || (!IsSpace(s[0]) && !IsSpace(s[|s| - 1]))
  }

  /** `s.strip()`: `s` without its leading and trailing whitespace. */
  function Strip(s: string): (r: string)
    ensures |r| <= |s| && Stripped(r)
  {
    TrimRight(TrimLeft(s))
  }

  /** Where the text `Strip` keeps starts in `s`. */
  function StripStart(s: string): nat {
    |s| - |TrimLeft(s)|
  }

  /** What `Strip` keeps is a contiguous run of `s`... */
  lemma StripIsSlice(s: string)
    ensures StripStart(s) + |Strip(s)| <= |s|
    ensures Strip(s) == s[StripStart(s)..StripStart(s) + |Strip(s)|]
  {
    var t := TrimLeft(s);
    var r := TrimRight(t);
    var i := StripStart(s);
    TrimLeftIsSuffix(s);
    TrimRightIsPrefix(t);
    assert t == s[i..];
    assert r == t[..|r|];
    assert forall k :: 0 <= k < |r| ==> r[k] == s[i + k];
  }

  /** Character `j` of `Strip(s)` is character `StripStart(s) + j` of `s`. */
  lemma StripCharAt(s: string, j: nat)
    requires j < |Strip(s)|
    ensures StripStart(s) + j < |s| && Strip(s)[j] == s[StripStart(s) + j]
  {
    StripIsSlice(s);
    var i := StripStart(s);
    var sub := s[i..i + |Strip(s)|];
    assert sub[j] == s[i + j];
  }

  /** ... with only whitespace on either side of it. */
  lemma StripDropsSpace(s: string)
    ensures forall k :: 0 <= k < StripStart(s) ==> IsSpace(s[k])
    ensures forall k :: StripStart(s) + |Strip(s)| <= k < |s| ==> IsSpace(s[k])
  {
    var t := TrimLeft(s);
    var i := StripStart(s);
    var r := TrimRight(t);
    TrimLeftDropsSpace(s);
    TrimRightDropsSpace(t);
    TrimLeftIsSuffix(s);
    assert t == s[i..];
    forall k | i + |r| <= k < |s| ensures IsSpace(s[k]) {
      assert s[k] == t[k - i];
    }
  }

  /** `Strip` gives the empty string exactly when `s` is all whitespace. */
  lemma StripEmpty(s: string)
    ensures Strip(s) == [] <==> forall k :: 0 <= k < |s| ==> IsSpace(s[k])
  {
    StripDropsSpace(s);
    if Strip(s) != [] {
      StripIsSlice(s);
      assert s[StripStart(s)] == Strip(s)[0];
    }
  }

  /** A character that is not whitespace survives `Strip`... */
  lemma StripKeeps(s: string, c: char)
    requires c in s && !IsSpace(c)
    ensures c in Strip(s)
  {
    var j :| 0 <= j < |s| && s[j] == c;
    var i := StripStart(s);
    var r := Strip(s);
    assert i <= j < i + |r| by {
      StripDropsSpace(s);
      assert !IsSpace(s[j]);
    }
    StripIsSlice(s);
    assert r[j - i] == s[j];
  }

  /** ... and `Strip` adds no character. */
  lemma StripInside(s: string, c: char)
    requires c in Strip(s)
    ensures c in s
  {
    var r := Strip(s);
    var j :| 0 <= j < |r| && r[j] == c;
    StripCharAt(s, j);
  }

  /** A stripped string is its own `Strip`. */
  lemma StripOfStripped(s: string)
    requires Stripped(s)
    ensures Strip(s) == s
  {
  }

  /** Whitespace at the front does not change `Strip`. */
  lemma StripSkipsLeadingSpace(c: char, s: string)
    requires IsSpace(c)
    ensures Strip([c] + s) == Strip(s)
  {
    assert ([c] + s)[1..] == s;
  }

  /** Whitespace at the end does not change `Strip`. */
  lemma {:induction false} StripSkipsTrailingSpace(s: string, c: char)
    requires IsSpace(c)
    ensures Strip(s + [c]) == Strip(s)
  {
    var sc := s + [c];
    if s == [] {
      assert TrimLeft(sc) == TrimLeft(sc[1..]);
      assert sc[1..] == [];
    } else if !IsSpace(s[0]) {
      assert TrimLeft(sc) == sc;
      assert TrimLeft(s) == s;
      assert TrimRight(sc) == TrimRight(sc[..|s|]);
      assert sc[..|s|] == s;
    } else {
      assert TrimLeft(sc) == TrimLeft(sc[1..]);
      assert sc[1..] == s[1..] + [c];
      assert TrimLeft(s) == TrimLeft(s[1..]);
      StripSkipsTrailingSpace(s[1..], c);
    }
  }

  /** Whitespace in front does not change `Strip`. */
  lemma {:induction false} StripOfLeftPadded(before: string, s: string)
    requires forall k :: 0 <= k < |before| ==> IsSpace(before[k])
    ensures Strip(before + s) == Strip(s)
  {
    if before != [] {
      var tail := before[1..];
      assert forall k :: 0 <= k < |tail| ==> tail[k] == before[k + 1];
      StripSkipsLeadingSpace(before[0], tail + s);
      assert [before[0]] + (tail + s) == before + s;
      StripOfLeftPadded(tail, s);
    } else {
      assert before + s == s;
    }
  }

  /** Whitespace at the end does not change `Strip`. */
  lemma {:induction false} StripOfRightPadded(s: string, after: string)
    requires forall k :: 0 <= k < |after| ==> IsSpace(after[k])
    ensures Strip(s + after) == Strip(s)
  {
    if after != [] {
      var a := after[..|after| - 1];
      assert forall k :: 0 <= k < |a| ==> a[k] == after[k];
      StripSkipsTrailingSpace(s + a, after[|after| - 1]);
      assert (s + a) + [after[|after| - 1]] == s + after;
      StripOfRightPadded(s, a);
    } else {
      assert s + after == s;
    }
  }

  /** Whitespace padding on either side of a stripped string is exactly what `Strip` removes. */
  lemma StripOfPadded(before: string, s: string, after: string)
    requires forall k :: 0 <= k < |before| ==> IsSpace(before[k])
    requires forall k :: 0 <= k < |after| ==> IsSpace(after[k])
    requires Stripped(s)
    ensures Strip(before + s + after) == s
  {
    var t := s + after;
    assert before + s + after == before + t;
    StripOfLeftPadded(before, t);
    StripOfRightPadded(s, after);
    StripOfStripped(s);
  }

  // ---------------------------------------------------------------------
  // Substring search and `str.split(sep, 1)`

  /** `sep` occurs in `s` starting at index `j`. */
  predicate OccursAt(s: string, sep: string, j: int) {
    0 <= j && j + |sep| <= |s| && s[j..j + |sep|] == sep
  }

  /** Python's `sep in s`. */
  predicate Occurs(s: string, sep: string) {
    exists j | 0 <= j <= |s| - |sep| :: OccursAt(s, sep, j)
  }

  /** An occurrence past the first character is an occurrence in the rest of the string. */
  lemma OccursAtShift(s: string, sep: string, j: int)
    requires s != [] && 1 <= j
    ensures OccursAt(s, sep, j) <==> OccursAt(s[1..], sep, j - 1)
  {
    if j + |sep| <= |s| {
      assert s[1..][j - 1..j - 1 + |sep|] == s[j..j + |sep|];
    }
  }

  /** `s.find(sep)`: the first index where `sep` occurs, or `None`. */
  function FindFirst(s: string, sep: string): (r: Option<nat>)
    requires sep != []
    ensures r.Some? ==> OccursAt(s, sep, r.value)
    ensures r.Some? ==> forall j :: 0 <= j < r.value ==> !OccursAt(s, sep, j)
    ensures r.None? <==> !Occurs(s, sep)
  {
    if |s| < |sep| then
      None
    else if s[..|sep|] == sep then
      assert OccursAt(s, sep, 0);
      Some(0)
    else
      var rest := FindFirst(s[1..], sep);
      assert forall j :: 1 <= j ==> (OccursAt(s, sep, j) <==> OccursAt(s[1..], sep, j - 1)) by {
        forall j | 1 <= j ensures OccursAt(s, sep, j) <==> OccursAt(s[1..], sep, j - 1) {
          OccursAtShift(s, sep, j);
        }
      }
      assert !OccursAt(s, sep, 0);
      match rest
      case None => None
      case Some(i) => Some(i + 1)
  }

  /** Python's `s.split(sep, 1)`: `[s]` when `sep` does not occur, else the parts before and after its first occurrence. */
  function Split1(s: string, sep: string): (parts: seq<string>)
    requires sep != []
    ensures |parts| == 1 <==> !Occurs(s, sep)
    ensures |parts| == 1 ==> parts[0] == s
    ensures |parts| == 2 ==> s == parts[0] + sep + parts[1] && !Occurs(parts[0], sep)
    ensures |parts| == 2 ==> FindFirst(s, sep) == Some(|parts[0]|)
    ensures |parts| == 1 || |parts| == 2
  {
    match FindFirst(s, sep)
    case None => [s]
    case Some(i) =>
      assert s == s[..i] + sep + s[i + |sep|..];
      assert !Occurs(s[..i], sep) by {
        forall j | 0 <= j <= i - |sep| ensures !OccursAt(s[..i], sep, j) {
          assert !OccursAt(s, sep, j);
          assert s[..i][j..j + |sep|] == s[j..j + |sep|];
        }
      }
      [s[..i], s[i + |sep|..]]
  }

  /** When the first character of `sep` is absent from `a`, `a + sep + b` splits back into `a` and `b`. */
  lemma {:induction false} Split1Of(a: string, sep: string, b: string)
    requires sep != [] && sep[0] !in a
    ensures Split1(a + sep + b, sep) == [a, b]
  {
    var s := a + sep + b;
    assert OccursAt(s, sep, |a|) by {
      assert s[|a|..|a| + |sep|] == sep;
    }
    var i := FindFirst(s, sep).value;
    assert i == |a|;
    assert s[..|a|] == a;
    assert s[|a| + |sep|..] == b;
  }

  /**
   * For a two-character separator whose characters differ, such as `": "`,
   * `a + sep + b` splits back into `a` and `b` whenever `sep` does not occur
   * in `a`: no occurrence can straddle the end of `a`.
   */
  lemma Split1AtPair(a: string, sep: string, b: string)
    requires |sep| == 2 && sep[0] != sep[1] && !Occurs(a, sep)
    ensures Split1(a + sep + b, sep) == [a, b]
  {
    var s := a + sep + b;
    assert OccursAt(s, sep, |a|) by {
      assert s[|a|..|a| + 2] == sep;
    }
    forall j | 0 <= j < |a| ensures !OccursAt(s, sep, j) {
      if j + 2 <= |a| {
        assert s[j..j + 2] == a[j..j + 2];
        assert !OccursAt(a, sep, j);
      } else {
        assert s[j + 1] == sep[0];
      }
    }
    var i := FindFirst(s, sep).value;
    assert i == |a|;
    assert s[..|a|] == a;
    assert s[|a| + 2..] == b;
  }

  /** Python's `s.startswith(p)`, also what an anchored `re.match` of a literal checks. */
  predicate StartsWith(s: string, p: string) {
    |p| <= |s| && s[..|p|] == p
  }

  /** For a one-character separator, `sep in s` is character membership. */
  lemma OccursChar(s: string, c: char)
    ensures Occurs(s, [c]) <==> c in s
  {
    if c in s {
      var j :| 0 <= j < |s| && s[j] == c;
      assert s[j..j + 1] == [c];
      assert OccursAt(s, [c], j);
    }
    if Occurs(s, [c]) {
      var j :| 0 <= j <= |s| - 1 && OccursAt(s, [c], j);
      assert s[j..j + 1][0] == s[j];
    }
  }

  // ---------------------------------------------------------------------
  // `str.isdigit()`, `int()` and `str()` on integers

  predicate IsDigit(c: char) {
    '0' <= c <= '9'
  }

  /** `s.isdigit()` restricted to ASCII digits: non-empty and every character a digit. */
  predicate IsDigits(s: string) {
    s != [] && forall k :: 0 <= k < |s| ==> IsDigit(s[k])
  }

  /** The value of one decimal digit. */
  function DigitOf(c: char): nat
    requires IsDigit(c)
  {
    c as int - '0' as int
  }

  /** `int(s)` for a string of decimal digits (leading zeros allowed, as in Python). */
  function DigitsValue(s: string): nat
    requires forall k :: 0 <= k < |s| ==> IsDigit(s[k])
  {
    if s == [] then 0
    else DigitsValue(s[..|s| - 1]) * 10 + DigitOf(s[|s| - 1])
  }

  /** `str(n)` for a natural number: decimal digits, no leading zero. */
  function NatToString(n: nat): (r: string)
    ensures IsDigits(r)
    ensures r[0] == '0' ==> r == "0"
  {
    if n < 10 then ['0' + n as char]
    else NatToString(n / 10) + ['0' + (n % 10) as char]
  }

  /** `str(n)` for any integer, with a leading minus sign for negatives. */
  function IntToString(n: int): string {
    if n < 0 then "-" + NatToString(-n) else NatToString(n)
  }

  /** A string of digits, with or without a minus sign, holds no URI delimiter. */
  lemma IntToStringPlain(n: int)
    ensures ':' !in IntToString(n) && '?' !in IntToString(n) && '#' !in IntToString(n)
  {
    var d := NatToString(if n < 0 then -n else n);
    assert forall k :: 0 <= k < |d| ==> IsDigit(d[k]);
  }

  /** Reading back what `str(n)` printed gives `n`: `int(str(n)) == n`. */
  lemma {:induction false} DigitsValueOfNatToString(n: nat)
    ensures DigitsValue(NatToString(n)) == n
  {
    var r := NatToString(n);
    if n >= 10 {
      DigitsValueOfNatToString(n / 10);
      assert r[..|r| - 1] == NatToString(n / 10);
    }
  }
}
