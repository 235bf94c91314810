/** The Python `str` operations the scripts rely on: `in`, `split`, `replace`, `startswith`,
    `str()` of a natural number and `int()` of a decimal text. */
module Strings {
  import opened Wrappers

  /** `pat` occurs in `s` at position `i`. */
  predicate Occurs(s: string, pat: string, i: nat) {
    i + |pat| <= |s| && s[i..i + |pat|] == pat
  }

  /** Position of the leftmost occurrence of `pat` in `s` (Python's `s.find(pat)` when it is not -1). */
  function FindFirst(s: string, pat: string): (r: Option<nat>)
    ensures r.Some? ==> Occurs(s, pat, r.value)
    ensures r.Some? ==> forall j :: 0 <= j < r.value ==> !Occurs(s, pat, j)
    ensures r.None? ==> forall j: nat :: !Occurs(s, pat, j)
    decreases |s|
  {
    if pat <= s then Some(0)
    else if s == [] then None
    else
      OccursTail(s, pat);
      match FindFirst(s[1..], pat)
      case None => None
      case Some(i) => Some(i + 1)
  }

  /** An occurrence in `s` after its first character is an occurrence in `s[1..]`. */
  lemma OccursTail(s: string, pat: string)
    requires s != [] && !(pat <= s)
    ensures !Occurs(s, pat, 0)
    ensures forall j: nat :: j > 0 ==> (Occurs(s, pat, j) <==> Occurs(s[1..], pat, j - 1))
  {
    forall j: nat | j > 0 ensures Occurs(s, pat, j) <==> Occurs(s[1..], pat, j - 1) {
      if j + |pat| <= |s| {
        assert s[1..][j - 1..j - 1 + |pat|] == s[j..j + |pat|];
      }
    }
  }

  /** An occurrence that starts at or after `|u|` in `u + v` is an occurrence in `v`. */
  lemma OccursShift(u: string, v: string, pat: string, j: nat)
    requires j >= |u|
    ensures Occurs(u + v, pat, j) <==> Occurs(v, pat, j - |u|)
  {
    if j + |pat| <= |u + v| {
      assert (u + v)[j..j + |pat|] == v[j - |u|..j - |u| + |pat|];
    }
  }

  /** `pat` is absent exactly when it occurs nowhere. */
  lemma NotContains(s: string, pat: string)
    ensures !Contains(s, pat) <==> forall j: nat :: !Occurs(s, pat, j)
  {
  }

  /** Python's `pat in s` for strings. */
  predicate Contains(s: string, pat: string) {
    FindFirst(s, pat).Some?
  }

  lemma OccursContains(s: string, pat: string, i: nat)
    requires Occurs(s, pat, i)
    ensures Contains(s, pat)
  {
  }

  /** For a one-character pattern, substring search is membership. */
  lemma ContainsChar(s: string, c: char)
    ensures Contains(s, [c]) <==> c in s
  {
    if c in s {
      var i :| 0 <= i < |s| && s[i] == c;
      assert Occurs(s, [c], i);
    }
    if Contains(s, [c]) {
      var i := FindFirst(s, [c]).value;
      assert s[i..i + 1] == [c];
      assert s[i] == c;
    }
  }

  /** An occurrence of `pat` is also an occurrence of each of its prefixes: a text that
      contains "LREM" contains "LR". */
  lemma ContainsPrefix(s: string, pat: string, pre: string)
    requires pre <= pat && Contains(s, pat)
    ensures Contains(s, pre)
  {
    var i := FindFirst(s, pat).value;
    assert s[i..i + |pre|] == pat[..|pre|];
    assert Occurs(s, pre, i);
  }

  /** A text containing `a + b + c` contains `b`. */
  lemma ContainsInner(s: string, a: string, b: string, c: string)
    requires Contains(s, a + b + c)
    ensures Contains(s, b)
  {
    var pat := a + b + c;
    var i := FindFirst(s, pat).value;
    assert pat[|a|..|a| + |b|] == b;
    forall k | 0 <= k < |b| ensures s[i + |a| + k] == b[k] {
      assert s[i + |a| + k] == pat[|a| + k];
    }
    assert s[i + |a|..i + |a| + |b|] == b;
    assert Occurs(s, b, i + |a|);
  }

  /** An occurrence after the first character is an occurrence in the whole text. */
  lemma ContainsTail(s: string, pat: string)
    requires s != [] && Contains(s[1..], pat)
    ensures Contains(s, pat)
  {
    var j := FindFirst(s[1..], pat).value;
    OccursShift(s[..1], s[1..], pat, j + 1);
    assert s[..1] + s[1..] == s;
    OccursContains(s, pat, j + 1);
  }

  /** A text lacking the first character of `pat` does not contain `pat`. */
  lemma LacksFirstChar(s: string, pat: string)
    requires |pat| > 0 && pat[0] !in s
    ensures !Contains(s, pat)
  {
    NoOccurrenceStartsIn(s, [], pat);
    assert s + [] == s;
    NotContains(s, pat);
  }

  /** No occurrence of `pat` can start inside `u` when `u` lacks the first character of `pat`. */
  lemma NoOccurrenceStartsIn(u: string, w: string, pat: string)
    requires |pat| > 0 && pat[0] !in u
    ensures forall j :: 0 <= j < |u| ==> !Occurs(u + w, pat, j)
  {
    forall j | 0 <= j < |u| ensures !Occurs(u + w, pat, j) {
      assert (u + w)[j] == u[j];
      if j + |pat| <= |u + w| {
        assert (u + w)[j..j + |pat|][0] == u[j];
      }
    }
  }

  /** Python's `s.split(sep)` for a non-empty separator: the pieces between the
      non-overlapping occurrences of `sep`, scanned from the left. */
  function SplitOn(s: string, sep: string): (parts: seq<string>)
    requires |sep| > 0
    ensures |parts| >= 1
    ensures parts[0] <= s
    ensures |parts| >= 2 <==> Contains(s, sep)
    ensures |parts| == 1 ==> parts[0] == s
    ensures |parts| >= 2 ==> sep <= s[|parts[0]|..]
    ensures forall i :: 0 <= i < |parts| ==> !Contains(parts[i], sep)
    decreases |s|
  {
    match FindFirst(s, sep)
    case None => [s]
    case Some(i) =>
      assert forall j: nat :: Occurs(s[..i], sep, j) ==> Occurs(s, sep, j);
      [s[..i]] + SplitOn(s[i + |sep|..], sep)
  }

  /** Python's `sep.join(parts)`. */
  function Join(parts: seq<string>, sep: string): string
  {
    if parts == [] then ""
    else if |parts| == 1 then parts[0]
    else parts[0] + sep + Join(parts[1..], sep)
  }

  /** Splitting and joining back gives the original text. */
  lemma {:induction false} JoinSplit(s: string, sep: string)
    requires |sep| > 0
    ensures Join(SplitOn(s, sep), sep) == s
    decreases |s|
  {
    match FindFirst(s, sep)
    case None =>
    case Some(i) =>
      var rest := s[i + |sep|..];
      JoinSplit(rest, sep);
      JoinCons(s[..i], SplitOn(rest, sep), sep);
      assert s[i..i + |sep|] == sep;
      assert s == s[..i] + sep + rest;
  }

  /** Joining a head before at least one more part puts the separator after it. */
  lemma JoinCons(head: string, parts: seq<string>, sep: string)
    requires |parts| >= 1
    ensures Join([head] + parts, sep) == head + sep + Join(parts, sep)
  {
    assert ([head] + parts)[1..] == parts;
  }

  /** When the first character of `sep` does not occur in `u`, the first occurrence of
      `sep` in `u + sep + w` is the one right after `u`. */
  lemma SplitOnAfter(u: string, sep: string, w: string)
    requires |sep| > 0 && sep[0] !in u
    ensures SplitOn(u + sep + w, sep) == [u] + SplitOn(w, sep)
  {
    var s := u + sep + w;
    assert s == u + (sep + w);
    assert s[|u|..|u| + |sep|] == sep;
    assert Occurs(s, sep, |u|);
    NoOccurrenceStartsIn(u, sep + w, sep);
    assert FindFirst(s, sep) == Some(|u|);
    assert s[..|u|] == u;
    assert s[|u| + |sep|..] == w;
  }

  /** A text without `sep` splits into itself alone. */
  lemma SplitOnAbsent(s: string, sep: string)
    requires |sep| > 0 && !Contains(s, sep)
    ensures SplitOn(s, sep) == [s]
  {
  }

  /** The first piece keeps every prefix that lacks the first character of `sep`. */
  lemma SplitHeadKeeps(u: string, w: string, sep: string)
    requires |sep| > 0 && sep[0] !in u
    ensures u <= SplitOn(u + w, sep)[0]
  {
    var s := u + w;
    NoOccurrenceStartsIn(u, w, sep);
    match FindFirst(s, sep)
    case None =>
    case Some(j) =>
      assert j >= |u|;
      assert s[..j][..|u|] == u;
  }

  /** Python's `s.replace(pat, rep)`: every non-overlapping occurrence of `pat`, scanned
      from the left, is replaced by `rep`. */
  function ReplaceAll(s: string, pat: string, rep: string): string
    requires |pat| > 0
    decreases |s|
  {
    if pat <= s then rep + ReplaceAll(s[|pat|..], pat, rep)
    else if s == [] then []
    else [s[0]] + ReplaceAll(s[1..], pat, rep)
  }

  /** A text without the pattern is left unchanged. */
  lemma {:induction false} ReplaceAllAbsent(s: string, pat: string, rep: string)
    requires |pat| > 0 && !Contains(s, pat)
    ensures ReplaceAll(s, pat, rep) == s
    decreases |s|
  {
    if s != [] {
      NotContains(s, pat);
      OccursTail(s, pat);
      NotContains(s[1..], pat);
      ReplaceAllAbsent(s[1..], pat, rep);
    }
  }

  /** Removing a leading `pat` from `pat + s` gives `s` back when `s` has no `pat`. */
  lemma RemovePrefixOccurrence(pat: string, s: string)
    requires |pat| > 0 && !Contains(s, pat)
    ensures ReplaceAll(pat + s, pat, "") == s
  {
    assert (pat + s)[|pat|..] == s;
    ReplaceAllAbsent(s, pat, "");
  }

  /** Helper for ReplaceAllRemoves: a prefix of the replaced text that lacks the first
      character of `rep` was already a prefix of the original text. */
  lemma {:induction false} PrefixSurvivesReplace(t: string, w: string, pat: string, rep: string)
    requires |pat| > 0 && |rep| > 0 && rep[0] !in w
    ensures w <= ReplaceAll(t, pat, rep) ==> w <= t
    decreases |t|
  {
    if w != [] {
      if pat <= t {
        assert ReplaceAll(t, pat, rep)[0] == rep[0];
      } else if t != [] {
        var r := ReplaceAll(t[1..], pat, rep);
        assert ReplaceAll(t, pat, rep) == [t[0]] + r;
        PrefixSurvivesReplace(t[1..], w[1..], pat, rep);
        assert w <= [t[0]] + r ==> w[1..] <= r;
      }
    }
  }

  /** After replacing `pat` by `rep`, no `pat` is left, provided no occurrence of `pat`
      can straddle a replacement: `rep` has `pat`'s length but differs from it, `pat`'s first
      character occurs nowhere in `rep` but at its head, and `rep`'s first character
      occurs nowhere in `pat` but at its head. */
  lemma {:induction false} ReplaceAllRemoves(s: string, pat: string, rep: string)
    requires |pat| > 0 && |rep| == |pat| && rep != pat
    requires pat[0] !in rep[1..] && rep[0] !in pat[1..]
    ensures !Contains(ReplaceAll(s, pat, rep), pat)
    decreases |s|
  {
    var r := ReplaceAll(s, pat, rep);
    if pat <= s {
      var tail := ReplaceAll(s[|pat|..], pat, rep);
      ReplaceAllRemoves(s[|pat|..], pat, rep);
      NotContains(tail, pat);
      assert r == rep + tail;
      forall j: nat ensures !Occurs(r, pat, j) {
        if j == 0 {
          assert r[..|pat|] == rep;
        } else if j < |rep| {
          assert r[j] == rep[1..][j - 1];
          if j + |pat| <= |r| {
            assert r[j..j + |pat|][0] == r[j];
          }
        } else {
          OccursShift(rep, tail, pat, j);
        }
      }
      NotContains(r, pat);
    } else if s != [] {
      var tail := ReplaceAll(s[1..], pat, rep);
      ReplaceAllRemoves(s[1..], pat, rep);
      NotContains(tail, pat);
      assert r == [s[0]] + tail;
      forall j: nat ensures !Occurs(r, pat, j) {
        if j == 0 {
          PrefixSurvivesReplace(s[1..], pat[1..], pat, rep);
          var rest := pat[1..];
          assert Occurs(r, pat, 0) ==> rest <= tail;
          assert rest <= s[1..] && s[0] == pat[0] ==> pat <= s;
        } else {
          OccursShift([s[0]], tail, pat, j);
        }
      }
      NotContains(r, pat);
    }
  }

  predicate IsDigit(c: char) {
    '0' <= c <= '9'
  }

  predicate AllDigits(s: string) {
    forall i :: 0 <= i < |s| ==> IsDigit(s[i])
  }

  function DigitChar(d: nat): (c: char)
    requires d < 10
    ensures IsDigit(c) && c as int - '0' as int == d
  {
    ('0' as int + d) as char
  }

  /** Python's `str(n)` for a natural number: its decimal digits, without leading zeros. */
  function NatToString(n: nat): (s: string)
    ensures |s| > 0 && AllDigits(s)
    ensures n > 0 ==> s[0] != '0'
    decreases n
  {
    if n < 10 then [DigitChar(n)] else NatToString(n / 10) + [DigitChar(n % 10)]
  }

  /** The value of a run of decimal digits, most significant first. */
  function DigitsValue(s: string): nat
    requires AllDigits(s)
    decreases |s|
  {
    if s == [] then 0
    else DigitsValue(s[..|s| - 1]) * 10 + (s[|s| - 1] as int - '0' as int)
  }

  /** The whitespace Python's `int()` tolerates around the digits (ASCII part). */
  predicate IsSpace(c: char) {
    c == ' ' || '\t' <= c <= '\r' || '\U{1C}' <= c <= '\U{1F}'
  }

  /** `s.lstrip()`: the whitespace at the front removed. */
  function TrimStart(s: string): (r: string)
    ensures |r| <= |s| && r == s[|s| - |r|..]
    ensures r == [] || !IsSpace(r[0])
    ensures forall i :: 0 <= i < |s| - |r| ==> IsSpace(s[i])
    decreases |s|
  {
    if s != [] && IsSpace(s[0]) then
      assert forall i :: 1 <= i < |s| ==> s[i] == s[1..][i - 1];
      TrimStart(s[1..])
    else s
  }

  /** `s.rstrip()`: the whitespace at the end removed. */
  function TrimEnd(s: string): (r: string)
    ensures r <= s
    ensures r == [] || !IsSpace(r[|r| - 1])
    ensures forall i :: |r| <= i < |s| ==> IsSpace(s[i])
    decreases |s|
  {
    if s != [] && IsSpace(s[|s| - 1]) then
      assert forall i :: 0 <= i < |s| - 1 ==> s[..|s| - 1][i] == s[i];
      TrimEnd(s[..|s| - 1])
    else s
  }

  /** Python's `int(s)` in base 10: surrounding whitespace, an optional sign, then one or
      more decimal digits; anything else raises ValueError, here `None`. */
  function ParseInt(s: string): Option<int>
  {
    var t := TrimEnd(TrimStart(s));
    if |t| > 0 && (t[0] == '-' || t[0] == '+') then
      var body := t[1..];
      if |body| > 0 && AllDigits(body) then
        Some(if t[0] == '-' then -(DigitsValue(body) as int) else DigitsValue(body))
      else None
    else if |t| > 0 && AllDigits(t) then Some(DigitsValue(t))
    else None
  }

  lemma {:induction false} DigitsValueOfNat(n: nat)
    ensures DigitsValue(NatToString(n)) == n
    decreases n
  {
    if n >= 10 {
      var s := NatToString(n);
      DigitsValueOfNat(n / 10);
      assert s[..|s| - 1] == NatToString(n / 10);
    }
  }

  /** A bare run of digits parses to its value. */
  lemma ParseIntOfDigits(s: string)
    requires |s| > 0 && AllDigits(s)
    ensures ParseInt(s) == Some(DigitsValue(s))
  {
    assert IsDigit(s[0]) && IsDigit(s[|s| - 1]);
    assert TrimStart(s) == s;
    assert TrimEnd(s) == s;
  }

  /** `int(str(n)) == n` for every natural number. */
  lemma ParseIntOfNat(n: nat)
    ensures ParseInt(NatToString(n)) == Some(n)
  {
    ParseIntOfDigits(NatToString(n));
    DigitsValueOfNat(n);
  }
}
