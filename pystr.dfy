/**
 * The handful of Python `str` and `int` built-ins the scraper relies on, written out
 * with Python's semantics: `str.strip()`, `str.replace(old, '')`, `str.split(sep)`,
 * `int(s)` on a string and `str(n)` / f-string formatting of an integer.
 */
module PyStr {
  import opened Wrappers

  /** Python truthiness of a value that is either None or a string: present and non-empty. */
  predicate Truthy(o: Option<string>) {
    o.Some? && o.value != ""
  }

  /** The characters for which Python's `str.isspace()` holds (the ones `strip()` removes). */
  predicate IsSpace(c: char) {
    c == ' ' || ('\t' <= c <= '\r') || ('\U{1c}' <= c <= '\U{1f}')
    || c == '\U{85}' || c == '\U{a0}' || c == '\U{1680}' || ('\U{2000}' <= c <= '\U{200a}')
    || c == '\U{2028}' || c == '\U{2029}' || c == '\U{202f}' || c == '\U{205f}' || c == '\U{3000}'
  }

  predicate AllSpace(s: string) {
    forall i :: 0 <= i < |s| ==> IsSpace(s[i])
  }

  function StripLeft(s: string): string {
    if s != [] && IsSpace(s[0]) then StripLeft(s[1..]) else s
  }

  function StripRight(s: string): string {
    if s != [] && IsSpace(s[|s| - 1]) then StripRight(s[..|s| - 1]) else s
  }

  /** `StripLeft` drops a whitespace prefix and stops at the first other character. */
  lemma {:induction false} StripLeftSpec(s: string)
    ensures |StripLeft(s)| <= |s| && StripLeft(s) == s[|s| - |StripLeft(s)|..]
    ensures StripLeft(s) != [] ==> !IsSpace(StripLeft(s)[0])
    ensures AllSpace(s[..|s| - |StripLeft(s)|])
    decreases |s|
  {
    if s != [] && IsSpace(s[0]) {
      StripLeftSpec(s[1..]);
      var r := StripLeft(s[1..]);
      assert s[1..][|s| - 1 - |r|..] == s[|s| - |r|..];
      var k := |s| - |r|;
      var u := s[1..][..k - 1];
      assert AllSpace(u);
      forall i | 0 <= i < k ensures IsSpace(s[..k][i]) {
        if i == 0 {
          assert s[..k][i] == s[0];
        } else {
          assert s[..k][i] == u[i - 1];
        }
      }
    }
  }

  /** `StripRight` drops a whitespace suffix and stops at the last other character. */
  lemma {:induction false} StripRightSpec(s: string)
    ensures |StripRight(s)| <= |s| && StripRight(s) == s[..|StripRight(s)|]
    ensures StripRight(s) != [] ==> !IsSpace(StripRight(s)[|StripRight(s)| - 1])
    ensures AllSpace(s[|StripRight(s)|..])
    decreases |s|
  {
    if s != [] && IsSpace(s[|s| - 1]) {
      var t := s[..|s| - 1];
      StripRightSpec(t);
      var r := StripRight(t);
      assert t[..|r|] == s[..|r|];
      forall j | 0 <= j < |s| - |r| ensures IsSpace(s[|r|..][j]) {
        if j < |s| - 1 - |r| {
          assert s[|r|..][j] == t[|r|..][j];
        }
      }
    }
  }

  /** Python's `s.strip()`: the longest middle slice with no surrounding whitespace. */
  function Strip(s: string): (r: string)
    ensures |r| <= |s|
    ensures r != [] ==> !IsSpace(r[0]) && !IsSpace(r[|r| - 1])
    ensures r == [] <==> AllSpace(s)
  {
    StripEnds(s);
    StripEmpty(s);
    StripRight(StripLeft(s))
  }

  /** The two strips leave no whitespace at either end. */
  lemma StripEnds(s: string)
    ensures var r := StripRight(StripLeft(s));
            |r| <= |s| && (r != [] ==> !IsSpace(r[0]) && !IsSpace(r[|r| - 1]))
  {
    var l := StripLeft(s);
    var r := StripRight(l);
    StripLeftSpec(s);
    StripRightSpec(l);
    if r != [] {
      assert r[0] == l[0];
    }
  }

  /** The two strips leave nothing exactly when everything is whitespace. */
  lemma StripEmpty(s: string)
    ensures StripRight(StripLeft(s)) == [] <==> AllSpace(s)
  {
    var l := StripLeft(s);
    var r := StripRight(l);
    StripLeftSpec(s);
    StripRightSpec(l);
    if r == [] {
      assert l[0..] == l;
      assert s[..|s|] == s;
    } else {
      assert r[0] == l[0] == s[|s| - |l|];
    }
  }

  /** Stripping twice is stripping once. */
  lemma {:induction false} StripIdempotent(s: string)
    ensures Strip(Strip(s)) == Strip(s)
  {
    var t := Strip(s);
    if t != [] {
      assert StripLeft(t) == t;
      assert StripRight(t) == t;
    }
  }

  /** A string with no whitespace at either end is its own strip. */
  lemma StripUnchanged(s: string)
    requires s != [] ==> !IsSpace(s[0]) && !IsSpace(s[|s| - 1])
    ensures Strip(s) == s
  {
  }

  /** Trailing whitespace after a string that does not end in whitespace is dropped by `StripRight`. */
  lemma {:induction false} StripRightSpaces(t: string, w: string)
    requires AllSpace(w) && (t != [] ==> !IsSpace(t[|t| - 1]))
    ensures StripRight(t + w) == t
    decreases |w|
  {
    if w == [] {
      assert t + w == t;
    } else {
      var s := t + w;
      assert s[..|s| - 1] == t + w[..|w| - 1];
      assert IsSpace(s[|s| - 1]);
      StripRightSpaces(t, w[..|w| - 1]);
    }
  }

  /** Leading whitespace before a string that does not start with whitespace is dropped by `StripLeft`. */
  lemma {:induction false} StripLeftSpaces(w: string, t: string)
    requires AllSpace(w) && (t != [] ==> !IsSpace(t[0]))
    ensures StripLeft(w + t) == t
    decreases |w|
  {
    if w == [] {
      assert w + t == t;
    } else {
      var s := w + t;
      assert s[1..] == w[1..] + t;
      assert IsSpace(s[0]);
      StripLeftSpaces(w[1..], t);
    }
  }

  /** `(w1 + t + w2).strip()` is `t` when the `w`s are whitespace and `t` has none at its ends. */
  lemma StripSurrounded(w1: string, t: string, w2: string)
    requires AllSpace(w1) && AllSpace(w2)
    requires t != [] && !IsSpace(t[0]) && !IsSpace(t[|t| - 1])
    ensures Strip(w1 + t + w2) == t
  {
    assert w1 + t + w2 == w1 + (t + w2);
    assert (t + w2)[0] == t[0];
    StripLeftSpaces(w1, t + w2);
    StripRightSpaces(t, w2);
  }

  /** True when `pat` occurs in `s` at offset `i`. */
  predicate OccursAt(s: string, pat: string, i: nat) {
    i + |pat| <= |s| && s[i..i + |pat|] == pat
  }

  /**
   * Python's `s.replace(pat, '')` for a non-empty `pat`: a left-to-right scan that drops
   * every non-overlapping occurrence of `pat`.
   */
  function RemoveAll(s: string, pat: string): (r: string)
    requires pat != []
    ensures |r| <= |s|
    decreases |s|
  {
    if |s| < |pat| then s
    else if s[..|pat|] == pat then RemoveAll(s[|pat|..], pat)
    else [s[0]] + RemoveAll(s[1..], pat)
  }

  /** Removing a pattern that does not occur changes nothing. */
  lemma {:induction false} RemoveAbsent(s: string, pat: string)
    requires pat != []
    requires forall i: nat :: !OccursAt(s, pat, i)
    ensures RemoveAll(s, pat) == s
    decreases |s|
  {
    if |s| >= |pat| {
      assert !OccursAt(s, pat, 0);
      forall i: nat ensures !OccursAt(s[1..], pat, i) {
        if OccursAt(s[1..], pat, i) {
          assert s[1..][i..i + |pat|] == s[i + 1..i + 1 + |pat|];
          assert OccursAt(s, pat, i + 1);
        }
      }
      RemoveAbsent(s[1..], pat);
      assert [s[0]] + s[1..] == s;
    }
  }

  /** An occurrence at the front is dropped. */
  lemma RemoveAtFront(pat: string, t: string)
    requires pat != []
    ensures RemoveAll(pat + t, pat) == RemoveAll(t, pat)
  {
    assert (pat + t)[..|pat|] == pat && (pat + t)[|pat|..] == t;
  }

  /** An occurrence of `pat` one place further into `[c] + a` is an occurrence in `a`. */
  lemma OccursShift(c: char, a: string, pat: string, i: nat)
    ensures OccursAt([c] + a, pat, i + 1) == OccursAt(a, pat, i)
  {
    if i + |pat| <= |a| {
      assert ([c] + a)[i + 1..i + 1 + |pat|] == a[i..i + |pat|];
    }
  }

  /** A space that `pat` does not contain blocks every occurrence that would reach across it. */
  lemma SpaceBlocks(a: string, t: string, pat: string)
    requires ' ' !in pat
    requires forall i: nat :: !OccursAt(a, pat, i)
    ensures forall i :: 0 <= i <= |a| ==> !OccursAt(a + " " + t, pat, i)
  {
    var s := a + " " + t;
    forall i | 0 <= i <= |a| ensures !OccursAt(s, pat, i) {
      if i + |pat| <= |s| {
        if i + |pat| <= |a| {
          assert s[i..i + |pat|] == a[i..i + |pat|];
          assert !OccursAt(a, pat, i);
        } else {
          assert s[i..i + |pat|][|a| - i] == ' ';
        }
      }
    }
  }

  /** A prefix in which no occurrence of the pattern starts is kept as it is. */
  lemma {:induction false} RemoveKeepsPrefix(a: string, t: string, pat: string)
    requires pat != []
    requires forall i :: 0 <= i < |a| ==> !OccursAt(a + t, pat, i)
    ensures RemoveAll(a + t, pat) == a + RemoveAll(t, pat)
    decreases |a|
  {
    if a != [] {
      var s := a + t;
      assert s[0] == a[0] && s[1..] == a[1..] + t && [s[0]] + s[1..] == s;
      forall i | 0 <= i < |a| - 1 ensures !OccursAt(a[1..] + t, pat, i) {
        OccursShift(s[0], s[1..], pat, i);
      }
      RemoveKeepsPrefix(a[1..], t, pat);
      if |s| < |pat| {
        assert RemoveAll(t, pat) == t;
        assert RemoveAll(s, pat) == s;
      } else {
        assert s[..|pat|] != pat by { assert !OccursAt(s, pat, 0); }
        calc {
          RemoveAll(s, pat);
          [s[0]] + RemoveAll(s[1..], pat);
          [a[0]] + (a[1..] + RemoveAll(t, pat));
          ([a[0]] + a[1..]) + RemoveAll(t, pat);
          { assert [a[0]] + a[1..] == a; }
          a + RemoveAll(t, pat);
        }
      }
    } else {
      assert a + t == t;
    }
  }

  /** An occurrence at the front that does not occur again is the only one removed. */
  lemma RemoveLeading(pat: string, rest: string)
    requires pat != []
    requires forall i: nat :: !OccursAt(rest, pat, i)
    ensures RemoveAll(pat + rest, pat) == rest
  {
    RemoveAtFront(pat, rest);
    RemoveAbsent(rest, pat);
  }

  /**
   * Python's `s.split(sep)` for a one-character separator: the pieces between separators,
   * including empty ones; always at least one piece.
   */
  function Split(s: string, sep: char): (r: seq<string>)
    ensures |r| >= 1
    ensures forall k :: 0 <= k < |r| ==> sep !in r[k]
    decreases |s|
  {
    if s == [] then [""]
    else if s[0] == sep then [""] + Split(s[1..], sep)
    else
      var rest := Split(s[1..], sep);
      [[s[0]] + rest[0]] + rest[1..]
  }

  /** Python's `sep.join(parts)`. */
  function Join(parts: seq<string>, sep: char): string
    decreases |parts|
  {
    if parts == [] then ""
    else if |parts| == 1 then parts[0]
    else parts[0] + [sep] + Join(parts[1..], sep)
  }

  /** Splitting and joining again gives back the original string. */
  lemma {:induction false} JoinSplit(s: string, sep: char)
    ensures Join(Split(s, sep), sep) == s
    decreases |s|
  {
    if s == [] {
    } else if s[0] == sep {
      JoinSplit(s[1..], sep);
      assert s == [sep] + s[1..];
    } else {
      JoinSplit(s[1..], sep);
      var rest := Split(s[1..], sep);
      if |rest| == 1 {
        assert s == [s[0]] + rest[0];
      } else {
        assert Join(rest, sep) == rest[0] + [sep] + Join(rest[1..], sep);
        assert s == [s[0]] + s[1..];
      }
    }
  }

  /** A string without the separator is one piece. */
  lemma {:induction false} SplitWithoutSep(s: string, sep: char)
    requires sep !in s
    ensures Split(s, sep) == [s]
    decreases |s|
  {
    if s != [] {
      SplitWithoutSep(s[1..], sep);
      assert s == [s[0]] + s[1..];
    }
  }

  /** Splitting at the first separator: the piece before it, then the pieces of the rest. */
  lemma {:induction false} SplitAtSep(a: string, sep: char, b: string)
    requires sep !in a
    ensures Split(a + [sep] + b, sep) == [a] + Split(b, sep)
    decreases |a|
  {
    var s := a + [sep] + b;
    if a == [] {
      assert s[1..] == b;
    } else {
      assert s[1..] == a[1..] + [sep] + b;
      SplitAtSep(a[1..], sep, b);
      assert [a[0]] + a[1..] == a;
    }
  }

  predicate IsDigit(c: char) {
    '0' <= c <= '9'
  }

  predicate AllDigits(s: string) {
    forall i :: 0 <= i < |s| ==> IsDigit(s[i])
  }

  lemma DigitsHaveNoSlash(s: string)
    requires AllDigits(s)
    ensures '/' !in s
  {
    forall i | 0 <= i < |s| ensures s[i] != '/' {
      assert IsDigit(s[i]);
    }
  }

  /** The value of a string of decimal digits. */
  function DigitsValue(s: string): nat
    requires AllDigits(s)
  {
    if s == [] then 0 else DigitsValue(s[..|s| - 1]) * 10 + (s[|s| - 1] as int - '0' as int)
  }

  /**
   * The information separators U+001C to U+001F: whitespace to `str.isspace()` and so to
   * `strip()`, but not to `int()`.
   */
  predicate IsSeparator(c: char) {
    '\U{1c}' <= c <= '\U{1f}'
  }

  /**
   * Python's `int(s)` on a string: surrounding whitespace allowed, then an optional sign,
   * then one or more decimal digits; anything else raises ValueError (here `None`).
   * `int()` first turns every whitespace character outside ASCII into a space and then
   * trims ASCII whitespace (space, tab, line feed, vertical tab, form feed, carriage
   * return). So it trims what `strip()` trims except the four information separators,
   * which are neither trimmed nor digits: with one of them anywhere, `int()` raises.
   */
  function ParseInt(s: string): (r: Option<int>)
    ensures r.Some? ==> Strip(s) != []
  {
    if exists i :: 0 <= i < |s| && IsSeparator(s[i]) then None
    else ParseStripped(Strip(s))
  }

  /** An information separator anywhere makes `int()` raise, even at the ends. */
  lemma ParseRejectsSeparator(s: string, i: nat)
    requires i < |s| && IsSeparator(s[i])
    ensures ParseInt(s) == None
  {
  }

  /** Digits are not information separators. */
  lemma DigitsHaveNoSeparator(s: string)
    requires AllDigits(s)
    ensures forall i :: 0 <= i < |s| ==> !IsSeparator(s[i])
  {
  }

  /** `int()` once the surrounding whitespace is gone: optional sign, then digits. */
  function ParseStripped(t: string): Option<int> {
    if t == [] then None
    else
      var neg := t[0] == '-';
      var body := if t[0] == '-' || t[0] == '+' then t[1..] else t;
      if body != [] && AllDigits(body) then
        var v: int := DigitsValue(body);
        Some(if neg then -v else v)
      else None
  }

  /** One or two digits are worth at most 99, one digit at most 9. */
  lemma ShortDigitsBound(s: string)
    requires AllDigits(s) && |s| <= 2
    ensures DigitsValue(s) <= if |s| <= 1 then 9 else 99
  {
    if |s| == 2 {
      assert s[..1][..0] == [];
      assert IsDigit(s[0]) && IsDigit(s[1]);
    } else if |s| == 1 {
      assert s[..0] == [];
      assert IsDigit(s[0]);
    }
  }

  /** `int()` of at most two characters lies between -9 and 99. */
  lemma ParseShortBound(s: string)
    requires |s| <= 2
    ensures ParseInt(s).Some? ==> -9 <= ParseInt(s).value <= 99
  {
    var t := Strip(s);
    if t != [] {
      var body := if t[0] == '-' || t[0] == '+' then t[1..] else t;
      if body != [] && AllDigits(body) {
        ShortDigitsBound(body);
      }
    }
  }

  function DigitChar(d: nat): char
    requires d < 10
  {
    ('0' as int + d) as char
  }

  /** Decimal digits of a natural number, no leading zeros. */
  function NatToString(n: nat): (r: string)
    ensures r != [] && AllDigits(r)
  {
    if n < 10 then [DigitChar(n)] else NatToString(n / 10) + [DigitChar(n % 10)]
  }

  /** Python's `str(n)` for an integer, as used by f-strings. */
  function IntToString(n: int): (r: string)
  {
    if n < 0 then "-" + NatToString(-n) else NatToString(n)
  }

  /** No leading zeros: the first digit is '0' only for zero itself, written "0". */
  lemma {:induction false} NatToStringNoLeadingZero(n: nat)
    ensures NatToString(n)[0] == '0' <==> n == 0
    ensures n == 0 ==> NatToString(n) == "0"
  {
    if n >= 10 {
      NatToStringNoLeadingZero(n / 10);
      assert NatToString(n)[0] == NatToString(n / 10)[0];
    }
  }

  lemma {:induction false} NatToStringValue(n: nat)
    ensures DigitsValue(NatToString(n)) == n
  {
    if n >= 10 {
      NatToStringValue(n / 10);
      var s := NatToString(n);
      assert s[..|s| - 1] == NatToString(n / 10);
    }
  }

  /** `int` of a plain digit string is its value. */
  lemma ParseDigits(t: string)
    requires t != [] && AllDigits(t)
    ensures ParseInt(t) == Some(DigitsValue(t))
  {
    assert IsDigit(t[0]) && IsDigit(t[|t| - 1]);
    DigitsHaveNoSeparator(t);
    StripUnchanged(t);
  }

  /** `int` of a minus sign followed by digits is the negated value. */
  lemma ParseNegatedDigits(t: string)
    requires t != [] && AllDigits(t)
    ensures ParseInt("-" + t) == Some(0 - DigitsValue(t) as int)
  {
    var s := "-" + t;
    assert IsDigit(t[|t| - 1]) && s[|s| - 1] == t[|t| - 1];
    DigitsHaveNoSeparator(t);
    assert forall i :: 0 < i < |s| ==> s[i] == t[i - 1];
    StripUnchanged(s);
    assert Strip(s) == s;
    assert s[0] == '-' && s[1..] == t;
  }

  lemma OneDigitValue(d: char)
    requires IsDigit(d)
    ensures DigitsValue([d]) == d as int - '0' as int
  {
    assert [d][..0] == [];
  }

  lemma TwoDigitsValue(d1: char, d2: char)
    requires IsDigit(d1) && IsDigit(d2)
    ensures DigitsValue([d1, d2]) == (d1 as int - '0' as int) * 10 + (d2 as int - '0' as int)
  {
    assert [d1, d2][..1] == [d1];
    OneDigitValue(d1);
  }

  /** `int` of one digit followed by whitespace other than a separator is that digit's value. */
  lemma ParseDigitSpace(d: char, w: string)
    requires IsDigit(d) && AllSpace(w)
    requires forall i :: 0 <= i < |w| ==> !IsSeparator(w[i])
    ensures ParseInt([d] + w) == Some(d as int - '0' as int)
  {
    var t := [d];
    assert forall i :: 0 < i < |t + w| ==> (t + w)[i] == w[i - 1];
    StripSurrounded([], t, w);
    assert [] + t + w == t + w;
    assert ParseInt(t + w) == ParseStripped(t);
    StripUnchanged(t);
    assert ParseInt(t) == ParseStripped(t);
    ParseDigits(t);
    OneDigitValue(d);
  }

  /** `int` of two digits. */
  lemma ParseTwoDigits(d1: char, d2: char)
    requires IsDigit(d1) && IsDigit(d2)
    ensures ParseInt([d1, d2]) == Some((d1 as int - '0' as int) * 10 + (d2 as int - '0' as int))
  {
    ParseDigits([d1, d2]);
    TwoDigitsValue(d1, d2);
  }

  /** `int` raises when the first character is neither whitespace, a sign nor a digit. */
  lemma ParseRejectsLeading(t: string)
    requires t != [] && !IsSpace(t[0]) && !IsDigit(t[0]) && t[0] != '-' && t[0] != '+'
    ensures ParseInt(t) == None
  {
    assert StripLeft(t) == t;
    var r := StripRight(t);
    StripRightSpec(t);
    assert t[0..][0] == t[0];
    assert Strip(t) == r && r[0] == t[0];
  }

  /** `int(str(n)) == n`: formatting an integer and parsing it back is the identity. */
  lemma IntToStringRoundTrip(n: int)
    ensures ParseInt(IntToString(n)) == Some(n)
  {
    var m: nat := if n < 0 then -n else n;
    var d := NatToString(m);
    NatToStringValue(m);
    if n < 0 {
      ParseNegatedDigits(d);
      assert IntToString(n) == "-" + d;
    } else {
      ParseDigits(d);
      assert IntToString(n) == d;
    }
  }
}
