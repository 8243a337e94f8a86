/**
 * The few Python string operations the weather tool handlers rely on,
 * written out so that their edge cases are explicit: substring tests
 * (`pat in s`), `s.replace(pat, "")`, `s.split()[0]`, `s.lower()` and
 * the decimal rendering of an integer inside an f-string.
 */
module PyText {
  import opened Wrappers

  // ---------------------------------------------------------------------
  // `pat in s`
  // ---------------------------------------------------------------------

  /** `pat` occurs in `s` starting at index `i`. */
  ghost predicate OccursAt(s: string, pat: string, i: int)
  {
    0 <= i && i + |pat| <= |s| && s[i..i + |pat|] == pat
  }

  /** Python's substring test `pat in s`, scanning from the left. */
  function Contains(s: string, pat: string): bool
    decreases |s|
  {
    if |s| < |pat| then false
    else s[..|pat|] == pat || (|s| > 0 && Contains(s[1..], pat))
  }

  /** The scan finds an occurrence exactly when one exists. */
  lemma {:induction false} ContainsIffOccurs(s: string, pat: string)
    ensures Contains(s, pat) <==> exists i :: OccursAt(s, pat, i)
    decreases |s|
  {
    if |s| < |pat| {
    } else if s[..|pat|] == pat {
      assert OccursAt(s, pat, 0);
    } else {
      ContainsIffOccurs(s[1..], pat);
      if Contains(s[1..], pat) {
        var i :| OccursAt(s[1..], pat, i);
        assert s[1..][i..i + |pat|] == s[i + 1..i + 1 + |pat|];
        assert OccursAt(s, pat, i + 1);
      }
      if exists i :: OccursAt(s, pat, i) {
        var i :| OccursAt(s, pat, i);
        assert i != 0;
        assert s[1..][i - 1..i - 1 + |pat|] == s[i..i + |pat|];
        assert OccursAt(s[1..], pat, i - 1);
      }
    }
  }

  // ---------------------------------------------------------------------
  // `s.replace(pat, "")`
  // ---------------------------------------------------------------------

  /**
   * Python's `s.replace(pat, "")` for a non-empty `pat`: occurrences are
   * removed left to right without overlapping.
   */
  function RemoveAll(s: string, pat: string): string
    requires pat != []
    decreases |s|
  {
    if |s| < |pat| then s
    else if s[..|pat|] == pat then RemoveAll(s[|pat|..], pat)
    else [s[0]] + RemoveAll(s[1..], pat)
  }

  /** A string in which `pat` does not occur is left as it is. */
  lemma {:induction false} RemoveAllAbsent(s: string, pat: string)
    requires pat != []
    ensures !Contains(s, pat) ==> RemoveAll(s, pat) == s
    decreases |s|
  {
    if !Contains(s, pat) && |s| >= |pat| {
      RemoveAllAbsent(s[1..], pat);
      assert s == [s[0]] + s[1..];
    }
  }

  /**
   * Stripping a unit suffix gives the number back: when the first
   * character of `pat` does not occur in `t`, removing `pat` from
   * `t + pat` yields `t`.
   */
  lemma {:induction false} RemoveAllSuffix(t: string, pat: string)
    requires pat != []
    requires forall i :: 0 <= i < |t| ==> t[i] != pat[0]
    ensures RemoveAll(t + pat, pat) == t
    decreases |t|
  {
    if t == [] {
      assert (t + pat)[..|pat|] == pat;
      assert (t + pat)[|pat|..] == [];
    } else {
      assert (t + pat)[..|pat|][0] == t[0];
      assert (t + pat)[1..] == t[1..] + pat;
      RemoveAllSuffix(t[1..], pat);
      assert t == [t[0]] + t[1..];
    }
  }

  // ---------------------------------------------------------------------
  // `s.split()[0]`
  // ---------------------------------------------------------------------

  /** The characters for which Python's `str.isspace()` holds. */
  predicate IsSpace(c: char)
  {
    || ('\t' <= c <= '\r')
    || ('\U{1C}' <= c <= ' ')
    || c == '\U{85}' || c == '\U{A0}' || c == '\U{1680}'
    || ('\U{2000}' <= c <= '\U{200A}')
    || c == '\U{2028}' || c == '\U{2029}' || c == '\U{202F}'
    || c == '\U{205F}' || c == '\U{3000}'
  }

  /** `s` with its leading whitespace removed. */
  function DropSpaces(s: string): string
  {
    if s != [] && IsSpace(s[0]) then DropSpaces(s[1..]) else s
  }

  /** The longest prefix of `s` that holds no whitespace. */
  function TakeWord(s: string): string
  {
    if s == [] || IsSpace(s[0]) then [] else [s[0]] + TakeWord(s[1..])
  }

  /**
   * `s.split()[0]`: the first whitespace-separated word, or None where
   * Python raises IndexError because `s` is blank.
   */
  function FirstWord(s: string): (r: Option<string>)
    ensures r.None? <==> forall i :: 0 <= i < |s| ==> IsSpace(s[i])
  {
    var t := DropSpaces(s);
    DropSpacesBlank(s);
    if t == [] then None else Some(TakeWord(t))
  }

  lemma {:induction false} DropSpacesBlank(s: string)
    ensures DropSpaces(s) == [] <==> forall i :: 0 <= i < |s| ==> IsSpace(s[i])
  {
    if s != [] && IsSpace(s[0]) {
      DropSpacesBlank(s[1..]);
      assert forall i :: 1 <= i < |s| ==> s[i] == s[1..][i - 1];
    }
  }

  lemma {:induction false} TakeWordStops(w: string, c: char, rest: string)
    requires forall i :: 0 <= i < |w| ==> !IsSpace(w[i])
    requires IsSpace(c)
    ensures TakeWord(w + [c] + rest) == w
  {
    if w == [] {
      assert (w + [c] + rest)[0] == c;
    } else {
      assert (w + [c] + rest)[1..] == w[1..] + [c] + rest;
      TakeWordStops(w[1..], c, rest);
      assert w == [w[0]] + w[1..];
    }
  }

  /**
   * The first word of a number followed by a space and a unit is the
   * number, provided the number is non-empty and holds no whitespace.
   */
  lemma FirstWordBeforeUnit(w: string, c: char, unit: string)
    requires w != [] && forall i :: 0 <= i < |w| ==> !IsSpace(w[i])
    requires IsSpace(c)
    ensures FirstWord(w + [c] + unit) == Some(w)
  {
    assert (w + [c] + unit)[0] == w[0];
    TakeWordStops(w, c, unit);
  }

  // ---------------------------------------------------------------------
  // `s.lower()`
  // ---------------------------------------------------------------------

  /** Lower-casing of one character, limited to the ASCII letters. */
  function LowerChar(c: char): char
  {
    if 'A' <= c <= 'Z' then (c as int + 32) as char else c
  }

  /** `s.lower()` applied character by character (ASCII letters only). */
  function Lower(s: string): string
  {
    seq(|s|, i requires 0 <= i < |s| => LowerChar(s[i]))
  }

  /**
   * Matching a lower-case key after lower-casing ignores ASCII case and
   * nothing else: each character must be the key's letter or its capital.
   */
  lemma LowerEqualsKey(s: string, key: string)
    requires forall i :: 0 <= i < |key| ==> 'a' <= key[i] <= 'z'
    ensures Lower(s) == key <==>
              |s| == |key| && forall i :: 0 <= i < |s| ==> s[i] == key[i] || s[i] == (key[i] as int - 32) as char
  {
  }

  // ---------------------------------------------------------------------
  // f"{n}" for an integer n >= 0
  // ---------------------------------------------------------------------

  predicate IsDigit(c: char)
  {
    '0' <= c <= '9'
  }

  /** The decimal rendering of `n`, as `str(n)` gives it: digits only, with no leading zero. */
  function DecimalString(n: nat): (r: string)
    ensures r != [] && forall i :: 0 <= i < |r| ==> IsDigit(r[i])
    ensures |r| > 1 ==> r[0] != '0'
    ensures r == "0" <==> n == 0
  {
    if n < 10 then [('0' as int + n) as char]
    else DecimalString(n / 10) + [('0' as int + n % 10) as char]
  }

  /** The number a string of decimal digits denotes. */
  function DecimalValue(s: string): int
    requires forall i :: 0 <= i < |s| ==> IsDigit(s[i])
  {
    if s == [] then 0
    else DecimalValue(s[..|s| - 1]) * 10 + (s[|s| - 1] as int - '0' as int)
  }

  /** Rendering loses nothing: the digits read back as `n`. */
  lemma {:induction false} DecimalRoundTrip(n: nat)
    ensures DecimalValue(DecimalString(n)) == n
  {
    if n >= 10 {
      DecimalRoundTrip(n / 10);
      var s := DecimalString(n);
      assert s[..|s| - 1] == DecimalString(n / 10);
    }
  }
}
