/**
 The PHP builtins the module filter relies on, modelled on strings:
 truthiness of a `getenv` result, `trim` with its default character list,
 `explode` with a one-character delimiter (and its inverse `implode`), and
 `strpos` together with the `!` applied to its result.
 */
module Php {
  import opened Wrappers

  /* ---------------------------------------------------------------------- */
  /* Truthiness                                                             */
  /* ---------------------------------------------------------------------- */

  /** PHP truthiness of a string-or-false value such as `getenv` returns:
      `false`, `""` and `"0"` are falsy, every other string is truthy.
      `empty($v)` is the negation. */
  predicate Truthy(v: Option<string>)
  {
    v.Some? && v.value != "" && v.value != "0"
  }

  /** PHP `!` applied to an `int|false` offset: true for `false` and for `0`. */
  predicate Falsy(offset: Option<nat>)
  {
    offset.None? || offset.value == 0
  }

  /* ---------------------------------------------------------------------- */
  /* trim                                                                   */
  /* ---------------------------------------------------------------------- */

  /** The characters `trim` strips by default: space, tab, line feed,
      carriage return, NUL and vertical tab. */
  predicate IsBlank(c: char)
  {
    c == ' ' || c == '\t' || c == '\n' || c == '\r' || c == '\0' || c == '\U{B}'
  }

  /** A string with no blank at either end, i.e. one `trim` leaves alone. */
  predicate IsTrimmed(s: string)
  {
    s == [] || (!IsBlank(s[0]) && !IsBlank(s[|s| - 1]))
  }

  /** `ltrim`: drop the leading blanks. The result is the suffix of `s` that
      starts at its first non-blank character. */
  function TrimStart(s: string): (t: string)
    ensures |t| <= |s| && t == s[|s| - |t|..]
    ensures forall i :: 0 <= i < |s| - |t| ==> IsBlank(s[i])
    ensures t == [] || !IsBlank(t[0])
  {
    if |s| > 0 && IsBlank(s[0]) then TrimStart(s[1..]) else s
  }

  /** `rtrim`: drop the trailing blanks. The result is the prefix of `s` that
      ends at its last non-blank character. */
  function TrimEnd(s: string): (t: string)
    ensures |t| <= |s| && t == s[..|t|]
    ensures forall i :: |t| <= i < |s| ==> IsBlank(s[i])
    ensures t == [] || !IsBlank(t[|t| - 1])
  {
    if |s| > 0 && IsBlank(s[|s| - 1]) then TrimEnd(s[..|s| - 1]) else s
  }

  /** `t` is `s[lo..]` cut short, with only blanks outside it. */
  predicate BlankPadded(s: string, t: string, lo: int)
  {
    && 0 <= lo && lo + |t| <= |s| && t == s[lo..lo + |t|]
    && (forall i :: 0 <= i < lo ==> IsBlank(s[i]))
    && (forall i :: lo + |t| <= i < |s| ==> IsBlank(s[i]))
  }

  /** `trim`: a contiguous slice of `s` with blanks removed at both ends and
      nothing else changed. */
  function Trim(s: string): (t: string)
    ensures IsTrimmed(t)
    ensures BlankPadded(s, t, |s| - |TrimStart(s)|)
  {
    var l := TrimStart(s);
    var t := TrimEnd(l);
    TrimBothEnds(s, l, t);
    t
  }

  /** Cutting blanks from the front and then from the back leaves a slice
      padded by blanks only. */
  lemma TrimBothEnds(s: string, l: string, t: string)
    requires |l| <= |s| && l == s[|s| - |l|..]
    requires forall i :: 0 <= i < |s| - |l| ==> IsBlank(s[i])
    requires l == [] || !IsBlank(l[0])
    requires |t| <= |l| && t == l[..|t|]
    requires forall i :: |t| <= i < |l| ==> IsBlank(l[i])
    requires t == [] || !IsBlank(t[|t| - 1])
    ensures IsTrimmed(t)
    ensures BlankPadded(s, t, |s| - |l|)
  {
    var lo := |s| - |l|;
    forall i | lo + |t| <= i < |s|
      ensures IsBlank(s[i])
    {
      assert s[i] == l[i - lo];
    }
    if t != [] {
      assert t[0] == l[0];
    }
  }

  /** Trimming a string that has no blank at either end returns it unchanged,
      so `trim` is idempotent. */
  lemma TrimTrimmed(s: string)
    requires IsTrimmed(s)
    ensures Trim(s) == s
  {
    assert TrimStart(s) == s;
    assert TrimEnd(s) == s;
  }

  lemma TrimIdempotent(s: string)
    ensures Trim(Trim(s)) == Trim(s)
  {
    TrimTrimmed(Trim(s));
  }

  /** Every character of `trim(s)` is a character of `s`. */
  lemma TrimKeepsCharacters(s: string, c: char)
    requires c in Trim(s)
    ensures c in s
  {
    var t := Trim(s);
    var lo := |s| - |TrimStart(s)|;
    assert BlankPadded(s, t, lo);
    var k :| 0 <= k < |t| && t[k] == c;
    assert s[lo + k] == c;
  }

  /* ---------------------------------------------------------------------- */
  /* explode / implode                                                      */
  /* ---------------------------------------------------------------------- */

  /** `implode(sep, parts)`: the parts joined with `sep` between neighbours. */
  function Implode(sep: char, parts: seq<string>): (s: string)
    requires |parts| >= 1
  {
    if |parts| == 1 then parts[0] else parts[0] + [sep] + Implode(sep, parts[1..])
  }

  /** `explode(sep, s)` for a one-character delimiter: the pieces of `s`
      between occurrences of `sep`. There is always at least one piece (the
      empty string yields `[""]`) and no piece contains the delimiter. */
  function Explode(sep: char, s: string): (parts: seq<string>)
    ensures |parts| >= 1
    ensures forall i :: 0 <= i < |parts| ==> sep !in parts[i]
  {
    if |s| == 0 then [""]
    else
      var rest := Explode(sep, s[1..]);
      if s[0] == sep then [""] + rest
      else [[s[0]] + rest[0]] + rest[1..]
  }

  /** Gluing the pieces back together with the delimiter restores the string. */
  lemma {:induction false} ImplodeExplode(sep: char, s: string)
    ensures Implode(sep, Explode(sep, s)) == s
  {
    if |s| > 0 {
      var rest := Explode(sep, s[1..]);
      ImplodeExplode(sep, s[1..]);
      if s[0] == sep {
        assert ([""] + rest)[1..] == rest;
      } else {
        var parts := [[s[0]] + rest[0]] + rest[1..];
        if |rest| == 1 {
          assert Implode(sep, parts) == [s[0]] + rest[0];
        } else {
          assert parts[1..] == rest[1..];
          assert Implode(sep, rest) == rest[0] + [sep] + Implode(sep, rest[1..]);
          assert Implode(sep, parts) == [s[0]] + rest[0] + [sep] + Implode(sep, rest[1..]);
        }
      }
    }
  }

  /** Splitting a string whose first delimiter follows the prefix `a`. */
  lemma {:induction false} ExplodeAfterPiece(sep: char, a: string, b: string)
    requires sep !in a
    ensures Explode(sep, a + [sep] + b) == [a] + Explode(sep, b)
  {
    if |a| == 0 {
      assert a + [sep] + b == [sep] + b;
      assert ([sep] + b)[1..] == b;
    } else {
      ExplodeAfterPiece(sep, a[1..], b);
      assert (a + [sep] + b)[1..] == a[1..] + [sep] + b;
      assert [a[0]] + a[1..] == a;
    }
  }

  /** Splitting a string that contains no delimiter yields the string itself. */
  lemma {:induction false} ExplodeSinglePiece(sep: char, a: string)
    requires sep !in a
    ensures Explode(sep, a) == [a]
  {
    if |a| > 0 {
      ExplodeSinglePiece(sep, a[1..]);
      assert [a[0]] + a[1..] == a;
    }
  }

  /** The converse round trip: delimiter-free pieces survive joining and
      splitting again. */
  lemma {:induction false} ExplodeImplode(sep: char, parts: seq<string>)
    requires |parts| >= 1
    requires forall i :: 0 <= i < |parts| ==> sep !in parts[i]
    ensures Explode(sep, Implode(sep, parts)) == parts
  {
    if |parts| == 1 {
      ExplodeSinglePiece(sep, parts[0]);
    } else {
      ExplodeImplode(sep, parts[1..]);
      ExplodeAfterPiece(sep, parts[0], Implode(sep, parts[1..]));
      assert [parts[0]] + parts[1..] == parts;
    }
  }

  /* ---------------------------------------------------------------------- */
  /* strpos                                                                 */
  /* ---------------------------------------------------------------------- */

  /** `needle` occurs in `haystack` at offset `at`. */
  predicate OccursAt(haystack: string, needle: string, at: int)
  {
    0 <= at && at + |needle| <= |haystack| && haystack[at..at + |needle|] == needle
  }

  /** `strpos(haystack, needle)`: the first offset at which `needle` occurs,
      or `false`. An empty needle yields `false` (the PHP 5 behaviour, which
      also raises a warning). */
  function Strpos(haystack: string, needle: string): (r: Option<nat>)
    ensures r.Some? ==> needle != [] && OccursAt(haystack, needle, r.value)
    ensures r.Some? ==> forall j :: 0 <= j < r.value ==> !OccursAt(haystack, needle, j)
    ensures r.None? ==> needle == [] || forall j :: !OccursAt(haystack, needle, j)
  {
    if needle == [] then None else StrposFrom(haystack, needle, 0)
  }

  function StrposFrom(haystack: string, needle: string, from: nat): (r: Option<nat>)
    requires forall j :: 0 <= j < from ==> !OccursAt(haystack, needle, j)
    ensures r.Some? ==> from <= r.value && OccursAt(haystack, needle, r.value)
    ensures r.Some? ==> forall j :: 0 <= j < r.value ==> !OccursAt(haystack, needle, j)
    ensures r.None? ==> forall j :: !OccursAt(haystack, needle, j)
    decreases |haystack| - from
  {
    if from + |needle| > |haystack| then None
    else if haystack[from..from + |needle|] == needle then Some(from)
    else StrposFrom(haystack, needle, from + 1)
  }

  /** A one-character haystack can only hold a match at offset 0, so `!`
      applied to `strpos` over it is true whatever the needle. */
  lemma StrposInOneCharIsFalsy(haystack: string, needle: string)
    requires |haystack| == 1
    ensures Falsy(Strpos(haystack, needle))
  {
  }
}
