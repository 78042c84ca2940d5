/**
  String primitives the script relies on: `String.prototype.trim`,
  `String.prototype.length`, `String.prototype.toLowerCase`, `String.prototype.includes` and the
  first-occurrence search that both `indexOf` and a regular expression's
  left-most `@` perform. Strings are sequences of characters.
*/
module Text {
  import opened Wrappers

  /**
    The characters `trim` removes and `\s` matches: ECMAScript WhiteSpace
    (TAB, VT, FF, SPACE, NBSP, ZWNBSP and the space separators of Unicode)
    together with the LineTerminators (LF, CR, LS, PS).
  */
  const WHITE_SPACE: set<char> := {
    '\t', '\n', '\U{000B}', '\U{000C}', '\r', ' ', '\U{00A0}', '\U{1680}',
    '\U{2000}', '\U{2001}', '\U{2002}', '\U{2003}', '\U{2004}', '\U{2005}',
    '\U{2006}', '\U{2007}', '\U{2008}', '\U{2009}', '\U{200A}', '\U{2028}',
    '\U{2029}', '\U{202F}', '\U{205F}', '\U{3000}', '\U{FEFF}'
  }

  predicate IsSpace(c: char) {
    c in WHITE_SPACE
  }

  predicate AllSpace(s: string) {
    forall k :: 0 <= k < |s| ==> IsSpace(s[k])
  }

  /** Drops the leading white space. */
  function TrimStart(s: string): string {
    if s != [] && IsSpace(s[0]) then TrimStart(s[1..]) else s
  }

  /** Drops the trailing white space. */
  function TrimEnd(s: string): string {
    if s != [] && IsSpace(s[|s| - 1]) then TrimEnd(s[..|s| - 1]) else s
  }

  /** `TrimStart` keeps a suffix that does not start with white space, and drops only white space. */
  lemma {:induction false} TrimStartSpec(s: string)
    ensures var r := TrimStart(s);
      && |r| <= |s| && r == s[|s| - |r|..]
      && AllSpace(s[..|s| - |r|])
      && (r != [] ==> !IsSpace(r[0]))
  {
    if s != [] && IsSpace(s[0]) {
      TrimStartSpec(s[1..]);
      var r := TrimStart(s);
      assert s[1..][|s| - 1 - |r|..] == s[|s| - |r|..];
      var lead := s[..|s| - |r|];
      forall k | 0 <= k < |lead|
        ensures IsSpace(lead[k])
      {
        if k > 0 {
          assert lead[k] == s[1..][..|s| - 1 - |r|][k - 1];
        }
      }
    }
  }

  /** `TrimEnd` keeps a prefix that does not end with white space, and drops only white space. */
  lemma {:induction false} TrimEndSpec(s: string)
    ensures var r := TrimEnd(s);
      && |r| <= |s| && r == s[..|r|]
      && AllSpace(s[|r|..])
      && (r != [] ==> !IsSpace(r[|r| - 1]))
  {
    if s != [] && IsSpace(s[|s| - 1]) {
      var init := s[..|s| - 1];
      TrimEndSpec(init);
      var r := TrimEnd(s);
      assert init[..|r|] == s[..|r|];
      forall k | |r| <= k < |s|
        ensures IsSpace(s[k])
      {
        if k < |s| - 1 {
          assert init[|r|..][k - |r|] == s[k];
        }
      }
    }
  }

  /** Number of white-space characters `Trim` removes from the front. */
  function Lead(s: string): nat {
    TrimStartSpec(s);
    |s| - |TrimStart(s)|
  }

  /** `String.prototype.trim`: white space dropped from both ends. */
  function Trim(s: string): string {
    TrimEnd(TrimStart(s))
  }

  /** What `Trim` keeps is one slice of `s`, and everything around it is white space. */
  lemma TrimIsSlice(s: string)
    ensures var r := Trim(s);
      && Lead(s) + |r| <= |s| && r == s[Lead(s)..Lead(s) + |r|]
      && AllSpace(s[..Lead(s)]) && AllSpace(s[Lead(s) + |r|..])
  {
    var t := TrimStart(s);
    var r := TrimEnd(t);
    TrimStartSpec(s);
    TrimEndSpec(t);
    assert s[Lead(s) + |r|..] == t[|r|..];
  }

  /** The trimmed string is empty exactly when `s` is all white space. */
  lemma TrimEmptyIff(s: string)
    ensures Trim(s) == [] <==> AllSpace(s)
  {
    TrimIsSlice(s);
    TrimEnds(s);
    var n := Lead(s);
    if Trim(s) == [] {
      forall k | 0 <= k < |s|
        ensures IsSpace(s[k])
      {
        if k < n {
          assert s[..n][k] == s[k];
        } else {
          assert s[n..][k - n] == s[k];
        }
      }
    }
  }

  /** The trimmed string neither starts nor ends with white space. */
  lemma TrimEnds(s: string)
    ensures var r := Trim(s); r != [] ==> !IsSpace(r[0]) && !IsSpace(r[|r| - 1])
  {
    var t := TrimStart(s);
    TrimStartSpec(s);
    TrimEndSpec(t);
    assert Trim(s) == t[..|Trim(s)|];
  }

  /** A string with no white space at either end is its own trim. */
  lemma TrimmedIsFixed(s: string)
    requires s != [] ==> !IsSpace(s[0]) && !IsSpace(s[|s| - 1])
    ensures Trim(s) == s
  {
  }

  /** Trimming twice is trimming once. */
  lemma TrimIdempotent(s: string)
    ensures Trim(Trim(s)) == Trim(s)
  {
    TrimEnds(s);
    TrimmedIsFixed(Trim(s));
  }

  /** A character outside the Basic Multilingual Plane, stored as a surrogate pair in UTF-16. */
  predicate IsAstral(c: char) {
    c as int >= 0x1_0000
  }

  /** `String.prototype.length`: the number of UTF-16 code units, two for each astral character. */
  function Utf16Length(s: string): (n: nat)
    ensures |s| <= n <= 2 * |s|
  {
    if s == [] then 0 else Utf16Length(s[..|s| - 1]) + (if IsAstral(s[|s| - 1]) then 2 else 1)
  }

  /** On text without astral characters `length` is the number of characters. */
  lemma {:induction false} Utf16LengthBmp(s: string)
    requires forall k :: 0 <= k < |s| ==> !IsAstral(s[k])
    ensures Utf16Length(s) == |s|
  {
    if s != [] {
      Utf16LengthBmp(s[..|s| - 1]);
    }
  }

  /** On text made only of astral characters `length` is twice the number of characters. */
  lemma {:induction false} Utf16LengthAstral(s: string)
    requires forall k :: 0 <= k < |s| ==> IsAstral(s[k])
    ensures Utf16Length(s) == 2 * |s|
  {
    if s != [] {
      Utf16LengthAstral(s[..|s| - 1]);
    }
  }

  const LOWER_ALPHABET := "abcdefghijklmnopqrstuvwxyz"

  /** ASCII part of `toLowerCase`: 'A'..'Z' map to 'a'..'z'. */
  function LowerChar(c: char): (d: char)
    ensures !('A' <= c <= 'Z') ==> d == c
    ensures 'A' <= c <= 'Z' ==> d == LOWER_ALPHABET[c as int - 'A' as int]
    ensures !('A' <= d <= 'Z')
    ensures 'a' <= d <= 'z' <==> ('a' <= c <= 'z' || 'A' <= c <= 'Z')
    ensures IsSpace(d) <==> IsSpace(c)
  {
    if 'A' <= c <= 'Z' then (c as int + 32) as char else c
  }

  /** `String.prototype.toLowerCase`, restricted to ASCII letters. */
  function Lower(s: string): (r: string)
    ensures |r| == |s|
    ensures forall k :: 0 <= k < |s| ==> r[k] == LowerChar(s[k])
  {
    seq(|s|, k requires 0 <= k < |s| => LowerChar(s[k]))
  }

  lemma LowerIdempotent(s: string)
    ensures Lower(Lower(s)) == Lower(s)
  {
  }

  /** Lower-casing never creates or destroys white space, so it commutes with trimming. */
  lemma {:induction false} LowerTrimStart(s: string)
    ensures Lower(TrimStart(s)) == TrimStart(Lower(s))
  {
    if s != [] {
      assert Lower(s)[1..] == Lower(s[1..]);
      if IsSpace(s[0]) {
        LowerTrimStart(s[1..]);
      }
    }
  }

  lemma {:induction false} LowerTrimEnd(s: string)
    ensures Lower(TrimEnd(s)) == TrimEnd(Lower(s))
  {
    if s != [] {
      assert Lower(s)[..|s| - 1] == Lower(s[..|s| - 1]);
      if IsSpace(s[|s| - 1]) {
        LowerTrimEnd(s[..|s| - 1]);
      }
    }
  }

  lemma LowerTrim(s: string)
    ensures Lower(Trim(s)) == Trim(Lower(s))
  {
    LowerTrimStart(s);
    LowerTrimEnd(TrimStart(s));
  }

  /** `needle` occurs in `hay` starting at index `i`. */
  ghost predicate OccursAt(hay: string, needle: string, i: int) {
    0 <= i && i + |needle| <= |hay| && hay[i..i + |needle|] == needle
  }

  /** `String.prototype.includes`: is `needle` a contiguous part of `hay`? */
  function Includes(hay: string, needle: string): bool
    decreases |hay|
  {
    needle <= hay || (hay != [] && Includes(hay[1..], needle))
  }

  /** `Includes` holds exactly when the needle occurs at some position. */
  lemma {:induction false} IncludesIff(hay: string, needle: string)
    ensures Includes(hay, needle) <==> exists i :: OccursAt(hay, needle, i)
    decreases |hay|
  {
    if needle <= hay {
      assert OccursAt(hay, needle, 0);
    } else if hay == [] {
      assert forall i :: !OccursAt(hay, needle, i);
    } else {
      IncludesIff(hay[1..], needle);
      if Includes(hay[1..], needle) {
        var i :| OccursAt(hay[1..], needle, i);
        assert hay[1..][i..i + |needle|] == hay[i + 1..i + 1 + |needle|];
        assert OccursAt(hay, needle, i + 1);
      } else {
        forall i | OccursAt(hay, needle, i)
          ensures false
        {
          if i != 0 {
            assert hay[1..][i - 1..i - 1 + |needle|] == hay[i..i + |needle|];
            assert OccursAt(hay[1..], needle, i - 1);
          }
        }
      }
    }
  }

  /** First index of `c` in `s`, as `indexOf` finds it. */
  function IndexOf(s: string, c: char): (r: Option<nat>)
    ensures r.Some? ==> r.value < |s| && s[r.value] == c && forall k :: 0 <= k < r.value ==> s[k] != c
    ensures r.None? ==> forall k :: 0 <= k < |s| ==> s[k] != c
  {
    if s == [] then None
    else if s[0] == c then Some(0)
    else match IndexOf(s[1..], c)
      case None => None
      case Some(k) => Some(k + 1)
  }
}
