/**
  The handful of Python `str` operations that app.py relies on: `isspace`,
  `strip`, `upper` and single-character `replace`. The war-room code uses them
  to normalise a position code (`str(...).upper().strip()`) and to rewrite a
  locale-formatted number (`val.replace('.', '').replace(',', '.')`); Python's
  `float()` also strips whitespace before parsing, from a narrower set.
 */
module Strings {

  /** The characters for which Python's `str.isspace()` holds. */
  predicate IsSpace(c: char) {
    var n := c as int;
    || 0x09 <= n <= 0x0D || 0x1C <= n <= 0x20
    || n == 0x85 || n == 0xA0 || n == 0x1680 || 0x2000 <= n <= 0x200A
    || n == 0x2028 || n == 0x2029 || n == 0x202F || n == 0x205F || n == 0x3000
  }

  /**
    The two whitespace sets app.py meets: the one `str.strip()` uses, and the
    one Python's `float()` skips around a number. CPython's `float()` first
    turns every non-ASCII whitespace character into a space and then strips
    only the ASCII space, tab, line feed, vertical tab, form feed and carriage
    return, so the separators U+001C to U+001F, which `str.isspace()` accepts,
    are kept.
   */
  datatype Spaces = StrSpaces | FloatSpaces

  /** `c` is whitespace for the set `ws`. */
  predicate IsSpaceIn(ws: Spaces, c: char) {
    IsSpace(c) && (ws == FloatSpaces ==> !(0x1C <= c as int <= 0x1F))
  }

  /**
    The whitespace `float()` skips is the `str.isspace()` set less the four
    separators U+001C to U+001F.
   */
  lemma FloatSpacesNarrower(c: char)
    ensures IsSpaceIn(FloatSpaces, c) ==> IsSpaceIn(StrSpaces, c)
    ensures IsSpaceIn(StrSpaces, c) && !IsSpaceIn(FloatSpaces, c) <==> 0x1C <= c as int <= 0x1F
  {
  }

  /** `s.lstrip()` for the whitespace set `ws`. */
  function TrimStart(s: string, ws: Spaces): string
  {
    if |s| > 0 && IsSpaceIn(ws, s[0]) then TrimStart(s[1..], ws) else s
  }

  /** `s.rstrip()` for the whitespace set `ws`. */
  function TrimEnd(s: string, ws: Spaces): string
  {
    if |s| > 0 && IsSpaceIn(ws, s[|s| - 1]) then TrimEnd(s[..|s| - 1], ws) else s
  }

  /** `s.strip()` for the whitespace set `ws`: drops leading and trailing whitespace, nothing else. */
  function Strip(s: string, ws: Spaces): string
  {
    TrimEnd(TrimStart(s, ws), ws)
  }

  /** `lstrip` removes a prefix made only of whitespace and stops at the first other character. */
  lemma {:induction false} TrimStartSpec(s: string, ws: Spaces)
    ensures |TrimStart(s, ws)| <= |s| && TrimStart(s, ws) == s[|s| - |TrimStart(s, ws)|..]
    ensures TrimStart(s, ws) == [] || !IsSpaceIn(ws, TrimStart(s, ws)[0])
    ensures forall i :: 0 <= i < |s| - |TrimStart(s, ws)| ==> IsSpaceIn(ws, s[i])
  {
    if |s| > 0 && IsSpaceIn(ws, s[0]) {
      TrimStartSpec(s[1..], ws);
    }
  }

  /** `rstrip` removes a suffix made only of whitespace and stops at the last other character. */
  lemma {:induction false} TrimEndSpec(s: string, ws: Spaces)
    ensures |TrimEnd(s, ws)| <= |s| && TrimEnd(s, ws) == s[..|TrimEnd(s, ws)|]
    ensures TrimEnd(s, ws) == [] || !IsSpaceIn(ws, TrimEnd(s, ws)[|TrimEnd(s, ws)| - 1])
    ensures forall i :: |TrimEnd(s, ws)| <= i < |s| ==> IsSpaceIn(ws, s[i])
  {
    if |s| > 0 && IsSpaceIn(ws, s[|s| - 1]) {
      TrimEndSpec(s[..|s| - 1], ws);
    }
  }

  /**
    `strip()` keeps a contiguous piece of the text, starting after the part
    `lstrip()` drops, that neither starts nor ends with whitespace.
   */
  lemma StripSpec(s: string, ws: Spaces)
    ensures var r, k := Strip(s, ws), |s| - |TrimStart(s, ws)|;
      && 0 <= k <= |s| - |r|
      && r == s[k..k + |r|]
      && (r == [] || (!IsSpaceIn(ws, r[0]) && !IsSpaceIn(ws, r[|r| - 1])))
  {
    var u, k := TrimStart(s, ws), |s| - |TrimStart(s, ws)|;
    var r := TrimEnd(u, ws);
    assert u == s[k..] && (u == [] || !IsSpaceIn(ws, u[0])) by {
      TrimStartSpec(s, ws);
    }
    assert |r| <= |u| && r == u[..|r|] && (r == [] || !IsSpaceIn(ws, r[|r| - 1])) by {
      TrimEndSpec(u, ws);
    }
    assert r != [] ==> r[0] == u[0];
  }

  /** Everything `strip()` drops, on either side of the piece it keeps, is whitespace. */
  lemma StripDropsSpaces(s: string, ws: Spaces)
    ensures var r, k := Strip(s, ws), |s| - |TrimStart(s, ws)|;
      && 0 <= k <= |s| - |r|
      && (forall i :: 0 <= i < k ==> IsSpaceIn(ws, s[i]))
      && (forall i :: k + |r| <= i < |s| ==> IsSpaceIn(ws, s[i]))
  {
    var u, k := TrimStart(s, ws), |s| - |TrimStart(s, ws)|;
    var r := TrimEnd(u, ws);
    assert u == s[k..] && forall i :: 0 <= i < k ==> IsSpaceIn(ws, s[i]) by {
      TrimStartSpec(s, ws);
    }
    assert |r| <= |u| && forall i :: |r| <= i < |u| ==> IsSpaceIn(ws, u[i]) by {
      TrimEndSpec(u, ws);
    }
    forall i | k + |r| <= i < |s| ensures IsSpaceIn(ws, s[i]) {
      assert s[i] == u[i - k];
    }
  }

  /** A string that neither starts nor ends with whitespace is left alone by `strip()`. */
  lemma StripUnchanged(s: string, ws: Spaces)
    requires s != [] ==> !IsSpaceIn(ws, s[0]) && !IsSpaceIn(ws, s[|s| - 1])
    ensures Strip(s, ws) == s
  {
  }

  /** Upper-cases the ASCII letters a-z; every other character is kept. */
  function UpperChar(c: char): (u: char)
    ensures 'a' <= c <= 'z' ==> 'A' <= u <= 'Z' && u as int == c as int - 32
    ensures !('a' <= c <= 'z') ==> u == c
  {
    if 'a' <= c <= 'z' then (c as int - 32) as char else c
  }

  /**
    `s.upper()`, restricted to ASCII case mapping: the same length, no lower-case
    letter left, and every character that is not a lower-case letter kept.
   */
  function Upper(s: string): (u: string)
    ensures |u| == |s|
    ensures forall i :: 0 <= i < |u| ==> !('a' <= u[i] <= 'z')
    ensures forall i :: 0 <= i < |s| && !('a' <= s[i] <= 'z') ==> u[i] == s[i]
  {
    seq(|s|, i requires 0 <= i < |s| => UpperChar(s[i]))
  }

  /** `s.replace(c, '')`: every occurrence of `c` deleted, everything else kept in order. */
  function Delete(s: string, c: char): (r: string)
    ensures |r| <= |s|
    ensures forall x :: x in r <==> x in s && x != c
  {
    if s == [] then []
    else if s[0] == c then Delete(s[1..], c)
    else [s[0]] + Delete(s[1..], c)
  }

  /** `replace(c, '')` changes nothing when there is no `c`. */
  lemma {:induction false} DeleteAbsent(s: string, c: char)
    requires c !in s
    ensures Delete(s, c) == s
  {
    if s != [] {
      assert s[0] != c;
      DeleteAbsent(s[1..], c);
      assert [s[0]] + s[1..] == s;
    }
  }

  /** `s.replace(a, b)` for single characters: the same string with each `a` turned into `b`. */
  function Replace(s: string, a: char, b: char): string
  {
    seq(|s|, i requires 0 <= i < |s| => if s[i] == a then b else s[i])
  }

  /** Deleting a character distributes over concatenation. */
  lemma {:induction false} DeleteAppend(s: string, t: string, c: char)
    ensures Delete(s + t, c) == Delete(s, c) + Delete(t, c)
  {
    if s != [] {
      assert (s + t)[1..] == s[1..] + t;
      DeleteAppend(s[1..], t, c);
    } else {
      assert s + t == t;
    }
  }

  /** Replacing a character that does not occur changes nothing. */
  lemma ReplaceAbsent(s: string, a: char, b: char)
    requires a !in s
    ensures Replace(s, a, b) == s
  {
  }

  /** Replacing a character distributes over concatenation. */
  lemma ReplaceAppend(s: string, t: string, a: char, b: char)
    ensures Replace(s + t, a, b) == Replace(s, a, b) + Replace(t, a, b)
  {
  }
}
