/**
 * The Python string built-ins the prescription parser relies on, restricted to
 * ASCII: character classes, upper/lower casing, `strip`, `split`, `join` and
 * `replace`.
 */
module Strings {

  /** Python's `\d` and `str.isdigit`, restricted to ASCII. */
  predicate IsDigit(c: char) { '0' <= c <= '9' }

  /**
   * Python's `\s` and `str.isspace`, restricted to ASCII: tab, line feed,
   * vertical tab, form feed, carriage return, the four separators 0x1C-0x1F
   * and the space.
   */
  predicate IsSpace(c: char) { 9 <= c as int <= 13 || 28 <= c as int <= 32 }

  predicate IsAsciiLetter(c: char) { 'a' <= c <= 'z' || 'A' <= c <= 'Z' }

  predicate IsUpperLetter(c: char) { 'A' <= c <= 'Z' }

  /** The character classes that the stripping and scanning below work with. */
  datatype CharClass = Whitespace | Digits | NonDigits | Commas

  predicate InClass(c: char, cls: CharClass)
  {
    match cls
    case Whitespace => IsSpace(c)
    case Digits => IsDigit(c)
    case NonDigits => !IsDigit(c)
    case Commas => c == ','
  }

  function UpperChar(c: char): char
  {
    if 'a' <= c <= 'z' then (c as int - 32) as char else c
  }

  function LowerChar(c: char): char
  {
    if 'A' <= c <= 'Z' then (c as int + 32) as char else c
  }

  /** `str.upper()` on ASCII text: every letter mapped on its own. */
  function Upper(s: string): (r: string)
    ensures |r| == |s|
  {
    if s == [] then [] else [UpperChar(s[0])] + Upper(s[1..])
  }

  lemma {:induction false} UpperChars(s: string)
    ensures forall k :: 0 <= k < |s| ==> Upper(s)[k] == UpperChar(s[k])
    decreases |s|
  {
    if s != [] {
      UpperChars(s[1..]);
    }
  }

  /** `str.lower()` on ASCII text. */
  function Lower(s: string): (r: string)
    ensures |r| == |s|
  {
    if s == [] then [] else [LowerChar(s[0])] + Lower(s[1..])
  }

  /** Lower-casing maps every character on its own and leaves no upper-case letter. */
  lemma {:induction false} LowerChars(s: string)
    ensures forall k :: 0 <= k < |s| ==> Lower(s)[k] == LowerChar(s[k])
    ensures forall k :: 0 <= k < |s| ==> !IsUpperLetter(Lower(s)[k])
    decreases |s|
  {
    if s != [] {
      LowerChars(s[1..]);
    }
  }

  /** Lower-casing works on the two parts of a text separately. */
  lemma {:induction false} LowerConcat(a: string, b: string)
    ensures Lower(a + b) == Lower(a) + Lower(b)
    decreases |a|
  {
    if a != [] {
      LowerConcat(a[1..], b);
      assert (a + b)[1..] == a[1..] + b;
      assert Lower(a + b) == [LowerChar(a[0])] + Lower(a[1..] + b);
      assert Lower(a) == [LowerChar(a[0])] + Lower(a[1..]);
    } else {
      assert a + b == b;
    }
  }

  /** A text without upper-case letters is its own lower case. */
  lemma {:induction false} LowerUnchanged(s: string)
    requires forall k :: 0 <= k < |s| ==> !IsUpperLetter(s[k])
    ensures Lower(s) == s
    decreases |s|
  {
    if s != [] {
      LowerUnchanged(s[1..]);
    }
  }

  /** Substring test, Python's `t in s`. */
  predicate Contains(s: string, t: string)
  {
    exists k :: 0 <= k <= |s| && t <= s[k..]
  }

  /** The end of the run of class-`cls` characters that starts at position `i`. */
  function SkipClass(s: string, i: nat, cls: CharClass): (j: nat)
    requires i <= |s|
    ensures i <= j <= |s|
    decreases |s| - i
  {
    if i == |s| || !InClass(s[i], cls) then i else SkipClass(s, i + 1, cls)
  }

  /** The skipped run lies in the class and the character after it does not. */
  lemma {:induction false} SkipClassSpec(s: string, i: nat, cls: CharClass)
    requires i <= |s|
    ensures forall k :: i <= k < SkipClass(s, i, cls) ==> InClass(s[k], cls)
    ensures SkipClass(s, i, cls) == |s| || !InClass(s[SkipClass(s, i, cls)], cls)
    decreases |s| - i
  {
    if i < |s| && InClass(s[i], cls) {
      SkipClassSpec(s, i + 1, cls);
    }
  }

  /** The start of the run of class-`cls` characters that ends at position `j`, going back no further than `lo`. */
  function BackClass(s: string, lo: nat, j: nat, cls: CharClass): (i: nat)
    requires lo <= j <= |s|
    ensures lo <= i <= j
    decreases j
  {
    if j == lo || !InClass(s[j - 1], cls) then j else BackClass(s, lo, j - 1, cls)
  }

  /** The run lies in the class and the character before it, above `lo`, does not. */
  lemma {:induction false} BackClassSpec(s: string, lo: nat, j: nat, cls: CharClass)
    requires lo <= j <= |s|
    ensures forall k :: BackClass(s, lo, j, cls) <= k < j ==> InClass(s[k], cls)
    ensures BackClass(s, lo, j, cls) == lo || !InClass(s[BackClass(s, lo, j, cls) - 1], cls)
    decreases j
  {
    if j > lo && InClass(s[j - 1], cls) {
      BackClassSpec(s, lo, j - 1, cls);
    }
  }

  /** True when neither end of `s` is a character of class `cls`. */
  predicate NoEdge(s: string, cls: CharClass)
  {
    s == [] || (!InClass(s[0], cls) && !InClass(s[|s| - 1], cls))
  }

  /**
   * Python's `s.strip(chars)`: removes every leading and every trailing
   * character of class `cls`. `s.strip()` is `StripClass(s, Whitespace)`;
   * `s.strip(',')` is `StripClass(s, Commas)`.
   */
  function StripClass(s: string, cls: CharClass): (r: string)
    ensures NoEdge(r, cls)
  {
    var a := SkipClass(s, 0, cls);
    var b := BackClass(s, a, |s|, cls);
    SkipClassSpec(s, 0, cls);
    BackClassSpec(s, a, |s|, cls);
    s[a..b]
  }

  /**
   * Stripping empties exactly the texts made only of the class, and leaves
   * a text alone when neither of its ends is in the class.
   */
  lemma StripClassSpec(s: string, cls: CharClass)
    ensures StripClass(s, cls) == [] <==> forall k :: 0 <= k < |s| ==> InClass(s[k], cls)
    ensures NoEdge(s, cls) ==> StripClass(s, cls) == s
  {
    var a := SkipClass(s, 0, cls);
    SkipClassSpec(s, 0, cls);
    BackClassSpec(s, a, |s|, cls);
    if NoEdge(s, cls) && s != [] {
      assert a == 0;
      assert StripClass(s, cls) == s[0..|s|];
    }
  }

  /** A run of the class from `i` to `j`, ended by the text's end or a character outside it, is what the skip takes. */
  lemma SkipClassTo(s: string, i: nat, j: nat, cls: CharClass)
    requires i <= j <= |s|
    requires forall k :: i <= k < j ==> InClass(s[k], cls)
    requires j == |s| || !InClass(s[j], cls)
    ensures SkipClass(s, i, cls) == j
  {
    SkipClassSpec(s, i, cls);
  }

  /** Stripping a text padded on both sides with class characters gives back the text. */
  lemma StripAround(u: string, t: string, v: string, cls: CharClass)
    requires forall k :: 0 <= k < |u| ==> InClass(u[k], cls)
    requires forall k :: 0 <= k < |v| ==> InClass(v[k], cls)
    requires t != [] && NoEdge(t, cls)
    ensures StripClass(u + t + v, cls) == t
  {
    var s := u + t + v;
    var a := SkipClass(s, 0, cls);
    SkipClassSpec(s, 0, cls);
    assert s[|u|] == t[0];
    assert forall k :: 0 <= k < |u| ==> s[k] == u[k];
    assert a == |u|;
    var b := BackClass(s, a, |s|, cls);
    BackClassSpec(s, a, |s|, cls);
    assert s[|u| + |t| - 1] == t[|t| - 1];
    assert forall k :: |u| + |t| <= k < |s| ==> s[k] == v[k - |u| - |t|];
    assert b == |u| + |t|;
    assert s[a..b] == t;
  }

  /** Stripping keeps only characters of the text. */
  lemma StripChars(s: string, cls: CharClass)
    ensures forall c :: c in StripClass(s, cls) ==> c in s
  {
    var a := SkipClass(s, 0, cls);
    var b := BackClass(s, a, |s|, cls);
    forall c | c in StripClass(s, cls) ensures c in s {
      var k :| 0 <= k < b - a && s[a..b][k] == c;
      assert s[a + k] == c;
    }
  }

  /** Python's `s.strip()` on ASCII whitespace. */
  function Strip(s: string): (r: string)
    ensures NoEdge(r, Whitespace)
  {
    StripClass(s, Whitespace)
  }

  function Last<T>(xs: seq<T>): T
    requires |xs| > 0
  {
    xs[|xs| - 1]
  }

  /**
   * Python's `s.split(sep)` for a non-empty separator: the pieces between
   * the non-overlapping occurrences of `sep`, found left to right.
   */
  function SplitOn(s: string, sep: string): (r: seq<string>)
    requires |sep| > 0
    ensures |r| >= 1
    decreases |s|
  {
    if |s| < |sep| then [s]
    else if sep <= s then [""] + SplitOn(s[|sep|..], sep)
    else
      var rest := SplitOn(s[1..], sep);
      [[s[0]] + rest[0]] + rest[1..]
  }

  /** Python's `sep.join(pieces)`. */
  function Join(pieces: seq<string>, sep: string): string
  {
    if pieces == [] then ""
    else if |pieces| == 1 then pieces[0]
    else pieces[0] + sep + Join(pieces[1..], sep)
  }

  /**
   * Python's `s.replace(pat, rep)` for a non-empty pattern: every
   * non-overlapping occurrence of `pat`, found left to right, is replaced.
   */
  function ReplaceAll(s: string, pat: string, rep: string): string
    requires |pat| > 0
    decreases |s|
  {
    if |s| < |pat| then s
    else if pat <= s then rep + ReplaceAll(s[|pat|..], pat, rep)
    else [s[0]] + ReplaceAll(s[1..], pat, rep)
  }

  /** `s` with every occurrence of the character `c` removed. */
  function RemoveChar(s: string, c: char): (r: string)
    ensures c !in r
    ensures forall d :: d in r <==> d in s && d != c
  {
    if s == [] then []
    else if s[0] == c then RemoveChar(s[1..], c)
    else [s[0]] + RemoveChar(s[1..], c)
  }

  lemma JoinCons(x: string, y: string, rest: seq<string>, sep: string)
    ensures Join([x + y] + rest, sep) == x + Join([y] + rest, sep)
  {
    if rest != [] {
      assert ([x + y] + rest)[1..] == rest;
      assert ([y] + rest)[1..] == rest;
    }
  }

  /** Python's documented equivalence: `s.replace(p, r) == r.join(s.split(p))`. */
  lemma {:induction false} ReplaceIsSplitJoin(s: string, pat: string, rep: string)
    requires |pat| > 0
    ensures ReplaceAll(s, pat, rep) == Join(SplitOn(s, pat), rep)
    decreases |s|
  {
    if |s| < |pat| {
    } else if pat <= s {
      var rest := SplitOn(s[|pat|..], pat);
      ReplaceIsSplitJoin(s[|pat|..], pat, rep);
      assert ([""] + rest)[1..] == rest;
    } else {
      var rest := SplitOn(s[1..], pat);
      ReplaceIsSplitJoin(s[1..], pat, rep);
      JoinCons([s[0]], rest[0], rest[1..], rep);
      assert [rest[0]] + rest[1..] == rest;
    }
  }

  /** Replacing a pattern by itself changes nothing. */
  lemma {:induction false} ReplaceBySelf(s: string, pat: string)
    requires |pat| > 0
    ensures ReplaceAll(s, pat, pat) == s
    decreases |s|
  {
    if |s| < |pat| {
    } else if pat <= s {
      ReplaceBySelf(s[|pat|..], pat);
      assert s == pat + s[|pat|..];
    } else {
      ReplaceBySelf(s[1..], pat);
      assert s == [s[0]] + s[1..];
    }
  }

  /** Splitting and joining again with the same separator gives back the text. */
  lemma JoinSplit(s: string, sep: string)
    requires |sep| > 0
    ensures Join(SplitOn(s, sep), sep) == s
  {
    ReplaceIsSplitJoin(s, sep, sep);
    ReplaceBySelf(s, sep);
  }

  /** No piece of a split on a one-character separator contains that character. */
  lemma {:induction false} SplitPiecesFree(s: string, sep: string)
    requires |sep| == 1
    ensures forall k :: 0 <= k < |SplitOn(s, sep)| ==> sep[0] !in SplitOn(s, sep)[k]
    decreases |s|
  {
    if |s| < |sep| {
    } else if sep <= s {
      SplitPiecesFree(s[1..], sep);
    } else {
      SplitPiecesFree(s[1..], sep);
      assert s[0] != sep[0];
    }
  }

  /**
   * The last piece of a split on a one-character separator is the text after
   * the last occurrence of that character, or the whole text when it has none.
   */
  lemma {:induction false} SplitLastPiece(s: string, sep: string)
    requires |sep| == 1
    ensures |Last(SplitOn(s, sep))| <= |s|
    ensures s[|s| - |Last(SplitOn(s, sep))|..] == Last(SplitOn(s, sep))
    ensures sep[0] !in Last(SplitOn(s, sep))
    ensures |Last(SplitOn(s, sep))| < |s| ==> s[|s| - |Last(SplitOn(s, sep))| - 1] == sep[0]
    ensures |Last(SplitOn(s, sep))| == |s| ==> sep[0] !in s
    decreases |s|
  {
    if sep[0] !in s {
      SplitWithoutSep(s, sep);
    } else if sep <= s {
      var t := s[1..];
      SplitLastPiece(t, sep);
      var l := Last(SplitOn(t, sep));
      assert Last(SplitOn(s, sep)) == l;
      assert s[|s| - |l|..] == t[|t| - |l|..];
    } else {
      var t := s[1..];
      SplitLastPiece(t, sep);
      SplitWithSep(t, sep);
      var l := Last(SplitOn(t, sep));
      assert Last(SplitOn(s, sep)) == l;
      assert s[|s| - |l|..] == t[|t| - |l|..];
    }
  }

  /** Without a separator, splitting yields the whole text. */
  lemma {:induction false} SplitWithoutSep(s: string, sep: string)
    requires |sep| == 1 && sep[0] !in s
    ensures SplitOn(s, sep) == [s]
    decreases |s|
  {
    if |s| >= |sep| {
      SplitWithoutSep(s[1..], sep);
      assert [s[0]] + s[1..] == s;
    }
  }

  /** Splitting `x + sep + y`, where `x` holds no separator, yields `x` followed by the pieces of `y`. */
  lemma {:induction false} SplitHead(x: string, y: string, sep: string)
    requires |sep| == 1 && sep[0] !in x
    ensures SplitOn(x + sep + y, sep) == [x] + SplitOn(y, sep)
    decreases |x|
  {
    var s := x + sep + y;
    if x == [] {
      assert s == sep + y;
      assert s[|sep|..] == y;
    } else {
      assert s[0] == x[0];
      assert s[1..] == x[1..] + sep + y;
      SplitHead(x[1..], y, sep);
      assert [x[0]] + x[1..] == x;
    }
  }

  /** Splitting the join of pieces that hold no one-character separator gives the pieces back. */
  lemma {:induction false} SplitJoin(pieces: seq<string>, sep: string)
    requires |sep| == 1 && |pieces| > 0
    requires forall k :: 0 <= k < |pieces| ==> sep[0] !in pieces[k]
    ensures SplitOn(Join(pieces, sep), sep) == pieces
    decreases |pieces|
  {
    if |pieces| == 1 {
      SplitWithoutSep(pieces[0], sep);
    } else {
      SplitJoin(pieces[1..], sep);
      SplitHead(pieces[0], Join(pieces[1..], sep), sep);
      assert [pieces[0]] + pieces[1..] == pieces;
    }
  }

  /** A separator splits the text into at least two pieces. */
  lemma {:induction false} SplitWithSep(s: string, sep: string)
    requires |sep| == 1 && sep[0] in s
    ensures |SplitOn(s, sep)| >= 2
    decreases |s|
  {
    if s[0] != sep[0] {
      assert sep[0] in s[1..];
      SplitWithSep(s[1..], sep);
    }
  }

  /** The last piece of a split is the text after the last separator. */
  lemma SplitLastAfter(a: string, b: string, sep: string)
    requires |sep| == 1 && sep[0] !in b
    ensures Last(SplitOn(a + sep + b, sep)) == b
  {
    var s := a + sep + b;
    SplitLastPiece(s, sep);
    var l := Last(SplitOn(s, sep));
    assert s[|s| - |b| - 1] == sep[0];
    assert s[|s| - |b|..] == b;
  }

  /** Replacing with a non-empty text yields the empty text only from the empty text. */
  lemma {:induction false} ReplaceEmpty(s: string, pat: string, rep: string)
    requires |pat| > 0 && |rep| > 0
    ensures ReplaceAll(s, pat, rep) == [] <==> s == []
    decreases |s|
  {
    if |s| >= |pat| && !(pat <= s) {
      ReplaceEmpty(s[1..], pat, rep);
    }
  }

  /** Every character of a replacement's result comes from the text or from the replacement. */
  lemma {:induction false} ReplaceChars(s: string, pat: string, rep: string)
    requires |pat| > 0
    ensures forall c :: c in ReplaceAll(s, pat, rep) ==> c in s || c in rep
    decreases |s|
  {
    if |s| < |pat| {
    } else if pat <= s {
      ReplaceChars(s[|pat|..], pat, rep);
    } else {
      ReplaceChars(s[1..], pat, rep);
    }
  }

  /** A pattern one of whose characters does not occur in the text is never replaced. */
  lemma {:induction false} ReplaceMissing(s: string, pat: string, rep: string, c: char)
    requires |pat| > 0 && c in pat && c !in s
    ensures ReplaceAll(s, pat, rep) == s
    decreases |s|
  {
    if |s| < |pat| {
    } else if !(pat <= s) {
      ReplaceMissing(s[1..], pat, rep, c);
    }
  }

  /** Replacing a one-character pattern by nothing removes that character. */
  lemma {:induction false} ReplaceCharIsRemove(s: string, c: char)
    ensures ReplaceAll(s, [c], "") == RemoveChar(s, c)
    decreases |s|
  {
    if s != [] {
      ReplaceCharIsRemove(s[1..], c);
    }
  }

  /** A prefix in which no occurrence of the pattern starts passes through `replace` unchanged. */
  lemma {:induction false} ReplaceAfterPrefix(p: string, v: string, pat: string, rep: string)
    requires |pat| > 0
    requires forall k :: 0 <= k < |p| ==> !(pat <= (p + v)[k..])
    ensures ReplaceAll(p + v, pat, rep) == p + ReplaceAll(v, pat, rep)
    decreases |p|
  {
    if p != [] {
      var s := p + v;
      assert s[0..] == s;
      ReplaceSkipsHead(s, pat, rep);
      assert s[1..] == p[1..] + v;
      forall k | 0 <= k < |p[1..]| ensures !(pat <= (p[1..] + v)[k..]) {
        assert (p[1..] + v)[k..] == s[k + 1..];
      }
      ReplaceAfterPrefix(p[1..], v, pat, rep);
      assert s == [p[0]] + (p[1..] + v);
    }
  }

  /** A text that does not start with the pattern keeps its first character. */
  lemma ReplaceSkipsHead(s: string, pat: string, rep: string)
    requires |pat| > 0 && s != [] && !(pat <= s)
    ensures ReplaceAll(s, pat, rep) == [s[0]] + ReplaceAll(s[1..], pat, rep)
  {
    if |s| < |pat| {
      assert s == [s[0]] + s[1..];
    }
  }

  /** The digits of a text, in order. */
  function DigitsOf(s: string): (r: string)
    ensures forall k :: 0 <= k < |r| ==> IsDigit(r[k])
  {
    if s == [] then []
    else (if IsDigit(s[0]) then [s[0]] else []) + DigitsOf(s[1..])
  }

  /** Removing a character that is no digit keeps the digits and their order. */
  lemma {:induction false} RemoveCharKeepsDigits(s: string, c: char)
    requires !IsDigit(c)
    ensures DigitsOf(RemoveChar(s, c)) == DigitsOf(s)
    decreases |s|
  {
    if s != [] {
      RemoveCharKeepsDigits(s[1..], c);
      if s[0] != c {
        assert ([s[0]] + RemoveChar(s[1..], c))[1..] == RemoveChar(s[1..], c);
      }
    }
  }
}
