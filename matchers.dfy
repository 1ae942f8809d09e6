/**
 * Hand-written matchers for the four regular expressions of the prescription
 * parser: the frequency pattern `\d\s*-\s*\d\s*-\s*\d`, the dosage pattern
 * `\d+\s*(mg|g|ml|mcg|tab|cap|my|moy|0og)?` (case-insensitive), the
 * dosage-form prefix `^(Tab|Cap|T\s|C\s|Rx)\s*` (case-insensitive) and the
 * class `[^a-zA-Z\s]`. Each keeps Python's leftmost, greedy, first-alternative
 * semantics.
 */
module Matchers {
  import opened Strings

  datatype Option<T> = None | Some(value: T)

  /** A matched span `s[start..end]`. */
  datatype Span = Span(start: nat, end: nat)

  // ---------------------------------------------------------------------------
  // Frequency: a pattern language of single digits, dashes and runs of spaces
  // ---------------------------------------------------------------------------

  /** `\d`, a literal `-` and `\s*`. */
  datatype Atom = Digit | Dash | Spaces

  /** `\d\s*-\s*\d\s*-\s*\d` */
  const FrequencyPattern: seq<Atom> :=
    [Digit, Spaces, Dash, Spaces, Digit, Spaces, Dash, Spaces, Digit]

  /**
   * Reference semantics: `t` as a whole matches `p`, where a run of spaces
   * may take any number of whitespace characters.
   */
  predicate Matches(t: string, p: seq<Atom>)
    decreases |p|, |t|
  {
    if p == [] then t == []
    else match p[0]
      case Digit => |t| > 0 && IsDigit(t[0]) && Matches(t[1..], p[1..])
      case Dash => |t| > 0 && t[0] == '-' && Matches(t[1..], p[1..])
      case Spaces => Matches(t, p[1..]) || (|t| > 0 && IsSpace(t[0]) && Matches(t[1..], p))
  }

  /**
   * A run of spaces is always followed by a digit or a dash, so consuming
   * spaces greedily never loses a match.
   */
  predicate WellFormed(p: seq<Atom>)
  {
    forall k :: 0 <= k < |p| && p[k] == Spaces ==> k + 1 < |p| && p[k + 1] != Spaces
  }

  /** The greedy matcher: the length of the prefix of `s` that matches `p`. */
  function MatchPrefix(s: string, p: seq<Atom>): (r: Option<nat>)
    ensures r.Some? ==> r.value <= |s|
    decreases |p|
  {
    if p == [] then Some(0)
    else match p[0]
      case Digit =>
        if |s| > 0 && IsDigit(s[0]) then
          match MatchPrefix(s[1..], p[1..])
          case Some(n) => Some(n + 1)
          case None => None
        else None
      case Dash =>
        if |s| > 0 && s[0] == '-' then
          match MatchPrefix(s[1..], p[1..])
          case Some(n) => Some(n + 1)
          case None => None
        else None
      case Spaces =>
        var w := SkipClass(s, 0, Whitespace);
        match MatchPrefix(s[w..], p[1..])
        case Some(n) => Some(w + n)
        case None => None
  }

  lemma {:induction false} SpacesPrefix(u: string, v: string, p: seq<Atom>)
    requires p != [] && p[0] == Spaces
    requires forall k :: 0 <= k < |u| ==> IsSpace(u[k])
    requires Matches(v, p[1..])
    ensures Matches(u + v, p)
    decreases |u|
  {
    if u != [] {
      SpacesPrefix(u[1..], v, p);
      assert (u + v)[1..] == u[1..] + v;
    } else {
      assert u + v == v;
    }
  }

  /** One digit or dash in front of a match of the rest of the pattern. */
  lemma SingleStep(s: string, p: seq<Atom>, n: nat)
    requires p != [] && p[0] != Spaces && 1 <= n <= |s|
    requires p[0] == Digit ==> IsDigit(s[0])
    requires p[0] == Dash ==> s[0] == '-'
    requires Matches(s[1..][..n - 1], p[1..])
    ensures Matches(s[..n], p)
  {
    assert s[..n][1..] == s[1..][..n - 1];
  }

  /** A run of `w` spaces in front of a match of the rest of the pattern. */
  lemma SpacesStep(s: string, p: seq<Atom>, w: nat, n: nat)
    requires p != [] && p[0] == Spaces && w <= n <= |s|
    requires forall k :: 0 <= k < w ==> IsSpace(s[k])
    requires Matches(s[w..][..n - w], p[1..])
    ensures Matches(s[..n], p)
  {
    SpacesPrefix(s[..w], s[w..][..n - w], p);
    assert s[..n] == s[..w] + s[w..][..n - w];
  }

  /** What the greedy matcher reports is a match. */
  lemma {:induction false} MatchPrefixSound(s: string, p: seq<Atom>)
    requires MatchPrefix(s, p).Some?
    ensures Matches(s[..MatchPrefix(s, p).value], p)
    decreases |p|
  {
    var n := MatchPrefix(s, p).value;
    if p != [] {
      match p[0]
      case Digit =>
        MatchPrefixSound(s[1..], p[1..]);
        SingleStep(s, p, n);
      case Dash =>
        MatchPrefixSound(s[1..], p[1..]);
        SingleStep(s, p, n);
      case Spaces =>
        var w := SkipClass(s, 0, Whitespace);
        SkipClassSpec(s, 0, Whitespace);
        MatchPrefixSound(s[w..], p[1..]);
        SpacesStep(s, p, w, n);
    }
  }

  /** In a well-formed pattern, a run of spaces ends at the first non-space. */
  lemma {:induction false} SpacesSplit(t: string, p: seq<Atom>) returns (j: nat)
    requires |p| >= 2 && p[0] == Spaces && p[1] != Spaces
    requires Matches(t, p)
    ensures j < |t| && !IsSpace(t[j]) && Matches(t[j..], p[1..])
    ensures forall k :: 0 <= k < j ==> IsSpace(t[k])
    decreases |t|
  {
    if Matches(t, p[1..]) {
      j := 0;
    } else {
      var j' := SpacesSplit(t[1..], p);
      j := j' + 1;
      assert t[j..] == t[1..][j'..];
    }
  }

  /** The tail of a well-formed pattern is well formed. */
  lemma WellFormedTail(p: seq<Atom>)
    requires p != [] && WellFormed(p)
    ensures WellFormed(p[1..])
  {
    forall k | 0 <= k < |p[1..]| && p[1..][k] == Spaces
      ensures k + 1 < |p[1..]| && p[1..][k + 1] != Spaces
    {
      assert p[k + 1] == Spaces;
    }
  }

  /** A match that starts with a run of spaces continues where the greedy run ends. */
  lemma SpacesRest(s: string, p: seq<Atom>, m: nat) returns (w: nat)
    requires |p| >= 2 && p[0] == Spaces && p[1] != Spaces
    requires m <= |s| && Matches(s[..m], p)
    ensures w == SkipClass(s, 0, Whitespace) && w <= m && Matches(s[w..][..m - w], p[1..])
  {
    var j := SpacesSplit(s[..m], p);
    w := SkipClass(s, 0, Whitespace);
    SkipClassSpec(s, 0, Whitespace);
    assert s[..m][j] == s[j];
    assert w == j;
    assert s[..m][j..] == s[j..][..m - j];
  }

  /** Every match of a well-formed pattern is the one the greedy matcher finds. */
  lemma {:induction false} MatchPrefixComplete(s: string, p: seq<Atom>, m: nat)
    requires WellFormed(p)
    requires m <= |s| && Matches(s[..m], p)
    ensures MatchPrefix(s, p) == Some(m)
    decreases |p|
  {
    if p != [] {
      WellFormedTail(p);
      match p[0]
      case Digit =>
        assert s[..m][1..] == s[1..][..m - 1];
        MatchPrefixComplete(s[1..], p[1..], m - 1);
      case Dash =>
        assert s[..m][1..] == s[1..][..m - 1];
        MatchPrefixComplete(s[1..], p[1..], m - 1);
      case Spaces =>
        var w := SpacesRest(s, p, m);
        MatchPrefixComplete(s[w..], p[1..], m - w);
    }
  }

  /** The leftmost position at or after `k` where `p` matches, with its greedy end. */
  function SearchFrom(s: string, p: seq<Atom>, k: nat): (r: Option<Span>)
    requires k <= |s|
    ensures r.Some? ==> k <= r.value.start <= r.value.end <= |s|
    decreases |s| - k
  {
    match MatchPrefix(s[k..], p)
    case Some(n) => Some(Span(k, k + n))
    case None => if k == |s| then None else SearchFrom(s, p, k + 1)
  }

  /** The search stops at the first position where the greedy matcher succeeds. */
  lemma {:induction false} SearchFromFirst(s: string, p: seq<Atom>, k: nat)
    requires k <= |s|
    ensures var r := SearchFrom(s, p, k);
      (r.Some? ==> MatchPrefix(s[r.value.start..], p) == Some(r.value.end - r.value.start)) &&
      (r.Some? ==> forall j :: k <= j < r.value.start ==> MatchPrefix(s[j..], p).None?) &&
      (r.None? ==> forall j :: k <= j <= |s| ==> MatchPrefix(s[j..], p).None?)
    decreases |s| - k
  {
    var here := MatchPrefix(s[k..], p);
    if here.Some? {
      assert SearchFrom(s, p, k) == Some(Span(k, k + here.value));
    } else if k < |s| {
      SearchFromFirst(s, p, k + 1);
      assert SearchFrom(s, p, k) == SearchFrom(s, p, k + 1);
    } else {
      assert SearchFrom(s, p, k) == None;
    }
  }

  /** `re.search(r'(\d\s*-\s*\d\s*-\s*\d)', s)` */
  function FindFrequency(s: string): Option<Span>
  {
    SearchFrom(s, FrequencyPattern, 0)
  }

  /** No match of `p` starts at position `k` of `s`. */
  ghost predicate NoMatchAt(s: string, p: seq<Atom>, k: nat)
  {
    forall e :: k <= e <= |s| ==> !Matches(s[k..e], p)
  }

  /** Where the greedy matcher fails, no match starts. */
  lemma GreedyFailure(s: string, p: seq<Atom>, k: nat)
    requires WellFormed(p)
    requires k <= |s| && MatchPrefix(s[k..], p).None?
    ensures NoMatchAt(s, p, k)
  {
    forall e | k <= e <= |s| ensures !Matches(s[k..e], p) {
      assert s[k..][..e - k] == s[k..e];
      if Matches(s[k..e], p) {
        MatchPrefixComplete(s[k..], p, e - k);
      }
    }
  }

  /** A greedy match at `m.start` with greedy failures before it is a leftmost match. */
  lemma GreedyLeftmost(s: string, p: seq<Atom>, m: Span)
    requires WellFormed(p)
    requires m.start <= m.end <= |s|
    requires MatchPrefix(s[m.start..], p) == Some(m.end - m.start)
    requires forall j :: 0 <= j < m.start ==> MatchPrefix(s[j..], p).None?
    ensures Matches(s[m.start..m.end], p)
    ensures forall k :: 0 <= k < m.start ==> NoMatchAt(s, p, k)
  {
    MatchPrefixSound(s[m.start..], p);
    assert s[m.start..][..m.end - m.start] == s[m.start..m.end];
    forall k | 0 <= k < m.start ensures NoMatchAt(s, p, k) {
      GreedyFailure(s, p, k);
    }
  }

  /** A reported match is a match, and no match starts further left. */
  lemma SearchFound(s: string, p: seq<Atom>)
    requires WellFormed(p)
    requires SearchFrom(s, p, 0).Some?
    ensures var m := SearchFrom(s, p, 0).value;
      m.start <= m.end <= |s| && Matches(s[m.start..m.end], p) &&
      forall k :: 0 <= k < m.start ==> NoMatchAt(s, p, k)
  {
    SearchFromFirst(s, p, 0);
    GreedyLeftmost(s, p, SearchFrom(s, p, 0).value);
  }

  /** The search reports nothing exactly when no part of the text matches. */
  lemma SearchNone(s: string, p: seq<Atom>)
    requires WellFormed(p)
    ensures SearchFrom(s, p, 0).None? <==> forall k :: 0 <= k <= |s| ==> NoMatchAt(s, p, k)
  {
    var r := SearchFrom(s, p, 0);
    SearchFromFirst(s, p, 0);
    if r.Some? {
      SearchFound(s, p);
      assert !NoMatchAt(s, p, r.value.start);
    } else {
      forall k | 0 <= k <= |s| ensures NoMatchAt(s, p, k) {
        GreedyFailure(s, p, k);
      }
    }
  }

  /**
   * The search reports a match of the pattern with no match starting
   * further left, and reports nothing only when no part of the text matches.
   */
  lemma SearchCorrect(s: string, p: seq<Atom>)
    requires WellFormed(p)
    ensures SearchFrom(s, p, 0).Some? ==>
      var m := SearchFrom(s, p, 0).value;
      m.start <= m.end <= |s| && Matches(s[m.start..m.end], p) &&
      forall k :: 0 <= k < m.start ==> NoMatchAt(s, p, k)
    ensures SearchFrom(s, p, 0).None? <==> forall k :: 0 <= k <= |s| ==> NoMatchAt(s, p, k)
  {
    if SearchFrom(s, p, 0).Some? {
      SearchFound(s, p);
    }
    SearchNone(s, p);
  }

  /**
   * `FindFrequency` is the regular-expression search `re.search` for
   * `\d\s*-\s*\d\s*-\s*\d`: its result is a leftmost match, and there is
   * none exactly when no part of the text matches.
   */
  lemma FindFrequencyCorrect(s: string)
    ensures FindFrequency(s).Some? ==>
      var m := FindFrequency(s).value;
      m.start <= m.end <= |s| && Matches(s[m.start..m.end], FrequencyPattern) &&
      forall k :: 0 <= k < m.start ==> NoMatchAt(s, FrequencyPattern, k)
    ensures FindFrequency(s).None? <==> forall k :: 0 <= k <= |s| ==> NoMatchAt(s, FrequencyPattern, k)
  {
    assert WellFormed(FrequencyPattern);
    SearchCorrect(s, FrequencyPattern);
  }

  /** A frequency found in `s` is a match of the frequency pattern. */
  lemma FindFrequencySound(s: string)
    ensures FindFrequency(s).Some? ==>
      var m := FindFrequency(s).value;
      m.start <= m.end <= |s| && Matches(s[m.start..m.end], FrequencyPattern)
  {
    if FindFrequency(s).Some? {
      assert WellFormed(FrequencyPattern);
      SearchFound(s, FrequencyPattern);
    }
  }

  /**
   * With only plain spaces as whitespace, removing the spaces from a
   * frequency match leaves the canonical form `D-D-D`.
   */
  lemma {:induction false} MatchesWithoutSpaces(t: string, p: seq<Atom>)
    requires Matches(t, p)
    requires forall k :: 0 <= k < |t| && IsSpace(t[k]) ==> t[k] == ' '
    ensures Matches(RemoveChar(t, ' '), DropSpaces(p))
    decreases |p|, |t|
  {
    if p != [] {
      match p[0]
      case Digit =>
        MatchesWithoutSpaces(t[1..], p[1..]);
        assert RemoveChar(t, ' ')[1..] == RemoveChar(t[1..], ' ');
      case Dash =>
        MatchesWithoutSpaces(t[1..], p[1..]);
        assert RemoveChar(t, ' ')[1..] == RemoveChar(t[1..], ' ');
      case Spaces =>
        assert DropSpaces(p) == DropSpaces(p[1..]);
        if Matches(t, p[1..]) {
          MatchesWithoutSpaces(t, p[1..]);
        } else {
          MatchesWithoutSpaces(t[1..], p);
          assert RemoveChar(t, ' ') == RemoveChar(t[1..], ' ');
        }
    }
  }

  /** Removing plain spaces from a match leaves a match: a run of spaces may be shorter. */
  lemma {:induction false} MatchesRemoveSpaces(t: string, p: seq<Atom>)
    ensures Matches(t, p) ==> Matches(RemoveChar(t, ' '), p)
    decreases |p|, |t|
  {
    if p != [] && Matches(t, p) {
      match p[0]
      case Digit =>
        MatchesRemoveSpaces(t[1..], p[1..]);
        assert RemoveChar(t, ' ')[1..] == RemoveChar(t[1..], ' ');
      case Dash =>
        MatchesRemoveSpaces(t[1..], p[1..]);
        assert RemoveChar(t, ' ')[1..] == RemoveChar(t[1..], ' ');
      case Spaces =>
        if Matches(t, p[1..]) {
          MatchesRemoveSpaces(t, p[1..]);
        } else {
          MatchesRemoveSpaces(t[1..], p);
          if t[0] == ' ' {
            assert RemoveChar(t, ' ') == RemoveChar(t[1..], ' ');
          } else {
            assert RemoveChar(t, ' ')[1..] == RemoveChar(t[1..], ' ');
          }
        }
    }
  }

  function DropSpaces(p: seq<Atom>): seq<Atom>
  {
    if p == [] then [] else (if p[0] == Spaces then [] else [p[0]]) + DropSpaces(p[1..])
  }

  lemma CanonicalFrequency(t: string)
    requires Matches(t, FrequencyPattern)
    requires forall k :: 0 <= k < |t| && IsSpace(t[k]) ==> t[k] == ' '
    ensures var f := ReplaceAll(t, " ", "");
      |f| == 5 && IsDigit(f[0]) && f[1] == '-' && IsDigit(f[2]) && f[3] == '-' && IsDigit(f[4]) &&
      [f[0], f[2], f[4]] == DigitsOf(t)
  {
    MatchesWithoutSpaces(t, FrequencyPattern);
    ReplaceCharIsRemove(t, ' ');
    assert DropSpaces(FrequencyPattern) == [Digit, Dash, Digit, Dash, Digit];
    var f := RemoveChar(t, ' ');
    var p5: seq<Atom> := [Digit, Dash, Digit, Dash, Digit];
    assert Matches(f, p5);
    assert Matches(f[1..], p5[1..]);
    assert Matches(f[2..], p5[2..]) by { assert f[1..][1..] == f[2..]; assert p5[1..][1..] == p5[2..]; }
    assert Matches(f[3..], p5[3..]) by { assert f[2..][1..] == f[3..]; assert p5[2..][1..] == p5[3..]; }
    assert Matches(f[4..], p5[4..]) by { assert f[3..][1..] == f[4..]; assert p5[3..][1..] == p5[4..]; }
    assert Matches(f[5..], []) by { assert f[4..][1..] == f[5..]; assert p5[4..][1..] == []; }
    RemoveCharKeepsDigits(t, ' ');
    DigitsOfFrequency(f);
  }

  /** The digits of a canonical frequency `d-d-d` are its three digits. */
  lemma DigitsOfFrequency(f: string)
    requires |f| == 5 && IsDigit(f[0]) && f[1] == '-' && IsDigit(f[2]) && f[3] == '-' && IsDigit(f[4])
    ensures DigitsOf(f) == [f[0], f[2], f[4]]
  {
    assert DigitsOf(f[4..]) == [f[4]] by { assert f[4..][1..] == []; }
    assert DigitsOf(f[3..]) == [f[4]] by { assert f[3..][1..] == f[4..]; }
    assert DigitsOf(f[2..]) == [f[2], f[4]] by { assert f[2..][1..] == f[3..]; }
    assert DigitsOf(f[1..]) == [f[2], f[4]] by { assert f[1..][1..] == f[2..]; }
  }

  /** `2 - 1 - 1` is written `2-1-1`. */
  lemma CanonicalFrequencyExample()
    ensures ReplaceAll("2 - 1 - 1", " ", "") == "2-1-1"
  {
    ReplaceCharIsRemove("2 - 1 - 1", ' ');
  }

  // ---------------------------------------------------------------------------
  // Dosage: `\d+\s*(mg|g|ml|mcg|tab|cap|my|moy|0og)?`, case-insensitive
  // ---------------------------------------------------------------------------

  /** The alternatives of the unit group, in the order the expression tries them. */
  const Units: seq<string> := ["mg", "g", "ml", "mcg", "tab", "cap", "my", "moy", "0og"]

  /** `s` begins with the lower-case text `u` when case is ignored. */
  predicate StartsWithNoCase(s: string, u: string)
  {
    |u| <= |s| && Lower(s[..|u|]) == u
  }

  /** The first unit alternative at or after `i` that begins `s`, or `|Units|` when none does. */
  function FirstUnitFrom(s: string, i: nat): (u: nat)
    requires i <= |Units|
    ensures i <= u <= |Units|
    ensures u < |Units| ==> StartsWithNoCase(s, Units[u])
    ensures forall v :: i <= v < u ==> !StartsWithNoCase(s, Units[v])
    decreases |Units| - i
  {
    if i == |Units| || StartsWithNoCase(s, Units[i]) then i else FirstUnitFrom(s, i + 1)
  }

  /**
   * The optional unit group takes `n` characters of `t`: the first
   * alternative that begins `t`, or nothing when none does.
   */
  ghost predicate UnitChoice(t: string, n: nat)
  {
    (n == 0 && forall u :: 0 <= u < |Units| ==> !StartsWithNoCase(t, Units[u])) ||
    (exists u :: 0 <= u < |Units| && n == |Units[u]| && StartsWithNoCase(t, Units[u]) &&
       forall v :: 0 <= v < u ==> !StartsWithNoCase(t, Units[v]))
  }

  /** A dosage match `s[start..end]`: digits, then whitespace, then the unit. */
  datatype DosageMatch = DosageMatch(start: nat, digitsEnd: nat, unitStart: nat, end: nat)

  /**
   * `re.search(r'(\d+)\s*(mg|g|ml|mcg|tab|cap|my|moy|0og)?', s, re.IGNORECASE)`:
   * the match starts at the first digit, takes the whole run of digits and
   * the whole run of whitespace after it, and then the first unit
   * alternative that follows, if any.
   */
  function FindDosage(s: string): (r: Option<DosageMatch>)
    ensures r.Some? ==>
      r.value.start < r.value.digitsEnd <= r.value.unitStart <= r.value.end <= |s|
  {
    var k := SkipClass(s, 0, NonDigits);
    if k == |s| then None
    else
      var d := SkipClass(s, k, Digits);
      var w := SkipClass(s, d, Whitespace);
      var u := FirstUnitFrom(s[w..], 0);
      SkipClassSpec(s, 0, NonDigits);
      SkipClassSpec(s, k, Digits);
      Some(DosageMatch(k, d, w, if u < |Units| then w + |Units[u]| else w))
  }

  /**
   * The dosage search is the regular-expression search: there is a match
   * exactly when the text has a digit; it starts at the first digit, takes
   * the whole run of digits and the whole run of whitespace after it, and
   * then the first unit alternative that follows, if any.
   */
  lemma FindDosageSpec(s: string)
    ensures FindDosage(s).None? <==> forall k :: 0 <= k < |s| ==> !IsDigit(s[k])
    ensures FindDosage(s).Some? ==>
      var m := FindDosage(s).value;
      (forall k :: 0 <= k < m.start ==> !IsDigit(s[k])) &&
      (forall k :: m.start <= k < m.digitsEnd ==> IsDigit(s[k])) &&
      (m.digitsEnd == |s| || !IsDigit(s[m.digitsEnd])) &&
      (forall k :: m.digitsEnd <= k < m.unitStart ==> IsSpace(s[k])) &&
      (m.unitStart == |s| || !IsSpace(s[m.unitStart])) &&
      UnitChoice(s[m.unitStart..], m.end - m.unitStart)
  {
    var k := SkipClass(s, 0, NonDigits);
    SkipClassSpec(s, 0, NonDigits);
    if k < |s| {
      var d := SkipClass(s, k, Digits);
      SkipClassSpec(s, k, Digits);
      SkipClassSpec(s, d, Whitespace);
    }
  }

  /**
   * A text with no digit, then a run of digits, then a unit with no digit or
   * whitespace at its head: the match is the digits and the first unit
   * alternative that begins the unit text.
   */
  lemma FindDosageOfParts(p: string, d: string, u: string)
    requires forall k :: 0 <= k < |p| ==> !IsDigit(p[k])
    requires d != [] && forall k :: 0 <= k < |d| ==> IsDigit(d[k])
    requires u != [] && !IsDigit(u[0]) && !IsSpace(u[0])
    requires FirstUnitFrom(u, 0) < |Units|
    ensures FindDosage(p + d + u).Some?
    ensures FindDosage(p + d + u).value.start == |p|
    ensures FindDosage(p + d + u).value.digitsEnd == |p| + |d|
    ensures FindDosage(p + d + u).value.unitStart == |p| + |d|
    ensures FindDosage(p + d + u).value.end == |p| + |d| + |Units[FirstUnitFrom(u, 0)]|
  {
    var s := p + d + u;
    var w := |p| + |d|;
    PartsSkips(p, d, u);
    assert s[w..] == u;
    FindDosageFrom(s, |p|, w, w);
  }

  /** The three runs `FindDosage` skips over in a text made of a word, digits and a unit. */
  lemma PartsSkips(p: string, d: string, u: string)
    requires forall k :: 0 <= k < |p| ==> !IsDigit(p[k])
    requires d != [] && forall k :: 0 <= k < |d| ==> IsDigit(d[k])
    requires u != [] && !IsDigit(u[0]) && !IsSpace(u[0])
    ensures SkipClass(p + d + u, 0, NonDigits) == |p|
    ensures SkipClass(p + d + u, |p|, Digits) == |p| + |d|
    ensures SkipClass(p + d + u, |p| + |d|, Whitespace) == |p| + |d|
  {
    var s := p + d + u;
    var w := |p| + |d|;
    assert SkipClass(s, 0, NonDigits) == |p| by {
      assert forall k :: 0 <= k < |p| ==> s[k] == p[k];
      assert s[|p|] == d[0];
      SkipClassTo(s, 0, |p|, NonDigits);
    }
    assert SkipClass(s, |p|, Digits) == w by {
      assert forall k :: |p| <= k < w ==> s[k] == d[k - |p|];
      assert s[w] == u[0];
      SkipClassTo(s, |p|, w, Digits);
    }
    assert s[w] == u[0];
    SkipClassTo(s, w, w, Whitespace);
  }

  /** The match `FindDosage` reports once its three skips are known. */
  lemma FindDosageFrom(s: string, k: nat, d: nat, w: nat)
    requires k < |s| && SkipClass(s, 0, NonDigits) == k
    requires d <= |s| && SkipClass(s, k, Digits) == d
    requires w <= |s| && SkipClass(s, d, Whitespace) == w
    requires FirstUnitFrom(s[w..], 0) < |Units|
    ensures FindDosage(s).Some?
    ensures FindDosage(s).value.start == k
    ensures FindDosage(s).value.digitsEnd == d
    ensures FindDosage(s).value.unitStart == w
    ensures FindDosage(s).value.end == w + |Units[FirstUnitFrom(s[w..], 0)]|
  {
  }

  /**
   * The misread `0og` can only be matched after some whitespace: directly
   * after the digits its `0` would already belong to the run of digits.
   */
  lemma ZeroOgNeedsSpace(s: string)
    requires FindDosage(s).Some?
    requires var m := FindDosage(s).value; Lower(s[m.unitStart..m.end]) == "0og"
    ensures FindDosage(s).value.unitStart > FindDosage(s).value.digitsEnd
  {
    var m := FindDosage(s).value;
    FindDosageSpec(s);
    LowerChars(s[m.unitStart..m.end]);
    assert LowerChar(s[m.unitStart]) == Lower(s[m.unitStart..m.end])[0];
  }

  /**
   * The normalisation of a matched dosage: lower-cased, then the misreads
   * `0og`, `moy` and `my` each replaced by `mg`, in that order.
   */
  function NormalizeDosage(text: string): (r: string)
    ensures r == [] <==> text == []
  {
    var a := ReplaceAll(Lower(text), "0og", "mg");
    var b := ReplaceAll(a, "moy", "mg");
    ReplaceEmpty(Lower(text), "0og", "mg");
    ReplaceEmpty(a, "moy", "mg");
    ReplaceEmpty(b, "my", "mg");
    ReplaceAll(b, "my", "mg")
  }

  /** A normalised dosage has no upper-case letter. */
  lemma NormalizeDosageLower(text: string)
    ensures forall k :: 0 <= k < |NormalizeDosage(text)| ==> !IsUpperLetter(NormalizeDosage(text)[k])
  {
    var a := ReplaceAll(Lower(text), "0og", "mg");
    var b := ReplaceAll(a, "moy", "mg");
    LowerChars(text);
    ReplaceChars(Lower(text), "0og", "mg");
    ReplaceChars(a, "moy", "mg");
    ReplaceChars(b, "my", "mg");
    assert forall c :: c in Lower(text) ==> !IsUpperLetter(c);
    assert forall c :: c in NormalizeDosage(text) ==> !IsUpperLetter(c);
  }

  /** What the normalisation makes of a lower-cased unit: the misreads `my`, `moy` and `0og` become `mg`. */
  function NormalizedUnit(u: string): string
  {
    if u == "my" || u == "moy" || u == "0og" then "mg" else u
  }

  /** The three replacements, applied to a unit alternative alone, give its normalised unit. */
  lemma UnitReplacements(u: string)
    requires u == "" || u in Units
    ensures ReplaceAll(ReplaceAll(ReplaceAll(u, "0og", "mg"), "moy", "mg"), "my", "mg") == NormalizedUnit(u)
  {
    if u == "moy" {
      assert ReplaceAll(u, "0og", "mg") == "moy";
      assert ReplaceAll("moy", "moy", "mg") == "mg";
      assert ReplaceAll("mg", "my", "mg") == "mg";
    } else if u == "my" {
      assert ReplaceAll(u, "0og", "mg") == "my";
      assert ReplaceAll("my", "moy", "mg") == "my";
      assert ReplaceAll("my", "my", "mg") == "mg";
    } else if u == "0og" {
      assert ReplaceAll(u, "0og", "mg") == "mg";
      assert ReplaceAll("mg", "moy", "mg") == "mg";
      assert ReplaceAll("mg", "my", "mg") == "mg";
    } else if u == "" {
    } else {
      ReplaceMissing(u, "0og", "mg", '0');
      ReplaceMissing(u, "moy", "mg", 'o');
      ReplaceMissing(u, "my", "mg", 'y');
    }
  }

  /** A number with its whitespace: only digits and whitespace. */
  predicate IsNumberText(p: string)
  {
    forall k :: 0 <= k < |p| ==> IsDigit(p[k]) || IsSpace(p[k])
  }

  /** A pattern that starts with a letter is never found inside a number. */
  lemma ReplaceSkipsNumber(p: string, v: string, pat: string, rep: string)
    requires IsNumberText(p) && |pat| > 0 && IsAsciiLetter(pat[0])
    ensures ReplaceAll(p + v, pat, rep) == p + ReplaceAll(v, pat, rep)
  {
    forall k | 0 <= k < |p| ensures !(pat <= (p + v)[k..]) {
      assert (p + v)[k..][0] == p[k];
    }
    ReplaceAfterPrefix(p, v, pat, rep);
  }

  /** `0og` is never found inside a number followed by a unit alternative, none of which starts with `o`. */
  lemma ReplaceZeroOgSkipsNumber(p: string, u: string)
    requires IsNumberText(p) && (u == "" || u in Units)
    ensures ReplaceAll(p + u, "0og", "mg") == p + ReplaceAll(u, "0og", "mg")
  {
    forall k | 0 <= k < |p| ensures !("0og" <= (p + u)[k..]) {
      if k + 1 < |p| {
        assert (p + u)[k..][1] == p[k + 1];
      } else if u != [] {
        assert (p + u)[k..][1] == u[0];
      }
    }
    ReplaceAfterPrefix(p, u, "0og", "mg");
  }

  /**
   * Digits and whitespace followed by a unit alternative (in any case): the
   * normalisation keeps the number and the whitespace and normalises the unit.
   */
  lemma NormalizeUnitText(p: string, unit: string)
    requires IsNumberText(p)
    requires Lower(unit) == "" || Lower(unit) in Units
    ensures NormalizeDosage(p + unit) == p + NormalizedUnit(Lower(unit))
  {
    var u := Lower(unit);
    LowerConcat(p, unit);
    LowerUnchanged(p);
    ReplaceZeroOgSkipsNumber(p, u);
    var a := ReplaceAll(u, "0og", "mg");
    ReplaceSkipsNumber(p, a, "moy", "mg");
    var b := ReplaceAll(a, "moy", "mg");
    ReplaceSkipsNumber(p, b, "my", "mg");
    UnitReplacements(u);
  }

  /**
   * The normalised dosage of a match is its number and whitespace followed by
   * the normalised unit: a matched `my`, `moy` or `0og`, in any case, comes
   * out as `mg`, and every other unit in lower case.
   */
  lemma NormalizeMatchedDosage(s: string)
    requires FindDosage(s).Some?
    ensures var m := FindDosage(s).value;
      NormalizeDosage(s[m.start..m.end]) == s[m.start..m.unitStart] + NormalizedUnit(Lower(s[m.unitStart..m.end]))
  {
    var m := FindDosage(s).value;
    MatchedNumber(s);
    MatchedUnit(s);
    assert s[m.start..m.end] == s[m.start..m.unitStart] + s[m.unitStart..m.end];
    NormalizeUnitText(s[m.start..m.unitStart], s[m.unitStart..m.end]);
  }

  /** A dosage match begins with digits and whitespace only. */
  lemma MatchedNumber(s: string)
    requires FindDosage(s).Some?
    ensures var m := FindDosage(s).value; IsNumberText(s[m.start..m.unitStart])
  {
    var m := FindDosage(s).value;
    FindDosageSpec(s);
    var p := s[m.start..m.unitStart];
    forall k | 0 <= k < |p| ensures IsDigit(p[k]) || IsSpace(p[k]) {
      assert p[k] == s[m.start + k];
    }
  }

  /** The unit part of a dosage match is empty or, lower-cased, one of the alternatives. */
  lemma MatchedUnit(s: string)
    requires FindDosage(s).Some?
    ensures var m := FindDosage(s).value;
      var u := Lower(s[m.unitStart..m.end]); u == "" || u in Units
  {
    var m := FindDosage(s).value;
    FindDosageSpec(s);
    var t := s[m.unitStart..];
    if m.end - m.unitStart != 0 {
      var u :| 0 <= u < |Units| && m.end - m.unitStart == |Units[u]| && StartsWithNoCase(t, Units[u]);
      assert t[..|Units[u]|] == s[m.unitStart..m.end];
    }
  }

  /** The misread `500moy` is normalised to `500mg`. */
  lemma NormalizeDosageExample()
    ensures NormalizeDosage("500moy") == "500mg"
  {
    assert "500moy" == "500" + "moy";
    assert Lower("moy") == "moy";
    NormalizeUnitText("500", "moy");
    assert "500" + "mg" == "500mg";
  }

  // ---------------------------------------------------------------------------
  // Dosage-form prefix: `^(Tab|Cap|T\s|C\s|Rx)\s*`, case-insensitive
  // ---------------------------------------------------------------------------

  /** The length of the alternative of `(Tab|Cap|T\s|C\s|Rx)` that begins `s`, or 0. */
  function FormPrefixLength(s: string): (n: nat)
    ensures n <= |s|
    ensures n in {0, 2, 3}
    ensures n == 3 <==> StartsWithNoCase(s, "tab") || StartsWithNoCase(s, "cap")
    ensures n == 0 <==>
      !StartsWithNoCase(s, "tab") && !StartsWithNoCase(s, "cap") && !StartsWithNoCase(s, "rx") &&
      !(|s| >= 2 && LowerChar(s[0]) in {'t', 'c'} && IsSpace(s[1]))
  {
    if StartsWithNoCase(s, "tab") || StartsWithNoCase(s, "cap") then 3
    else if |s| >= 2 && LowerChar(s[0]) in {'t', 'c'} && IsSpace(s[1]) then 2
    else if StartsWithNoCase(s, "rx") then 2
    else 0
  }

  /**
   * `re.sub(r'^(Tab|Cap|T\s|C\s|Rx)\s*', '', s, flags=re.IGNORECASE)`: the
   * pattern is anchored, so at most one prefix is removed, together with
   * the whitespace after it.
   */
  function StripFormPrefix(s: string): (r: string)
    ensures |r| <= |s|
    ensures FormPrefixLength(s) == 0 ==> r == s
  {
    var n := FormPrefixLength(s);
    if n == 0 then s else s[SkipClass(s, n, Whitespace)..]
  }

  /** A removed prefix takes all the whitespace after the alternative with it. */
  lemma StripFormPrefixSpec(s: string)
    requires FormPrefixLength(s) > 0
    ensures var r := StripFormPrefix(s);
      |r| <= |s| - FormPrefixLength(s) && r == s[|s| - |r|..] && (r == [] || !IsSpace(r[0])) &&
      forall k :: FormPrefixLength(s) <= k < |s| - |r| ==> IsSpace(s[k])
  {
    SkipClassSpec(s, FormPrefixLength(s), Whitespace);
  }

  // ---------------------------------------------------------------------------
  // Letter filter: `re.sub(r'[^a-zA-Z\s]', '', s)`
  // ---------------------------------------------------------------------------

  /** Removes every character that is neither an ASCII letter nor whitespace. */
  function KeepLettersAndSpaces(s: string): (r: string)
    ensures |r| <= |s|
  {
    if s == [] then []
    else (if IsAsciiLetter(s[0]) || IsSpace(s[0]) then [s[0]] else []) + KeepLettersAndSpaces(s[1..])
  }

  /** The filter keeps exactly the letters and the whitespace, and leaves such a text alone. */
  lemma {:induction false} KeepLettersAndSpacesSpec(s: string)
    ensures forall c :: c in KeepLettersAndSpaces(s) <==> c in s && (IsAsciiLetter(c) || IsSpace(c))
    ensures (forall k :: 0 <= k < |s| ==> IsAsciiLetter(s[k]) || IsSpace(s[k])) ==> KeepLettersAndSpaces(s) == s
    decreases |s|
  {
    if s != [] {
      KeepLettersAndSpacesSpec(s[1..]);
      assert s == [s[0]] + s[1..];
      if forall k :: 0 <= k < |s| ==> IsAsciiLetter(s[k]) || IsSpace(s[k]) {
        assert forall k :: 0 <= k < |s[1..]| ==> s[1..][k] == s[k + 1];
      }
    }
  }

  /** The filter works character by character: filtering a concatenation concatenates the filtered parts, in order. */
  lemma {:induction false} KeepConcat(a: string, b: string)
    ensures KeepLettersAndSpaces(a + b) == KeepLettersAndSpaces(a) + KeepLettersAndSpaces(b)
    decreases |a|
  {
    if a == [] {
      assert a + b == b;
    } else {
      var h := if IsAsciiLetter(a[0]) || IsSpace(a[0]) then [a[0]] else [];
      assert (a + b)[1..] == a[1..] + b;
      assert KeepLettersAndSpaces(a + b) == h + KeepLettersAndSpaces(a[1..] + b);
      assert KeepLettersAndSpaces(a) == h + KeepLettersAndSpaces(a[1..]);
      KeepConcat(a[1..], b);
    }
  }

}
