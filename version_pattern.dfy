/**
 * The Python tag normaliser of src/version.rs.
 *
 * `VERSION_PATTERN` is the regular expression
 *     v?(?<major>\d+)\.(?<minor>\d+)(?:\.(?<patch>\d+))?(?:(?<pre>a|b|c|rc)(?<preid>\d+))?
 * searched, unanchored, with leftmost-first semantics. Here it becomes a
 * hand-written scanner over ASCII digits (`MatchAt`, `Scan`, `Capture`). Beside it
 * is a declarative description of a leftmost greedy match (`IsMatch`, `Greedy`,
 * `IsLeftmostGreedyMatch`). `CaptureIsLeftmostGreedyMatch` proves that the two
 * agree in both directions.
 */
module VersionPattern {
  import opened Wrappers

  /** `[0-9]`: only ASCII digits are modelled. */
  predicate IsDigit(c: char) { '0' <= c <= '9' }

  predicate AllDigits(t: string) { forall k :: 0 <= k < |t| ==> IsDigit(t[k]) }

  /** What `\d+` matches: a non-empty run of digits. */
  predicate IsNumber(t: string) { |t| > 0 && AllDigits(t) }

  /** The alternatives of the `pre` group. */
  predicate IsMarker(k: string) { k == "a" || k == "b" || k == "c" || k == "rc" }

  /** Position `k` of `s` holds no digit (or lies past the end). */
  predicate Terminated(s: string, k: nat) { k >= |s| || !IsDigit(s[k]) }

  /** A capture group's span `[lo, hi)` in the searched string. */
  datatype Span = Span(lo: nat, hi: nat)

  /** The text of a span, as `&caps[...]` gives it. */
  function Group(s: string, sp: Span): string
  {
    if sp.lo <= sp.hi <= |s| then s[sp.lo .. sp.hi] else ""
  }

  /** The named groups of one match, as spans, and where the match starts. */
  datatype Captures = Captures(start: nat, major: Span, minor: Span, patch: Option<Span>,
                               pre: Option<Span>, preid: Option<Span>)
  {
    /** Where the `pre` group would start: after the patch, or after the minor. */
    function AfterPatch(): nat { if patch.Some? then patch.value.hi else minor.hi }

    /** One past the last character of the match. */
    function End(): nat { if preid.Some? then preid.value.hi else AfterPatch() }
  }

  // ---------------------------------------------------------------------------
  // The scanner
  // ---------------------------------------------------------------------------

  /** Length of the longest run of digits starting at `i`: a greedy `\d+`. */
  function DigitRun(s: string, i: nat): (n: nat)
    requires i <= |s|
    ensures i + n <= |s|
    ensures Terminated(s, i + n)
    decreases |s| - i
  {
    if i < |s| && IsDigit(s[i]) then 1 + DigitRun(s, i + 1) else 0
  }

  /** Length of the alternation `a|b|c|rc` matched at `r`, tried in that order; 0 when none matches. */
  function MarkerLength(s: string, r: nat): (m: nat)
    requires r <= |s|
    ensures r + m <= |s|
  {
    if r < |s| && (s[r] == 'a' || s[r] == 'b' || s[r] == 'c') then 1
    else if r + 1 < |s| && s[r] == 'r' && s[r + 1] == 'c' then 2
    else 0
  }

  /** What `MarkerLength` finds is one of the alternatives. */
  lemma MarkerLengthMarker(s: string, r: nat)
    requires r <= |s| && MarkerLength(s, r) > 0
    ensures IsMarker(s[r .. r + MarkerLength(s, r)])
  {
    if MarkerLength(s, r) == 1 {
      assert s[r .. r + 1] == [s[r]];
    } else {
      assert s[r .. r + 2] == [s[r], s[r + 1]];
    }
  }

  /** The optional group `(?:\.(\d+))?` at `q`: present only when a digit follows the dot. */
  function PatchAt(s: string, q: nat): (r: Option<Span>)
    requires q <= |s|
    ensures r.Some? ==> r.value.lo == q + 1 <= r.value.hi <= |s|
  {
    if q < |s| && s[q] == '.' && DigitRun(s, q + 1) > 0 then Some(Span(q + 1, q + 1 + DigitRun(s, q + 1)))
    else None
  }

  /** The optional group `(?:(a|b|c|rc)(\d+))?` at `r`: the marker and id spans, present only when a digit follows the marker. */
  function PreAt(s: string, r: nat): (g: Option<(Span, Span)>)
    requires r <= |s|
    ensures g.Some? ==> g.value.0.lo == r && g.value.0.hi == g.value.1.lo <= g.value.1.hi <= |s|
  {
    var m := MarkerLength(s, r);
    if m > 0 && DigitRun(s, r + m) > 0 then Some((Span(r, r + m), Span(r + m, r + m + DigitRun(s, r + m))))
    else None
  }

  /** The optional groups after `minor`, each taken whenever it can match. */
  function Optionals(s: string, i: nat, major: Span, minor: Span): (c: Captures)
    requires minor.hi <= |s|
    ensures c.pre.Some? <==> c.preid.Some?
  {
    var patch := PatchAt(s, minor.hi);
    var r := if patch.Some? then patch.value.hi else minor.hi;
    var pre := PreAt(s, r);
    Captures(i, major, minor, patch,
             if pre.Some? then Some(pre.value.0) else None,
             if pre.Some? then Some(pre.value.1) else None)
  }

  /**
   * The preferred match starting exactly at `i`, if any. Everything after the
   * minor group is optional, so the leftmost-first choice is: every group as long
   * as possible, every optional group present exactly when it can match.
   */
  function MatchAt(s: string, i: nat): (r: Option<Captures>)
    requires i <= |s|
    ensures r.Some? ==> r.value.start == i && (r.value.pre.Some? <==> r.value.preid.Some?)
  {
    var d := if i < |s| && s[i] == 'v' then i + 1 else i;
    var nMajor := DigitRun(s, d);
    if nMajor == 0 || d + nMajor + 1 >= |s| || s[d + nMajor] != '.' then None
    else
      var p := d + nMajor + 1;
      var nMinor := DigitRun(s, p);
      if nMinor == 0 then None
      else Some(Optionals(s, i, Span(d, d + nMajor), Span(p, p + nMinor)))
  }

  /** The first match starting at or after `i`: the unanchored search. */
  function Scan(s: string, i: nat): (r: Option<Captures>)
    requires i <= |s|
    ensures r.Some? ==> i <= r.value.start <= |s| && MatchAt(s, r.value.start) == r
    ensures r.Some? ==> forall j :: i <= j < r.value.start ==> MatchAt(s, j).None?
    ensures r.None? ==> forall j :: i <= j <= |s| ==> MatchAt(s, j).None?
    decreases |s| - i
  {
    match MatchAt(s, i)
    case Some(c) => Some(c)
    case None => if i == |s| then None else Scan(s, i + 1)
  }

  /** `VERSION_PATTERN.captures(&version)`. */
  function Capture(s: string): (r: Option<Captures>)
    ensures r.Some? ==> (r.value.pre.Some? <==> r.value.preid.Some?)
  {
    Scan(s, 0)
  }

  // ---------------------------------------------------------------------------
  // The result string
  // ---------------------------------------------------------------------------

  datatype Prerelease = Prerelease(kind: string, id: string)

  /** A normalised version: three digit groups and an optional prerelease. */
  datatype Version = Version(major: string, minor: string, patch: string, pre: Option<Prerelease>)
  {
    predicate Valid()
    {
      && IsNumber(major) && IsNumber(minor) && IsNumber(patch)
      && (pre.Some? ==> IsMarker(pre.value.kind) && IsNumber(pre.value.id))
    }

    function BaseText(): string { major + "." + minor + "." + patch }

    /** `MAJOR.MINOR.PATCH`, followed by `-PRE.PREID` when there is a prerelease. */
    function Render(): string
    {
      BaseText() + match pre case None => "" case Some(p) => "-" + p.kind + "." + p.id
    }

    /** The same version without its prerelease. */
    function Base(): Version { this.(pre := None) }
  }

  /** The fields `from_python_version` formats; the patch defaults to "0". */
  function Canonical(s: string, caps: Captures): Version
    requires caps.pre.Some? <==> caps.preid.Some?
  {
    Version(Group(s, caps.major), Group(s, caps.minor),
            if caps.patch.Some? then Group(s, caps.patch.value) else "0",
            if caps.pre.Some? then Some(Prerelease(Group(s, caps.pre.value), Group(s, caps.preid.value))) else None)
  }

  /** `from_python_version` (src/version.rs:11-29). */
  function FromPythonVersion(version: string): Option<string>
  {
    match Capture(version)
    case None => None
    case Some(caps) => Some(Canonical(version, caps).Render())
  }

  // ---------------------------------------------------------------------------
  // The declarative reference: what a leftmost greedy match is
  // ---------------------------------------------------------------------------

  /** `sp` is a non-empty span of `s` holding only digits. */
  ghost predicate NumberAt(s: string, sp: Span)
  {
    sp.lo < sp.hi <= |s| && forall k :: sp.lo <= k < sp.hi ==> IsDigit(s[k])
  }

  /**
   * `c` is a match of the pattern in `s`: an optional `v` at `start`, the major
   * digits, a `.`, the minor digits, optionally `.` and the patch digits, and
   * optionally a marker directly followed by its id digits.
   */
  ghost predicate IsMatch(s: string, c: Captures)
  {
    HeadMatch(s, c) && TailMatch(s, c)
  }

  /** The mandatory part `v?(\d+)\.(\d+)`. */
  ghost predicate HeadMatch(s: string, c: Captures)
  {
    && c.start <= c.major.lo <= c.start + 1
    && NumberAt(s, c.major)
    && (c.major.lo == c.start + 1 ==> s[c.start] == 'v')
    && c.major.hi < |s| && s[c.major.hi] == '.'
    && c.minor.lo == c.major.hi + 1 && NumberAt(s, c.minor)
  }

  /** The optional parts `(?:\.(\d+))?(?:(a|b|c|rc)(\d+))?`, placed after the minor group. */
  ghost predicate TailMatch(s: string, c: Captures)
  {
    && (c.patch.Some? ==>
          c.minor.hi < |s| && s[c.minor.hi] == '.' && c.patch.value.lo == c.minor.hi + 1 && NumberAt(s, c.patch.value))
    && (c.pre.Some? <==> c.preid.Some?)
    && (c.pre.Some? ==>
          && c.pre.value.lo == c.AfterPatch() && c.pre.value.lo < c.pre.value.hi <= |s|
          && IsMarker(s[c.pre.value.lo .. c.pre.value.hi])
          && c.preid.value.lo == c.pre.value.hi && NumberAt(s, c.preid.value))
  }

  /** `.` followed by a digit at `q`: the optional patch group could match there. */
  predicate PatchFollows(s: string, q: nat)
  {
    q + 1 < |s| && s[q] == '.' && IsDigit(s[q + 1])
  }

  /** A prerelease marker followed by a digit at `r`: the optional pre group could match there. */
  predicate PreFollows(s: string, r: nat)
  {
    || (r + 1 < |s| && (s[r] == 'a' || s[r] == 'b' || s[r] == 'c') && IsDigit(s[r + 1]))
    || (r + 2 < |s| && s[r] == 'r' && s[r + 1] == 'c' && IsDigit(s[r + 2]))
  }

  /** The match cannot be extended: its last digit group is maximal and no optional group was skipped. */
  ghost predicate Greedy(s: string, c: Captures)
  {
    && Terminated(s, c.End())
    && (c.patch.None? ==> !PatchFollows(s, c.minor.hi))
    && (c.pre.None? ==> !PreFollows(s, c.AfterPatch()))
  }

  /** `c` is the match the unanchored leftmost-first search returns. */
  ghost predicate IsLeftmostGreedyMatch(s: string, c: Captures)
  {
    && IsMatch(s, c)
    && Greedy(s, c)
    && forall c' :: IsMatch(s, c') ==> c.start <= c'.start
  }

  /** `s[i..k]` is digits, a `.` at `j`, and digits: the mandatory part of the pattern. */
  ghost predicate CoreSpan(s: string, i: int, j: int, k: int)
  {
    && 0 <= i < j && j + 1 < k <= |s|
    && (forall x :: i <= x < j ==> IsDigit(s[x]))
    && s[j] == '.'
    && (forall x :: j < x < k ==> IsDigit(s[x]))
  }

  /** `t` has the shape `D.D.D` or `D.D.D-P.D`. */
  ghost predicate IsVersionString(t: string)
  {
    exists v: Version :: v.Valid() && v.Render() == t
  }

  // ---------------------------------------------------------------------------
  // Lemmas: scanner against reference
  // ---------------------------------------------------------------------------

  /** The run found by `DigitRun` is all digits. */
  lemma {:induction false} DigitRunDigits(s: string, i: nat)
    requires i <= |s|
    ensures forall k :: i <= k < i + DigitRun(s, i) ==> IsDigit(s[k])
    decreases |s| - i
  {
    if i < |s| && IsDigit(s[i]) {
      DigitRunDigits(s, i + 1);
    }
  }

  lemma {:induction false} DigitRunExact(s: string, i: nat, n: nat)
    requires i + n <= |s|
    requires forall k :: i <= k < i + n ==> IsDigit(s[k])
    requires Terminated(s, i + n)
    ensures DigitRun(s, i) == n
    decreases n
  {
    if n > 0 {
      DigitRunExact(s, i + 1, n - 1);
    }
  }

  /** A marker span is what `MarkerLength` finds, and it starts with a letter. */
  lemma MarkerSpan(s: string, lo: nat, hi: nat)
    requires lo < hi <= |s| && IsMarker(s[lo .. hi])
    ensures MarkerLength(s, lo) == hi - lo
    ensures !IsDigit(s[lo]) && s[lo] != '.'
  {
    assert s[lo] == s[lo .. hi][0];
    if hi - lo == 2 {
      assert s[lo + 1] == s[lo .. hi][1];
    }
  }

  /** `PreFollows` is the condition under which the scanner takes the pre group. */
  lemma PreFollowsIff(s: string, r: nat)
    requires r <= |s|
    ensures PreFollows(s, r) <==> (MarkerLength(s, r) > 0 && DigitRun(s, r + MarkerLength(s, r)) > 0)
  {
  }

  /** Whatever the scanner returns is a greedy match. */
  lemma MatchAtSound(s: string, i: nat)
    requires i <= |s| && MatchAt(s, i).Some?
    ensures IsMatch(s, MatchAt(s, i).value) && Greedy(s, MatchAt(s, i).value)
  {
    MatchAtIsMatch(s, i);
    MatchAtGreedy(s, i);
  }

  lemma MatchAtIsMatch(s: string, i: nat)
    requires i <= |s| && MatchAt(s, i).Some?
    ensures IsMatch(s, MatchAt(s, i).value)
  {
    MatchAtHead(s, i);
    MatchAtTail(s, i);
  }

  lemma MatchAtHead(s: string, i: nat)
    requires i <= |s| && MatchAt(s, i).Some?
    ensures HeadMatch(s, MatchAt(s, i).value)
  {
    var c := MatchAt(s, i).value;
    DigitRunDigits(s, c.major.lo);
    DigitRunDigits(s, c.minor.lo);
  }

  lemma MatchAtTail(s: string, i: nat)
    requires i <= |s| && MatchAt(s, i).Some?
    ensures TailMatch(s, MatchAt(s, i).value)
  {
    var c := MatchAt(s, i).value;
    if c.patch.Some? { DigitRunDigits(s, c.patch.value.lo); }
    if c.preid.Some? {
      DigitRunDigits(s, c.preid.value.lo);
      MarkerLengthMarker(s, c.AfterPatch());
    }
  }

  lemma MatchAtGreedy(s: string, i: nat)
    requires i <= |s| && MatchAt(s, i).Some?
    ensures Greedy(s, MatchAt(s, i).value)
  {
    var c := MatchAt(s, i).value;
    PreFollowsIff(s, c.AfterPatch());
  }

  /** Every match makes the scanner succeed at its start. */
  lemma MatchAtComplete(s: string, c: Captures)
    requires IsMatch(s, c)
    ensures MatchAt(s, c.start).Some?
  {
    DigitRunExact(s, c.major.lo, c.major.hi - c.major.lo);
  }

  /** A greedy match is exactly what the scanner returns at its start. */
  lemma MatchAtExact(s: string, c: Captures)
    requires IsMatch(s, c) && Greedy(s, c)
    ensures MatchAt(s, c.start) == Some(c)
  {
    var i := c.start;
    if c.major.lo == i {
      assert IsDigit(s[i]);
    }
    DigitRunExact(s, c.major.lo, c.major.hi - c.major.lo);
    if c.patch.None? && c.pre.Some? {
      MarkerSpan(s, c.pre.value.lo, c.pre.value.hi);
    }
    DigitRunExact(s, c.minor.lo, c.minor.hi - c.minor.lo);
    MatchAtOfSpans(s, i, c.major, c.minor);
    OptionalsExact(s, c);
  }

  /** Once the major and minor runs are known, the scanner's result is fixed by the optional groups. */
  lemma MatchAtOfSpans(s: string, i: nat, major: Span, minor: Span)
    requires i <= major.lo <= i + 1 && (major.lo == i + 1 <==> (i < |s| && s[i] == 'v'))
    requires major.lo < major.hi && major.hi + 1 < |s| && s[major.hi] == '.' && major.hi == major.lo + DigitRun(s, major.lo)
    requires minor.lo == major.hi + 1 && minor.lo < minor.hi == minor.lo + DigitRun(s, minor.lo)
    ensures MatchAt(s, i) == Some(Optionals(s, i, major, minor))
  {
  }

  lemma OptionalsExact(s: string, c: Captures)
    requires IsMatch(s, c) && Greedy(s, c)
    ensures Optionals(s, c.start, c.major, c.minor) == c
  {
    PatchAtExact(s, c);
    PreAtExact(s, c);
  }

  lemma PatchAtExact(s: string, c: Captures)
    requires IsMatch(s, c) && Greedy(s, c)
    ensures PatchAt(s, c.minor.hi) == c.patch
  {
    if c.patch.Some? {
      if c.pre.Some? {
        MarkerSpan(s, c.pre.value.lo, c.pre.value.hi);
      }
      DigitRunExact(s, c.patch.value.lo, c.patch.value.hi - c.patch.value.lo);
    }
  }

  lemma PreAtExact(s: string, c: Captures)
    requires IsMatch(s, c) && Greedy(s, c)
    ensures PreAt(s, c.AfterPatch()) == if c.pre.Some? then Some((c.pre.value, c.preid.value)) else None
  {
    if c.pre.Some? {
      MarkerSpan(s, c.pre.value.lo, c.pre.value.hi);
      DigitRunExact(s, c.preid.value.lo, c.preid.value.hi - c.preid.value.lo);
    } else {
      PreFollowsIff(s, c.AfterPatch());
    }
  }

  lemma CaptureIsLeftmost(s: string)
    requires Capture(s).Some?
    ensures IsLeftmostGreedyMatch(s, Capture(s).value)
  {
    var c := Capture(s).value;
    MatchAtSound(s, c.start);
    forall c' | IsMatch(s, c') ensures c.start <= c'.start {
      if c'.start < c.start {
        MatchAtComplete(s, c');
      }
    }
  }

  /** The scanner finds exactly the leftmost greedy match. */
  lemma CaptureIsLeftmostGreedyMatch(s: string, c: Captures)
    ensures Capture(s) == Some(c) <==> IsLeftmostGreedyMatch(s, c)
  {
    if Capture(s) == Some(c) {
      CaptureIsLeftmost(s);
    }
    if IsLeftmostGreedyMatch(s, c) {
      MatchAtComplete(s, c);
      CaptureIsLeftmost(s);
      MatchAtExact(s, c);
    }
  }

  /** The search fails exactly when the pattern matches nowhere. */
  lemma CaptureNoneIffNoMatch(s: string)
    ensures Capture(s).None? <==> forall c :: !IsMatch(s, c)
  {
    if Capture(s).None? {
      forall c | IsMatch(s, c) ensures false {
        MatchAtComplete(s, c);
      }
    } else {
      MatchAtSound(s, Capture(s).value.start);
    }
  }

  // ---------------------------------------------------------------------------
  // Lemmas: the normaliser
  // ---------------------------------------------------------------------------

  /** `None` exactly when no substring is digits, `.`, digits. */
  lemma FromPythonVersionNoneIff(tag: string)
    ensures FromPythonVersion(tag).None? <==> !exists i, j, k :: CoreSpan(tag, i, j, k)
  {
    if Capture(tag).Some? {
      var c := Capture(tag).value;
      MatchAtSound(tag, c.start);
      assert CoreSpan(tag, c.major.lo, c.major.hi, c.minor.hi);
    } else {
      forall i, j, k | CoreSpan(tag, i, j, k) ensures false {
        CoreSpanMatches(tag, i, j, k);
      }
    }
  }

  /** A tag without any digit has no version. */
  lemma NoDigitNoVersion(tag: string)
    requires forall x :: 0 <= x < |tag| ==> !IsDigit(tag[x])
    ensures FromPythonVersion(tag).None?
  {
    FromPythonVersionNoneIff(tag);
  }

  /** A digit, a dot and a digit are already a match. */
  lemma CoreSpanMatches(s: string, i: int, j: int, k: int)
    requires CoreSpan(s, i, j, k)
    ensures MatchAt(s, j - 1).Some?
  {
    assert IsDigit(s[j - 1]) && IsDigit(s[j + 1]);
    DigitRunExact(s, j - 1, 1);
    assert DigitRun(s, j + 1) > 0;
  }

  lemma NumberGroup(s: string, sp: Span)
    requires NumberAt(s, sp)
    ensures IsNumber(Group(s, sp))
  {
  }

  /** The groups of a match hold what their sub-patterns match. */
  lemma CanonicalValid(s: string, c: Captures)
    requires IsMatch(s, c)
    ensures Canonical(s, c).Valid()
  {
    NumberGroup(s, c.major);
    NumberGroup(s, c.minor);
    if c.patch.Some? { NumberGroup(s, c.patch.value); }
    if c.pre.Some? { NumberGroup(s, c.preid.value); }
  }

  /**
   * The result is formatted from the groups of the leftmost greedy match, copied
   * verbatim from the input; the patch is "0" when its group did not match.
   */
  lemma FromPythonVersionOfMatch(tag: string, c: Captures)
    requires IsLeftmostGreedyMatch(tag, c)
    ensures Canonical(tag, c).Valid()
    ensures FromPythonVersion(tag) == Some(Canonical(tag, c).Render())
    ensures Canonical(tag, c).major == tag[c.major.lo .. c.major.hi]
    ensures Canonical(tag, c).minor == tag[c.minor.lo .. c.minor.hi]
    ensures Canonical(tag, c).patch == if c.patch.Some? then tag[c.patch.value.lo .. c.patch.value.hi] else "0"
  {
    CaptureIsLeftmostGreedyMatch(tag, c);
    CanonicalValid(tag, c);
  }

  /** Every result has the shape `D.D.D` or `D.D.D-P.D`. */
  lemma FromPythonVersionShape(tag: string)
    ensures FromPythonVersion(tag).Some? ==> IsVersionString(FromPythonVersion(tag).value)
  {
    if Capture(tag).Some? {
      var c := Capture(tag).value;
      CaptureIsLeftmost(tag);
      CanonicalValid(tag, c);
    }
  }

  /** Every result starts with a digit: the first digit of the major group. */
  lemma ResultStartsWithDigit(tag: string)
    requires FromPythonVersion(tag).Some?
    ensures |FromPythonVersion(tag).value| > 0 && IsDigit(FromPythonVersion(tag).value[0])
  {
    var c := Capture(tag).value;
    CaptureIsLeftmost(tag);
    CanonicalValid(tag, c);
    RenderStartsWithMajor(Canonical(tag, c));
  }

  lemma RenderStartsWithMajor(v: Version)
    requires v.Valid()
    ensures |v.Render()| > 0 && v.Render()[0] == v.major[0]
  {
    assert v.Render() == v.major + v.Render()[|v.major|..];
  }

  /** Digits and dots only. */
  lemma BaseHasNoDash(v: Version)
    requires v.Valid()
    ensures forall k :: 0 <= k < |v.BaseText()| ==> IsDigit(v.BaseText()[k]) || v.BaseText()[k] == '.'
    ensures '-' !in v.BaseText()
  {
    var b := v.BaseText();
    forall k | 0 <= k < |b| ensures IsDigit(b[k]) || b[k] == '.' {
      var a1, a2 := |v.major|, |v.major| + 1 + |v.minor|;
      if k < a1 {
        assert b[k] == v.major[k];
      } else if a1 < k < a2 {
        assert b[k] == v.minor[k - a1 - 1];
      } else if a2 < k {
        assert b[k] == v.patch[k - a2 - 1];
      }
    }
  }

  lemma RenderDash(v: Version)
    requires v.Valid()
    ensures '-' !in v.Base().Render()
    ensures ('-' in v.Render()) <==> v.pre.Some?
    ensures v.Base().Render() == v.BaseText()
  {
    BaseHasNoDash(v);
    var b := v.BaseText();
    assert v.Base().Render() == b;
    if v.pre.Some? {
      assert v.Render()[|b|] == '-';
    }
  }

  /** The `-PRE.PREID` suffix is there exactly when a marker directly followed by a digit sits after the last group. */
  lemma PrereleaseSuffixIff(tag: string, c: Captures)
    requires IsLeftmostGreedyMatch(tag, c)
    ensures FromPythonVersion(tag).Some?
    ensures ('-' in FromPythonVersion(tag).value) <==> PreFollows(tag, c.AfterPatch())
  {
    FromPythonVersionOfMatch(tag, c);
    RenderDash(Canonical(tag, c));
    if c.pre.Some? {
      MarkerSpan(tag, c.pre.value.lo, c.pre.value.hi);
      PreFollowsIff(tag, c.AfterPatch());
    }
  }

  /** The spans of `c` follow each other in the order of the pattern's groups. */
  predicate Ordered(c: Captures)
  {
    && c.start <= c.major.lo <= c.major.hi <= c.minor.lo <= c.minor.hi
    && (c.patch.Some? ==> c.minor.hi <= c.patch.value.lo <= c.patch.value.hi)
    && (c.pre.Some? <==> c.preid.Some?)
    && (c.pre.Some? ==> c.AfterPatch() <= c.pre.value.lo <= c.pre.value.hi <= c.preid.value.lo <= c.preid.value.hi)
  }

  /** A span moved `n` positions to the left. */
  function Shift(sp: Span, n: nat): Span
    requires n <= sp.lo <= sp.hi
  {
    Span(sp.lo - n, sp.hi - n)
  }

  function ShiftOpt(o: Option<Span>, n: nat): Option<Span>
    requires o.Some? ==> n <= o.value.lo <= o.value.hi
  {
    if o.Some? then Some(Shift(o.value, n)) else None
  }

  /** The same captures, moved `n` positions to the left. */
  function ShiftLeft(c: Captures, n: nat): Captures
    requires n <= c.start && Ordered(c)
  {
    Captures(c.start - n, Shift(c.major, n), Shift(c.minor, n),
             ShiftOpt(c.patch, n), ShiftOpt(c.pre, n), ShiftOpt(c.preid, n))
  }

  lemma ShiftedGroup(s: string, lo: nat, hi: nat, sp: Span)
    requires lo <= sp.lo <= sp.hi <= hi <= |s|
    ensures Group(s[lo .. hi], Shift(sp, lo)) == Group(s, sp)
  {
    var t := s[lo .. hi];
    var a, b := sp.lo - lo, sp.hi - lo;
    forall k | 0 <= k < b - a ensures t[a .. b][k] == s[sp.lo .. sp.hi][k] {
      assert t[a .. b][k] == t[a + k] == s[lo + a + k];
    }
    assert t[a .. b] == s[sp.lo .. sp.hi];
  }

  /** Digits stay digits in a window of the string. */
  lemma ShiftedNumber(s: string, lo: nat, hi: nat, sp: Span)
    requires NumberAt(s, sp) && lo <= sp.lo && sp.hi <= hi <= |s|
    ensures NumberAt(s[lo .. hi], Span(sp.lo - lo, sp.hi - lo))
  {
    var t := s[lo .. hi];
    forall k | sp.lo - lo <= k < sp.hi - lo ensures IsDigit(t[k]) {
      assert t[k] == s[k + lo];
    }
  }

  /** The match, cut out of its string, is still a match of the cut-out text. */
  lemma ShiftedIsMatch(tag: string, c: Captures)
    requires IsMatch(tag, c) && c.End() <= |tag|
    ensures IsMatch(tag[c.start .. c.End()], ShiftLeft(c, c.start))
  {
    ShiftedHead(tag, c);
    ShiftedTail(tag, c);
  }

  lemma ShiftedHead(tag: string, c: Captures)
    requires IsMatch(tag, c) && c.End() <= |tag|
    ensures HeadMatch(tag[c.start .. c.End()], ShiftLeft(c, c.start))
  {
    var n, e := c.start, c.End();
    var t, c0 := tag[n .. e], ShiftLeft(c, n);
    assert t[c0.major.hi] == tag[c.major.hi];
    ShiftedNumber(tag, n, e, c.major);
    ShiftedNumber(tag, n, e, c.minor);
    if c.major.lo == c.start + 1 {
      assert t[0] == tag[n];
    }
  }

  lemma ShiftedTail(tag: string, c: Captures)
    requires IsMatch(tag, c) && c.End() <= |tag|
    ensures TailMatch(tag[c.start .. c.End()], ShiftLeft(c, c.start))
  {
    var n, e := c.start, c.End();
    var t, c0 := tag[n .. e], ShiftLeft(c, n);
    if c.patch.Some? {
      assert t[c0.minor.hi] == tag[c.minor.hi];
      ShiftedNumber(tag, n, e, c.patch.value);
    }
    if c.pre.Some? {
      ShiftedGroup(tag, n, e, c.pre.value);
      assert t[c0.pre.value.lo .. c0.pre.value.hi] == tag[c.pre.value.lo .. c.pre.value.hi];
      ShiftedNumber(tag, n, e, c.preid.value);
    }
  }

  /** The cut-out match is still greedy: nothing after it, and no optional group can newly match inside it. */
  lemma ShiftedGreedy(tag: string, c: Captures)
    requires IsMatch(tag, c) && Greedy(tag, c) && c.End() <= |tag|
    ensures Greedy(tag[c.start .. c.End()], ShiftLeft(c, c.start))
  {
    var n, e := c.start, c.End();
    var t, c0 := tag[n .. e], ShiftLeft(c, n);
    assert c0.End() == |t|;
    if c.patch.None? && c.pre.Some? {
      MarkerSpan(tag, c.pre.value.lo, c.pre.value.hi);
      assert t[c0.minor.hi] == tag[c.minor.hi];
    }
  }

  /** The cut-out match has the same groups. */
  lemma ShiftedCanonical(tag: string, c: Captures)
    requires IsMatch(tag, c) && c.End() <= |tag|
    ensures Canonical(tag[c.start .. c.End()], ShiftLeft(c, c.start)) == Canonical(tag, c)
  {
    var n, e := c.start, c.End();
    var t, c0 := tag[n .. e], ShiftLeft(c, n);
    ShiftedNumbers(tag, c);
    ShiftedPrerelease(tag, c);
    var v, v0 := Canonical(tag, c), Canonical(t, c0);
    assert v0.major == v.major && v0.minor == v.minor && v0.patch == v.patch && v0.pre == v.pre;
  }

  lemma ShiftedNumbers(tag: string, c: Captures)
    requires Ordered(c) && c.End() <= |tag|
    ensures var t, c0 := tag[c.start .. c.End()], ShiftLeft(c, c.start);
            && Group(t, c0.major) == Group(tag, c.major) && Group(t, c0.minor) == Group(tag, c.minor)
            && (c.patch.Some? ==> Group(t, c0.patch.value) == Group(tag, c.patch.value))
  {
    var n, e := c.start, c.End();
    ShiftedGroup(tag, n, e, c.major);
    ShiftedGroup(tag, n, e, c.minor);
    if c.patch.Some? { ShiftedGroup(tag, n, e, c.patch.value); }
  }

  lemma ShiftedPrerelease(tag: string, c: Captures)
    requires Ordered(c) && c.End() <= |tag|
    ensures var t, c0 := tag[c.start .. c.End()], ShiftLeft(c, c.start);
            c.pre.Some? ==> Group(t, c0.pre.value) == Group(tag, c.pre.value) && Group(t, c0.preid.value) == Group(tag, c.preid.value)
  {
    if c.pre.Some? {
      ShiftedGroup(tag, c.start, c.End(), c.pre.value);
      ShiftedGroup(tag, c.start, c.End(), c.preid.value);
    }
  }

  /** A greedy match at the very start is the leftmost one, so it decides the result. */
  lemma NormaliseFromStart(s: string, c: Captures)
    requires IsMatch(s, c) && Greedy(s, c) && c.start == 0
    ensures FromPythonVersion(s) == Some(Canonical(s, c).Render())
  {
    assert IsLeftmostGreedyMatch(s, c);
    FromPythonVersionOfMatch(s, c);
  }

  /** Text around the match does not matter: normalising the matched text alone gives the same result. */
  lemma MatchedTextSuffices(tag: string)
    requires Capture(tag).Some?
    ensures var c := Capture(tag).value;
            c.start <= c.End() <= |tag| && FromPythonVersion(tag[c.start .. c.End()]) == FromPythonVersion(tag)
  {
    var c := Capture(tag).value;
    CaptureIsLeftmost(tag);
    ShiftedIsMatch(tag, c);
    ShiftedGreedy(tag, c);
    ShiftedCanonical(tag, c);
    NormaliseFromStart(tag[c.start .. c.End()], ShiftLeft(c, c.start));
    FromPythonVersionOfMatch(tag, c);
  }

  /** Where the groups of a rendered version sit. */
  lemma RenderLayout(v: Version)
    requires v.Valid()
    ensures var s, a := v.Render(), |v.major|;
            var b := a + 1 + |v.minor|;
            var e := b + 1 + |v.patch|;
            && e <= |s| && s[a] == '.' && s[b] == '.' && (e == |s| || s[e] == '-')
            && s[0 .. a] == v.major && s[a + 1 .. b] == v.minor && s[b + 1 .. e] == v.patch
  {
    var s, bt := v.Render(), v.BaseText();
    RenderDash(v);
    var a := |v.major|;
    var b := a + 1 + |v.minor|;
    var e := b + 1 + |v.patch|;
    assert s[..e] == bt;
    assert bt[0 .. a] == v.major;
    assert bt[a + 1 .. b] == v.minor;
    assert bt[b + 1 .. e] == v.patch;
    assert s[0 .. a] == bt[0 .. a];
    assert s[a + 1 .. b] == bt[a + 1 .. b];
    assert s[b + 1 .. e] == bt[b + 1 .. e];
  }

  /** The captures of the base of a rendered version. */
  function RenderedCaptures(v: Version): Captures
  {
    var a := |v.major|;
    var b := a + 1 + |v.minor|;
    Captures(0, Span(0, a), Span(a + 1, b), Some(Span(b + 1, b + 1 + |v.patch|)), None, None)
  }

  lemma RenderedIsMatch(v: Version)
    requires v.Valid()
    ensures IsMatch(v.Render(), RenderedCaptures(v))
  {
    var s, c := v.Render(), RenderedCaptures(v);
    RenderLayout(v);
    var a, b, e := c.major.hi, c.minor.hi, c.patch.value.hi;
    forall k | 0 <= k < a ensures IsDigit(s[k]) { assert s[k] == s[0 .. a][k]; }
    forall k | a + 1 <= k < b ensures IsDigit(s[k]) { assert s[k] == s[a + 1 .. b][k - a - 1]; }
    forall k | b + 1 <= k < e ensures IsDigit(s[k]) { assert s[k] == s[b + 1 .. e][k - b - 1]; }
  }

  lemma RenderedGreedy(v: Version)
    requires v.Valid()
    ensures Greedy(v.Render(), RenderedCaptures(v))
  {
    RenderLayout(v);
  }

  lemma RenderedCanonical(v: Version)
    requires v.Valid()
    ensures Canonical(v.Render(), RenderedCaptures(v)) == v.Base()
  {
    RenderLayout(v);
  }

  /** Normalising a normalised version gives its base `MAJOR.MINOR.PATCH`. */
  lemma NormaliseRendered(v: Version)
    requires v.Valid()
    ensures FromPythonVersion(v.Render()) == Some(v.Base().Render())
  {
    RenderedIsMatch(v);
    RenderedGreedy(v);
    RenderedCanonical(v);
    NormaliseFromStart(v.Render(), RenderedCaptures(v));
  }

  /** A result without prerelease is a fixed point of the normaliser. */
  lemma FixedPointWithoutPrerelease(tag: string)
    requires FromPythonVersion(tag).Some? && '-' !in FromPythonVersion(tag).value
    ensures FromPythonVersion(FromPythonVersion(tag).value) == FromPythonVersion(tag)
  {
    var c := Capture(tag).value;
    CaptureIsLeftmost(tag);
    var v := Canonical(tag, c);
    CanonicalValid(tag, c);
    RenderDash(v);
    NormaliseRendered(v);
    assert v.Base() == v;
  }

  /** A result with a prerelease re-normalises to the part before its `-`. */
  lemma PrereleaseRenormalisesToBase(tag: string)
    requires FromPythonVersion(tag).Some? && '-' in FromPythonVersion(tag).value
    ensures var r := FromPythonVersion(tag).value;
            && FromPythonVersion(r).Some?
            && var b := FromPythonVersion(r).value;
            && |b| < |r| && r[..|b|] == b && r[|b|] == '-' && '-' !in b
  {
    var c := Capture(tag).value;
    CaptureIsLeftmost(tag);
    var v := Canonical(tag, c);
    CanonicalValid(tag, c);
    RenderDash(v);
    NormaliseRendered(v);
    var r := v.Render();
    var b := v.BaseText();
    assert r == b + ("-" + v.pre.value.kind + "." + v.pre.value.id);
    assert r[..|b|] == b;
  }

  // ---------------------------------------------------------------------------
  // Worked examples
  // ---------------------------------------------------------------------------

  lemma MinorExampleMatch(s: string)
    requires s == "3.10"
    ensures var c := Captures(0, Span(0, 1), Span(2, 4), None, None, None);
            IsMatch(s, c) && Greedy(s, c) && Canonical(s, c) == Version("3", "10", "0", None)
  {
    var c := Captures(0, Span(0, 1), Span(2, 4), None, None, None);
    assert HeadMatch(s, c);
    assert TailMatch(s, c);
    assert Group(s, c.major) == s[0 .. 1] == "3";
    assert Group(s, c.minor) == s[2 .. 4] == "10";
  }

  lemma MinorExampleRender(v: Version)
    requires v == Version("3", "10", "0", None)
    ensures v.Render() == "3.10.0"
  {
    var r := v.Render();
    assert r == v.BaseText();
    assert |r| == 6 && r[0] == '3' && r[1] == '.' && r[2] == '1' && r[3] == '0' && r[4] == '.' && r[5] == '0';
  }

  /** Greedy digit groups: `3.10` has minor `10`, and the missing patch becomes `0`. */
  lemma ExampleGreedyMinor(s: string)
    requires s == "3.10"
    ensures FromPythonVersion(s) == Some("3.10.0")
  {
    MinorExampleMatch(s);
    NormaliseFromStart(s, Captures(0, Span(0, 1), Span(2, 4), None, None, None));
    MinorExampleRender(Version("3", "10", "0", None));
  }

  lemma PrereleaseExampleMatch(s: string)
    requires s == "v2.3.0a1"
    ensures var c := Captures(0, Span(1, 2), Span(3, 4), Some(Span(5, 6)), Some(Span(6, 7)), Some(Span(7, 8)));
            IsMatch(s, c) && Greedy(s, c) && Canonical(s, c) == Version("2", "3", "0", Some(Prerelease("a", "1")))
  {
    var c := Captures(0, Span(1, 2), Span(3, 4), Some(Span(5, 6)), Some(Span(6, 7)), Some(Span(7, 8)));
    assert s[6 .. 7] == "a";
    assert HeadMatch(s, c);
    assert TailMatch(s, c);
    assert Group(s, c.major) == s[1 .. 2] == "2";
    assert Group(s, c.minor) == s[3 .. 4] == "3";
    assert Group(s, c.patch.value) == s[5 .. 6] == "0";
    assert Group(s, c.preid.value) == s[7 .. 8] == "1";
  }

  lemma PrereleaseExampleRender(v: Version)
    requires v == Version("2", "3", "0", Some(Prerelease("a", "1")))
    ensures v.Render() == "2.3.0-a.1"
  {
    var r := v.Render();
    assert r == v.BaseText() + ("-" + "a" + "." + "1");
    assert |r| == 9 && r[0] == '2' && r[1] == '.' && r[2] == '3' && r[3] == '.' && r[4] == '0'
           && r[5] == '-' && r[6] == 'a' && r[7] == '.' && r[8] == '1';
  }

  /** A leading `v` is dropped and a marker with its id becomes `-a.1`. */
  lemma ExamplePrerelease(s: string)
    requires s == "v2.3.0a1"
    ensures FromPythonVersion(s) == Some("2.3.0-a.1")
  {
    var c := Captures(0, Span(1, 2), Span(3, 4), Some(Span(5, 6)), Some(Span(6, 7)), Some(Span(7, 8)));
    PrereleaseExampleMatch(s);
    NormaliseFromStart(s, c);
    PrereleaseExampleRender(Canonical(s, c));
  }

  lemma SurroundingExampleMatch(s: string)
    requires s == "py3.10.1+x"
    ensures var c := Captures(2, Span(2, 3), Span(4, 6), Some(Span(7, 8)), None, None);
            IsMatch(s, c) && Greedy(s, c) && Canonical(s, c) == Version("3", "10", "1", None)
  {
    var c := Captures(2, Span(2, 3), Span(4, 6), Some(Span(7, 8)), None, None);
    assert HeadMatch(s, c);
    assert TailMatch(s, c);
    assert Group(s, c.major) == s[2 .. 3] == "3";
    assert Group(s, c.minor) == s[4 .. 6] == "10";
    assert Group(s, c.patch.value) == s[7 .. 8] == "1";
  }

  lemma SurroundingExampleRender(v: Version)
    requires v == Version("3", "10", "1", None)
    ensures v.Render() == "3.10.1"
  {
    var r := v.Render();
    assert r == v.BaseText();
    assert |r| == 6 && r[0] == '3' && r[1] == '.' && r[2] == '1' && r[3] == '0' && r[4] == '.' && r[5] == '1';
  }

  /** No match starts at a character that is neither `v` nor a digit. */
  lemma NoMatchAtLetter(s: string, i: nat)
    requires i < |s| && s[i] != 'v' && !IsDigit(s[i])
    ensures MatchAt(s, i).None?
  {
  }

  /** Text around the match is ignored. */
  lemma ExampleSurrounding(s: string)
    requires s == "py3.10.1+x"
    ensures FromPythonVersion(s) == Some("3.10.1")
  {
    var c := Captures(2, Span(2, 3), Span(4, 6), Some(Span(7, 8)), None, None);
    SurroundingExampleMatch(s);
    MatchAtExact(s, c);
    NoMatchAtLetter(s, 0);
    NoMatchAtLetter(s, 1);
    assert Scan(s, 1) == Scan(s, 2) == Some(c);
    assert Capture(s) == Some(c);
    SurroundingExampleRender(Canonical(s, c));
  }
}
