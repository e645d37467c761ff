/**
 * The JavaScript `String` and `Array` operations that scripts/generateReleases.mjs
 * relies on, on `seq<char>`: `includes`, `replace` with a string pattern (first
 * occurrence only), `split` with a non-empty separator, `join` and `endsWith`.
 */
module JsStrings {
  import opened Wrappers

  /** `pat` occurs in `s` at position `k`. */
  predicate StartsAt(s: string, pat: string, k: nat)
  {
    k + |pat| <= |s| && s[k .. k + |pat|] == pat
  }

  /** The first occurrence of `pat` at or after `k` (`String.prototype.indexOf`). */
  function IndexOfFrom(s: string, pat: string, k: nat): (r: Option<nat>)
    requires k <= |s|
    ensures r.Some? ==> k <= r.value <= |s| && StartsAt(s, pat, r.value)
    ensures r.Some? ==> forall j :: k <= j < r.value ==> !StartsAt(s, pat, j)
    ensures r.None? ==> forall j :: k <= j <= |s| ==> !StartsAt(s, pat, j)
    decreases |s| - k
  {
    if StartsAt(s, pat, k) then Some(k)
    else if k == |s| then None
    else IndexOfFrom(s, pat, k + 1)
  }

  /** `s.indexOf(pat)`: the first occurrence from the start, or `None` when there is none. */
  function IndexOf(s: string, pat: string): (r: Option<nat>)
    ensures r.Some? ==> StartsAt(s, pat, r.value) && forall j :: 0 <= j < r.value ==> !StartsAt(s, pat, j)
    ensures r.None? ==> forall j :: 0 <= j <= |s| ==> !StartsAt(s, pat, j)
  {
    IndexOfFrom(s, pat, 0)
  }

  /** `s.includes(pat)`. */
  predicate Contains(s: string, pat: string)
  {
    IndexOf(s, pat).Some?
  }

  /** `includes` holds exactly when the pattern occurs somewhere. */
  lemma ContainsIff(s: string, pat: string)
    ensures Contains(s, pat) <==> exists k: nat :: StartsAt(s, pat, k)
  {
  }

  /** For a one-character pattern, `includes` is membership. */
  lemma ContainsChar(s: string, c: char)
    ensures Contains(s, [c]) <==> c in s
  {
    if c in s {
      var k :| 0 <= k < |s| && s[k] == c;
      assert s[k .. k + 1] == [c];
      OccurrenceContains(s, [c], k);
    }
    if Contains(s, [c]) {
      var k := IndexOf(s, [c]).value;
      assert s[k] == s[k .. k + 1][0];
    }
  }

  /** An occurrence in the whole string is found by `includes`. */
  lemma OccurrenceContains(s: string, pat: string, k: nat)
    requires StartsAt(s, pat, k)
    ensures Contains(s, pat)
  {
    ContainsIff(s, pat);
  }

  /** `s.replace(pat, rep)` with a string pattern: only the first occurrence is replaced. */
  function ReplaceFirst(s: string, pat: string, rep: string): (r: string)
    ensures IndexOf(s, pat).None? ==> r == s
    ensures IndexOf(s, pat).Some? ==>
              var k := IndexOf(s, pat).value;
              k <= |r| && r[..k] == s[..k] && r[k..] == rep + s[k + |pat|..]
  {
    match IndexOf(s, pat)
    case None => s
    case Some(k) => s[..k] + rep + s[k + |pat|..]
  }

  /** Removing the first occurrence can be undone by putting the pattern back in its place. */
  lemma RemoveFirstReinserts(s: string, pat: string)
    requires Contains(s, pat)
    ensures var k, r := IndexOf(s, pat).value, ReplaceFirst(s, pat, "");
            k <= |r| && s == r[..k] + pat + r[k..]
            && forall j :: 0 <= j < k ==> !StartsAt(s, pat, j)
  {
    var k, r := IndexOf(s, pat).value, ReplaceFirst(s, pat, "");
    var before, after := s[..k], s[k + |pat|..];
    assert r[..k] == before && r[k..] == after;
    assert s == before + s[k .. k + |pat|] + after;
  }

  /** `s.split(sep)` with a non-empty separator: the pieces between non-overlapping occurrences, left to right. */
  function Split(s: string, sep: string): (parts: seq<string>)
    requires |sep| > 0
    ensures |parts| >= 1
    ensures |parts| == 1 <==> IndexOf(s, sep).None?
    decreases |s|
  {
    match IndexOf(s, sep)
    case None => [s]
    case Some(k) => [s[..k]] + Split(s[k + |sep|..], sep)
  }

  /** A split that finds a separator: the text before it, then the split of the text after it. */
  lemma SplitCons(s: string, sep: string)
    requires |sep| > 0 && IndexOf(s, sep).Some?
    ensures var k := IndexOf(s, sep).value;
            Split(s, sep) == [s[..k]] + Split(s[k + |sep|..], sep)
  {
  }

  /** Dropping the head of a sequence built by prepending gives back the tail. */
  lemma DropHead<T>(x: T, tail: seq<T>)
    ensures ([x] + tail)[1..] == tail
  {
  }

  /** `parts.join(sep)`. */
  function Join(parts: seq<string>, sep: string): string
  {
    if |parts| == 0 then ""
    else if |parts| == 1 then parts[0]
    else parts[0] + sep + Join(parts[1..], sep)
  }

  /** `s.endsWith(suffix)`. */
  predicate EndsWith(s: string, suffix: string)
  {
    |suffix| <= |s| && s[|s| - |suffix|..] == suffix
  }

  /** Joining the pieces of a split gives back the original string. */
  lemma {:induction false} JoinSplit(s: string, sep: string)
    requires |sep| > 0
    ensures Join(Split(s, sep), sep) == s
    decreases |s|
  {
    match IndexOf(s, sep)
    case None =>
    case Some(k) =>
      var rest := s[k + |sep|..];
      JoinSplit(rest, sep);
      var parts := Split(s, sep);
      SplitCons(s, sep);
      DropHead(s[..k], Split(rest, sep));
      JoinCons(parts, sep);
      SplitAround(s, k, |sep|);
  }

  lemma JoinCons(parts: seq<string>, sep: string)
    requires |parts| >= 2
    ensures Join(parts, sep) == parts[0] + sep + Join(parts[1..], sep)
  {
  }

  /** A string is the text before an occurrence, the occurrence and the text after it. */
  lemma SplitAround(s: string, k: nat, n: nat)
    requires k + n <= |s|
    ensures s == s[..k] + s[k .. k + n] + s[k + n..]
  {
    assert s[..k] + s[k..] == s;
    assert s[k..] == s[k .. k + n] + s[k + n..];
  }

  /** An occurrence inside a prefix is an occurrence in the whole string. */
  lemma PrefixOccurrence(s: string, pat: string, k: nat, j: nat)
    requires k <= |s| && StartsAt(s[..k], pat, j)
    ensures StartsAt(s, pat, j)
  {
    assert s[..k][j .. j + |pat|] == s[j .. j + |pat|];
  }

  /** A piece before the first separator holds no separator. */
  lemma BeforeFirstHasNone(s: string, sep: string, k: nat)
    requires k <= |s| && forall j :: 0 <= j < k ==> !StartsAt(s, sep, j)
    requires |sep| > 0
    ensures !Contains(s[..k], sep)
  {
    if Contains(s[..k], sep) {
      var j := IndexOf(s[..k], sep).value;
      PrefixOccurrence(s, sep, k, j);
    }
  }

  /** No piece of a split holds the separator, and the first piece is the text before the first separator. */
  lemma {:induction false} SplitPieces(s: string, sep: string)
    requires |sep| > 0
    ensures forall i :: 0 <= i < |Split(s, sep)| ==> !Contains(Split(s, sep)[i], sep)
    ensures Split(s, sep)[0] == if IndexOf(s, sep).Some? then s[..IndexOf(s, sep).value] else s
    decreases |s|
  {
    match IndexOf(s, sep)
    case None =>
      assert s[..|s|] == s;
      BeforeFirstHasNone(s, sep, |s|);
    case Some(k) =>
      var rest := s[k + |sep|..];
      SplitPieces(rest, sep);
      BeforeFirstHasNone(s, sep, k);
      var parts := Split(s, sep);
      SplitCons(s, sep);
      forall i | 0 <= i < |parts| ensures !Contains(parts[i], sep) {
        if i > 0 {
          assert parts[i] == Split(rest, sep)[i - 1];
        }
      }
  }

  /** `last` is a suffix of `s`, and is all of `s` or comes right after a `c`. */
  predicate IsLastPiece(s: string, c: char, last: string)
  {
    |last| <= |s| && s[|s| - |last|..] == last && (|last| == |s| || s[|s| - |last| - 1] == c)
  }

  /** The last piece of a split on one character is a suffix, preceded by that character unless it is the whole string. */
  lemma {:induction false} SplitLast(s: string, c: char)
    ensures IsLastPiece(s, c, Split(s, [c])[|Split(s, [c])| - 1])
    decreases |s|
  {
    match IndexOf(s, [c])
    case None =>
      assert s[|s| - |s|..] == s;
    case Some(k) =>
      var rest := s[k + 1..];
      SplitLast(rest, c);
      SplitCons(s, [c]);
      var tail := Split(rest, [c]);
      LastOfCons(s[..k], tail);
      LastPieceStep(s, c, k, tail[|tail| - 1]);
  }

  /** The last piece of the text after a `c` is a last piece of the whole text. */
  lemma LastPieceStep(s: string, c: char, k: nat, last: string)
    requires StartsAt(s, [c], k) && IsLastPiece(s[k + 1..], c, last)
    ensures IsLastPiece(s, c, last)
  {
    var rest := s[k + 1..];
    SliceOfSuffix(s, k + 1, |rest| - |last|, |rest|);
    assert s[|s| - |last|..] == s[|s| - |last| .. |s|];
    if |last| == |rest| {
      assert s[k .. k + 1][0] == s[k];
    }
  }

  /** The last element of a sequence built by prepending is the last element of the tail. */
  lemma LastOfCons<T>(x: T, tail: seq<T>)
    requires |tail| > 0
    ensures ([x] + tail)[|[x] + tail| - 1] == tail[|tail| - 1]
  {
  }

  lemma SliceOfSuffix<T>(s: seq<T>, m: nat, a: nat, b: nat)
    requires m <= |s| && a <= b <= |s| - m
    ensures s[m..][a .. b] == s[m + a .. m + b]
  {
  }
}
