/**
  The JavaScript string operations the program relies on: `indexOf` and
  `includes`, `split` with a non-empty string separator together with the
  two indexings `[0]` and `[1]` the program applies to its result, `trim`,
  and the truthiness of an optional string field. A string here is a
  sequence of Unicode characters rather than UTF-16 code units; the
  separators and white space involved are all single code units.
 */
module JsStrings {
  import opened Wrappers

  /** JavaScript truthiness of an optional string field: present and not the empty string. */
  predicate Truthy(o: Option<string>) {
    o.Some? && o.value != ""
  }

  /** `o || null` for an optional string: the empty string counts as none. */
  function OrNull(o: Option<string>): (r: Option<string>)
    ensures r.Some? <==> Truthy(o)
    ensures r.Some? ==> r == o
  {
    if Truthy(o) then o else None
  }

  /** `d` occurs in `s` starting at position `i`. */
  predicate OccursAt(s: string, d: string, i: nat) {
    i + |d| <= |s| && s[i..i + |d|] == d
  }

  /** `s.indexOf(d, from)`: the first position at or after `from` where `d` occurs. */
  function IndexOfFrom(s: string, d: string, from: nat): (r: Option<nat>)
    decreases |s| - from
    ensures r.Some? ==> from <= r.value && OccursAt(s, d, r.value)
    ensures r.Some? ==> forall j :: from <= j < r.value ==> !OccursAt(s, d, j)
    ensures r.None? ==> forall j :: from <= j ==> !OccursAt(s, d, j)
  {
    if from + |d| > |s| then None
    else if s[from..from + |d|] == d then Some(from)
    else IndexOfFrom(s, d, from + 1)
  }

  /** `s.indexOf(d)`, with `None` for JavaScript's -1. */
  function IndexOf(s: string, d: string): (r: Option<nat>)
    ensures r.Some? ==> OccursAt(s, d, r.value)
    ensures r.Some? ==> forall j :: 0 <= j < r.value ==> !OccursAt(s, d, j)
    ensures r.None? <==> forall j :: !OccursAt(s, d, j)
  {
    IndexOfFrom(s, d, 0)
  }

  /** `s.includes(d)`. */
  predicate Includes(s: string, d: string) {
    IndexOf(s, d).Some?
  }

  lemma OccursIncludes(s: string, d: string, i: nat)
    requires OccursAt(s, d, i)
    ensures Includes(s, d) && IndexOf(s, d).value <= i
  {
  }

  /** A string that includes `p + q` includes `p` and includes `q`. */
  lemma IncludesParts(s: string, p: string, q: string)
    ensures Includes(s, p + q) ==> Includes(s, p) && Includes(s, q)
  {
    if Includes(s, p + q) {
      var i := IndexOf(s, p + q).value;
      assert s[i..i + |p|] == (p + q)[..|p|] == p;
      assert s[i + |p|..i + |p| + |q|] == (p + q)[|p|..] == q;
      OccursIncludes(s, p, i);
      OccursIncludes(s, q, i + |p|);
    }
  }

  /** A prefix of a string that does not include `d` does not include it either. */
  lemma PrefixExcludes(r: string, s: string, d: string)
    requires r <= s && !Includes(s, d)
    ensures !Includes(r, d)
  {
    forall j: nat | j + |d| <= |r| ensures !OccursAt(r, d, j) {
      assert r == s[..|r|];
      PrefixOccurs(s, d, |r|, j);
    }
  }

  /** A string that lacks a character of `d` does not include `d`. */
  lemma MissingCharExcludes(s: string, d: string, c: char)
    requires c in d && c !in s
    ensures !Includes(s, d)
  {
    var k :| 0 <= k < |d| && d[k] == c;
    forall j: nat ensures !OccursAt(s, d, j) {
      if j + |d| <= |s| {
        assert s[j..j + |d|][k] == s[j + k] != c;
      }
    }
  }

  /**
    `a + b` does not include `d` when some character of `d`, at a position
    no earlier than `|a|`, is absent from `b`.
   */
  lemma LateCharExcludes(a: string, b: string, d: string, k: nat)
    requires |a| <= k < |d| && d[k] !in b
    ensures !Includes(a + b, d)
  {
    var s := a + b;
    forall j: nat ensures !OccursAt(s, d, j) {
      if j + |d| <= |s| {
        assert s[j..j + |d|][k] == s[j + k] == b[j + k - |a|] != d[k];
      }
    }
  }

  /** `a + d + b` includes `d`. */
  lemma IncludesMiddle(a: string, d: string, b: string)
    ensures Includes(a + d + b, d)
  {
    assert (a + d + b)[|a|..|a| + |d|] == d;
    OccursIncludes(a + d + b, d, |a|);
  }

  /** `a + b` includes both `a` and `b`. */
  lemma IncludesEnds(a: string, b: string)
    ensures Includes(a + b, a) && Includes(a + b, b)
  {
    assert (a + b)[..|a|] == a && (a + b)[|a|..] == b;
    OccursIncludes(a + b, a, 0);
    OccursIncludes(a + b, b, |a|);
  }

  /** An occurrence with none before it is the one `indexOf` finds. */
  lemma FirstAt(s: string, d: string, i: nat)
    requires OccursAt(s, d, i)
    requires forall j: nat :: j < i ==> !OccursAt(s, d, j)
    ensures IndexOf(s, d) == Some(i)
  {
  }

  /**
    `d` occurs first at the end of `a + d` when some character `d[k]` occurs
    neither in `a` nor earlier in `d`.
   */
  lemma FirstAtEnd(a: string, d: string, k: nat)
    requires k < |d| && d[k] !in a && d[k] !in d[..k]
    ensures IndexOf(a + d, d) == Some(|a|)
  {
    var s := a + d;
    assert s[|a|..|a| + |d|] == d;
    forall j: nat | j < |a| ensures !OccursAt(s, d, j) {
      if j + k < |a| {
        assert s[j + k] == a[j + k];
      } else {
        assert s[j + k] == d[..k][j + k - |a|];
      }
      assert j + |d| <= |s| ==> s[j..j + |d|][k] == s[j + k] != d[k];
    }
    FirstAt(s, d, |a|);
  }

  /** Text appended after the first occurrence of `d` does not move it. */
  lemma IndexOfExtend(s: string, t: string, d: string)
    requires IndexOf(s, d).Some?
    ensures IndexOf(s + t, d) == IndexOf(s, d)
  {
    var i := IndexOf(s, d).value;
    var u := s + t;
    assert u[..|s|] == s;
    PrefixOccurs(u, d, |s|, i);
    forall j: nat | j < i ensures !OccursAt(u, d, j) {
      PrefixOccurs(u, d, |s|, j);
    }
  }

  /** `s.split(d)` for a non-empty separator `d`: the pieces between successive occurrences of `d`. */
  function Split(s: string, d: string): (r: seq<string>)
    requires d != ""
    decreases |s|
    ensures |r| >= 1
  {
    match IndexOf(s, d)
    case None => [s]
    case Some(i) => [s[..i]] + Split(s[i + |d|..], d)
  }

  /** `s.split(d)` has a second piece, so that `[1]` exists, exactly when `s` includes `d`. */
  lemma SplitHasSecond(s: string, d: string)
    requires d != ""
    ensures |Split(s, d)| >= 2 <==> Includes(s, d)
  {
  }

  /** `pieces.join(d)`. */
  function Join(pieces: seq<string>, d: string): string
    requires |pieces| >= 1
  {
    if |pieces| == 1 then pieces[0] else pieces[0] + d + Join(pieces[1..], d)
  }

  /** Splitting on `d` and joining the pieces with `d` gives back the original string. */
  lemma {:induction false} SplitJoin(s: string, d: string)
    requires d != ""
    ensures Join(Split(s, d), d) == s
    decreases |s|
  {
    match IndexOf(s, d)
    case None =>
    case Some(i) =>
      var rest := s[i + |d|..];
      var pieces := Split(rest, d);
      SplitJoin(rest, d);
      assert Split(s, d) == [s[..i]] + pieces;
      assert ([s[..i]] + pieces)[1..] == pieces;
      assert Join(Split(s, d), d) == s[..i] + d + Join(pieces, d);
      assert s[i..i + |d|] == d;
      assert s == s[..i] + s[i..i + |d|] + rest;
  }

  /** `s.split(d)[0]`: the text before the first `d`, or all of `s` when there is none. */
  function Before(s: string, d: string): (r: string)
    requires d != ""
    ensures r <= s
    ensures forall j :: 0 <= j < |r| ==> !OccursAt(s, d, j)
    ensures r == s || OccursAt(s, d, |r|)
    ensures !Includes(r, d)
    ensures r == Split(s, d)[0]
  {
    match IndexOf(s, d)
    case None => s
    case Some(i) =>
      assert forall j :: !OccursAt(s[..i], d, j) by {
        forall j: nat ensures !OccursAt(s[..i], d, j) {
          if j + |d| <= i { PrefixOccurs(s, d, i, j); }
        }
      }
      s[..i]
  }

  /** An occurrence that ends within the first `n` characters is an occurrence in the prefix of length `n`. */
  lemma PrefixOccurs(s: string, d: string, n: nat, j: nat)
    requires j + |d| <= n <= |s|
    ensures OccursAt(s[..n], d, j) <==> OccursAt(s, d, j)
  {
    assert s[..n][j..j + |d|] == s[j..j + |d|];
  }

  /** Where `s` includes `d` first at `i`, `s` is the text before, `d`, and the rest. */
  lemma FirstOccurrence(s: string, d: string, i: nat)
    requires d != "" && IndexOf(s, d) == Some(i)
    ensures i + |d| <= |s| && s == Before(s, d) + d + s[i + |d|..]
    ensures Split(s, d) == [Before(s, d)] + Split(s[i + |d|..], d)
  {
    assert Before(s, d) == s[..i];
    Decompose(s, d, i);
  }

  lemma Decompose(s: string, d: string, i: nat)
    requires OccursAt(s, d, i)
    ensures s == s[..i] + d + s[i + |d|..]
  {
    assert s == s[..i] + s[i..i + |d|] + s[i + |d|..];
  }

  /** `s.split(d)[1]`, which exists exactly when `s` includes `d`: the text after the first `d`, up to the next `d` or the end. */
  function After(s: string, d: string): (r: string)
    requires d != "" && Includes(s, d)
    ensures Before(s, d) + d + r <= s
    ensures var rest := s[|Before(s, d)| + |d| + |r|..]; rest == "" || d <= rest
    ensures !Includes(r, d)
    ensures |Split(s, d)| >= 2 && r == Split(s, d)[1]
  {
    var i := IndexOf(s, d).value;
    var rest := s[i + |d|..];
    FirstOccurrence(s, d, i);
    var r := Before(rest, d);
    AfterShape(s[..i] + d, rest, r, d);
    r
  }

  /** If `r` is `rest` up to an occurrence of `d` (or all of it), then so it is after any text in front. */
  lemma AfterShape(front: string, rest: string, r: string, d: string)
    requires r <= rest && (r == rest || OccursAt(rest, d, |r|))
    ensures front + r <= front + rest
    ensures var tail := (front + rest)[|front| + |r|..]; tail == "" || d <= tail
  {
    assert (front + rest)[|front| + |r|..] == rest[|r|..];
    assert r == rest ==> rest[|r|..] == "";
    assert OccursAt(rest, d, |r|) ==> rest[|r|..][..|d|] == d;
  }

  /** No piece of `s.split(d)` contains the separator. */
  lemma {:induction false} SplitPiecesExcludeSeparator(s: string, d: string)
    requires d != ""
    ensures forall k :: 0 <= k < |Split(s, d)| ==> !Includes(Split(s, d)[k], d)
    decreases |s|
  {
    match IndexOf(s, d)
    case None =>
    case Some(i) =>
      var rest := s[i + |d|..];
      SplitPiecesExcludeSeparator(rest, d);
      var pieces, later := Split(s, d), Split(rest, d);
      FirstOccurrence(s, d, i);
      assert pieces == [Before(s, d)] + later;
      forall k | 0 <= k < |pieces| ensures !Includes(pieces[k], d) {
        if k > 0 {
          assert pieces[k] == later[k - 1];
        }
      }
  }

  /** The characters JavaScript's `trim` removes: the ECMAScript WhiteSpace and LineTerminator code points. */
  predicate IsJsSpace(c: char) {
    || c == '\t' || c == '\n' || c == '\U{000B}' || c == '\U{000C}' || c == '\r' || c == ' '
    || c == '\U{00A0}' || c == '\U{1680}' || ('\U{2000}' <= c <= '\U{200A}')
    || c == '\U{2028}' || c == '\U{2029}' || c == '\U{202F}' || c == '\U{205F}'
    || c == '\U{3000}' || c == '\U{FEFF}'
  }

  /** The first position at or after `i` that does not hold white space (or the end). */
  function SkipSpaceForward(s: string, i: nat): (j: nat)
    requires i <= |s|
    decreases |s| - i
    ensures i <= j <= |s|
    ensures forall k :: i <= k < j ==> IsJsSpace(s[k])
    ensures j < |s| ==> !IsJsSpace(s[j])
  {
    if i < |s| && IsJsSpace(s[i]) then SkipSpaceForward(s, i + 1) else i
  }

  /** The end of `s[lo..hi]` once its trailing white space is dropped. */
  function SkipSpaceBackward(s: string, lo: nat, hi: nat): (j: nat)
    requires lo <= hi <= |s|
    ensures lo <= j <= hi
    ensures forall k :: j <= k < hi ==> IsJsSpace(s[k])
    ensures lo < j ==> !IsJsSpace(s[j - 1])
  {
    if lo < hi && IsJsSpace(s[hi - 1]) then SkipSpaceBackward(s, lo, hi - 1) else hi
  }

  /** `r` is the slice of `s` starting at `a`, and everything of `s` outside it is white space. */
  predicate TrimmedAt(s: string, r: string, a: nat) {
    && a + |r| <= |s| && s[a..a + |r|] == r
    && (forall k :: 0 <= k < a ==> IsJsSpace(s[k]))
    && (forall k :: a + |r| <= k < |s| ==> IsJsSpace(s[k]))
  }

  /** `s.trim()`: `s` without its leading and trailing white space. */
  function Trim(s: string): (r: string)
    ensures exists a :: TrimmedAt(s, r, a)
    ensures r != "" ==> !IsJsSpace(r[0]) && !IsJsSpace(r[|r| - 1])
  {
    var a := SkipSpaceForward(s, 0);
    var b := SkipSpaceBackward(s, a, |s|);
    assert TrimmedAt(s, s[a..b], a);
    s[a..b]
  }

  /** `s.trim()` is empty exactly when `s` is all white space. */
  lemma TrimEmpty(s: string)
    ensures Trim(s) == "" <==> forall k :: 0 <= k < |s| ==> IsJsSpace(s[k])
  {
    var a := SkipSpaceForward(s, 0);
    var b := SkipSpaceBackward(s, a, |s|);
    assert Trim(s) == s[a..b];
  }
}
