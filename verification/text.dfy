/** String operations the pipeline relies on, stated with the semantics of the
    JavaScript built-ins they stand for: `String.prototype.split` with a
    literal separator, `Array.prototype.join`, `String.prototype.trim`, and
    in-order concatenation of streamed pieces. */
module Text {
  import opened Wrappers

  /* ---------------------------------------------------------------- */
  /* Concatenation of pieces in arrival order                          */
  /* ---------------------------------------------------------------- */

  /** The pieces glued together in order, with nothing between them. */
  function Concat(parts: seq<string>): string
  {
    if |parts| == 0 then "" else Concat(parts[..|parts| - 1]) + parts[|parts| - 1]
  }

  /** Concatenation distributes over appending piece lists: splitting a stream
      anywhere and gluing the two halves gives the same text. */
  lemma {:induction false} ConcatAppend(a: seq<string>, b: seq<string>)
    ensures Concat(a + b) == Concat(a) + Concat(b)
    decreases |b|
  {
    if |b| == 0 {
      assert a + b == a;
    } else {
      var b' := b[..|b| - 1];
      assert (a + b)[..|a + b| - 1] == a + b';
      ConcatAppend(a, b');
    }
  }

  /** Every piece appears, whole, inside the concatenation. */
  lemma {:induction false} ConcatHasPart(parts: seq<string>, k: nat)
    requires k < |parts|
    ensures IsInfix(parts[k], Concat(parts))
    decreases |parts|
  {
    var last := |parts| - 1;
    var front := Concat(parts[..last]);
    if k == last {
      assert InfixAt(parts[k], Concat(parts), |front|);
    } else {
      ConcatHasPart(parts[..last], k);
      var lo :| InfixAt(parts[k], front, lo);
      assert (front + parts[last])[lo..lo + |parts[k]|] == front[lo..lo + |parts[k]|];
      assert InfixAt(parts[k], Concat(parts), lo);
    }
  }

  /* ---------------------------------------------------------------- */
  /* Occurrences of a literal pattern                                  */
  /* ---------------------------------------------------------------- */

  /** `pat` occurs in `s` starting at index `i`. */
  predicate OccursAt(s: string, pat: string, i: int)
  {
    0 <= i && i + |pat| <= |s| && s[i..i + |pat|] == pat
  }

  ghost predicate Contains(s: string, pat: string)
  {
    exists i :: OccursAt(s, pat, i)
  }

  /** No occurrence of `pat` in `s` starts before index `i`. */
  predicate NoneBefore(s: string, pat: string, i: int)
  {
    forall j :: 0 <= j < i ==> !OccursAt(s, pat, j)
  }

  /** `r` sits in `s` starting at `lo`. */
  predicate InfixAt(r: string, s: string, lo: int)
  {
    0 <= lo && lo + |r| <= |s| && s[lo..lo + |r|] == r
  }

  ghost predicate IsInfix(r: string, s: string)
  {
    exists lo :: InfixAt(r, s, lo)
  }

  lemma PrefixIsInfix(p: string, s: string)
    requires p <= s
    ensures IsInfix(p, s)
  {
    assert InfixAt(p, s, 0);
  }

  lemma SuffixIsInfix(s: string, k: nat)
    requires k <= |s|
    ensures IsInfix(s[k..], s)
  {
    assert InfixAt(s[k..], s, k);
  }

  /** An infix of an infix is an infix. */
  lemma InfixTrans(a: string, b: string, c: string)
    requires IsInfix(a, b) && IsInfix(b, c)
    ensures IsInfix(a, c)
  {
    var i :| InfixAt(a, b, i);
    var j :| InfixAt(b, c, j);
    assert forall k :: 0 <= k < |b| ==> b[k] == c[j + k];
    assert forall k :: 0 <= k < |a| ==> a[k] == b[i + k];
    assert c[j + i..j + i + |a|] == a;
    assert InfixAt(a, c, j + i);
  }

  /** Left-to-right search for `pat` from index `k` on, as `indexOf` does. */
  function FindFrom(s: string, pat: string, k: nat): (r: Option<nat>)
    ensures r.Some? ==> k <= r.value && OccursAt(s, pat, r.value)
    ensures r.Some? ==> forall j :: k <= j < r.value ==> !OccursAt(s, pat, j)
    ensures r.None? ==> forall j :: k <= j ==> !OccursAt(s, pat, j)
    decreases |s| - k
  {
    if k + |pat| > |s| then None
    else if s[k..k + |pat|] == pat then Some(k)
    else FindFrom(s, pat, k + 1)
  }

  /** The index of the first occurrence of `pat` in `s`, if there is one. */
  function Find(s: string, pat: string): (r: Option<nat>)
    ensures r.Some? <==> Contains(s, pat)
    ensures r.Some? ==> OccursAt(s, pat, r.value) && NoneBefore(s, pat, r.value)
  {
    FindFrom(s, pat, 0)
  }

  /** A first occurrence is found where it is. */
  lemma FindFirst(s: string, pat: string, i: nat)
    requires OccursAt(s, pat, i) && NoneBefore(s, pat, i)
    ensures Find(s, pat) == Some(i)
  {
    assert Contains(s, pat);
  }

  /** An occurrence inside an infix is an occurrence in the whole text, so
      a text in which `pat` occurs nowhere has no occurrence in any infix. */
  lemma InfixContains(r: string, s: string, pat: string)
    requires IsInfix(r, s)
    ensures Contains(r, pat) ==> Contains(s, pat)
  {
    if Contains(r, pat) {
      var lo :| InfixAt(r, s, lo);
      var j :| OccursAt(r, pat, j);
      assert forall k :: 0 <= k < |r| ==> r[k] == s[lo + k];
      var a, b := s[lo + j..lo + j + |pat|], r[j..j + |pat|];
      assert forall k :: 0 <= k < |pat| ==> a[k] == b[k];
      assert a == b;
      assert OccursAt(s, pat, lo + j);
    }
  }

  /** JavaScript `s.split(pat)[0]` for a non-empty literal `pat`: the text
      before the first occurrence, or all of `s` when there is none. */
  function Before(s: string, pat: string): (r: string)
    requires |pat| > 0
    ensures r <= s
    ensures !Contains(r, pat)
    ensures Contains(s, pat) ==> OccursAt(s, pat, |r|) && NoneBefore(s, pat, |r|)
    ensures !Contains(s, pat) ==> r == s
  {
    match Find(s, pat)
    case None => s
    case Some(i) =>
      var r := s[..i];
      assert !Contains(r, pat) by {
        if j :| OccursAt(r, pat, j) {
          assert s[j..j + |pat|] == r[j..j + |pat|];
          assert OccursAt(s, pat, j);
        }
      }
      r
  }

  /** The text after the first occurrence of `pat`, or `None` when `pat`
      does not occur; with `Before` it splits `s` back into its parts. */
  function After(s: string, pat: string): (r: Option<string>)
    requires |pat| > 0
    ensures r.Some? <==> Contains(s, pat)
    ensures r.Some? ==> s == Before(s, pat) + pat + r.value
  {
    match Find(s, pat)
    case None => None
    case Some(i) =>
      assert s == s[..i] + s[i..i + |pat|] + s[i + |pat|..];
      Some(s[i + |pat|..])
  }

  /** Splitting `pre + pat + post` at its first `pat` gives back `post`, when
      no occurrence of `pat` begins inside `pre`. */
  lemma AfterDecomposes(pre: string, pat: string, post: string)
    requires |pat| > 0
    requires NoneBefore(pre + pat, pat, |pre|)
    ensures Before(pre + pat + post, pat) == pre
    ensures After(pre + pat + post, pat) == Some(post)
  {
    var s := pre + pat + post;
    assert s[|pre|..|pre| + |pat|] == pat;
    forall j | 0 <= j < |pre|
      ensures !OccursAt(s, pat, j)
    {
      if OccursAt(s, pat, j) {
        assert (pre + pat)[j..j + |pat|] == s[j..j + |pat|];
        assert OccursAt(pre + pat, pat, j);
      }
    }
    FindFirst(s, pat, |pre|);
    assert s[..|pre|] == pre;
    assert s[|pre| + |pat|..] == post;
  }

  /* ---------------------------------------------------------------- */
  /* Splitting on one character and joining back                       */
  /* ---------------------------------------------------------------- */

  /** JavaScript `s.split(c)` for a one-character separator: always at least
      one piece, and `""` gives `[""]`. */
  function SplitOn(s: string, c: char): (r: seq<string>)
    ensures |r| >= 1
    ensures forall k :: 0 <= k < |r| ==> c !in r[k]
    decreases |s|
  {
    if |s| == 0 then [""]
    else if s[0] == c then [""] + SplitOn(s[1..], c)
    else
      var rest := SplitOn(s[1..], c);
      [[s[0]] + rest[0]] + rest[1..]
  }

  /** JavaScript `parts.join(c)`: `[]` joins to `""`. */
  function Join(parts: seq<string>, c: char): (r: string)
    ensures |parts| > 0 ==> parts[0] <= r
    ensures forall k :: 0 <= k < |parts| ==> IsInfix(parts[k], r)
  {
    if |parts| == 0 then ""
    else if |parts| == 1 then
      PrefixIsInfix(parts[0], parts[0]);
      parts[0]
    else
      var rest := Join(parts[1..], c);
      var r := parts[0] + [c] + rest;
      PrefixIsInfix(parts[0], r);
      SuffixIsInfix(r, |parts[0]| + 1);
      assert r[|parts[0]| + 1..] == rest;
      assert forall k :: 1 <= k < |parts| ==> IsInfix(parts[k], rest) by {
        assert forall k :: 1 <= k < |parts| ==> parts[k] == parts[1..][k - 1];
      }
      forall k | 1 <= k < |parts|
        ensures IsInfix(parts[k], r)
      {
        InfixTrans(parts[k], rest, r);
      }
      r
  }

  /** Joining the pieces of a split restores the text. */
  lemma {:induction false} JoinSplit(s: string, c: char)
    ensures Join(SplitOn(s, c), c) == s
    decreases |s|
  {
    if |s| == 0 {
    } else if s[0] == c {
      var rest := SplitOn(s[1..], c);
      JoinSplit(s[1..], c);
      assert ([""] + rest)[1..] == rest;
    } else {
      var rest := SplitOn(s[1..], c);
      JoinSplit(s[1..], c);
      var r := [[s[0]] + rest[0]] + rest[1..];
      if |rest| == 1 {
        assert r == [[s[0]] + rest[0]];
      } else {
        assert r[1..] == rest[1..];
        assert Join(rest, c) == rest[0] + [c] + Join(rest[1..], c);
      }
    }
  }

  /** A text without the separator splits into itself alone. */
  lemma {:induction false} SplitFree(s: string, c: char)
    requires c !in s
    ensures SplitOn(s, c) == [s]
    decreases |s|
  {
    if |s| > 0 {
      assert c !in s[1..];
      SplitFree(s[1..], c);
      assert [s[0]] + s[1..] == s;
    }
  }

  /** The first separator of `a + [c] + rest` closes the first piece `a`. */
  lemma {:induction false} SplitFirstPiece(a: string, c: char, rest: string)
    requires c !in a
    ensures SplitOn(a + [c] + rest, c) == [a] + SplitOn(rest, c)
    decreases |a|
  {
    var s := a + [c] + rest;
    if |a| == 0 {
      assert s[1..] == rest;
    } else {
      assert s[0] == a[0];
      assert s[1..] == a[1..] + [c] + rest;
      assert c !in a[1..];
      SplitFirstPiece(a[1..], c, rest);
      assert [a[0]] + a[1..] == a;
    }
  }

  /** Splitting a join gives the pieces back, provided none of them holds the
      separator and there is at least one piece. */
  lemma {:induction false} SplitJoin(parts: seq<string>, c: char)
    requires |parts| >= 1
    requires forall k :: 0 <= k < |parts| ==> c !in parts[k]
    ensures SplitOn(Join(parts, c), c) == parts
    decreases |parts|
  {
    if |parts| == 1 {
      SplitFree(parts[0], c);
    } else {
      SplitJoin(parts[1..], c);
      SplitFirstPiece(parts[0], c, Join(parts[1..], c));
      assert [parts[0]] + parts[1..] == parts;
    }
  }

  /* ---------------------------------------------------------------- */
  /* JavaScript String.prototype.trim                                  */
  /* ---------------------------------------------------------------- */

  /** The characters `trim` removes: ECMAScript WhiteSpace (tab, vertical
      tab, form feed, space, no-break space, byte-order mark and every other
      space separator) and LineTerminator (line feed, carriage return, line
      and paragraph separators). */
  predicate IsSpace(ch: char)
  {
    || ch == '\t' || ch == '\n' || ch == '\U{000B}' || ch == '\U{000C}' || ch == '\r'
    || ch == ' ' || ch == '\U{00A0}' || ch == '\U{1680}'
    || ('\U{2000}' <= ch <= '\U{200A}')
    || ch == '\U{2028}' || ch == '\U{2029}' || ch == '\U{202F}' || ch == '\U{205F}'
    || ch == '\U{3000}' || ch == '\U{FEFF}'
  }

  /** Neither end of `s` is a space character. */
  predicate IsTrimmed(s: string)
  {
    |s| == 0 || (!IsSpace(s[0]) && !IsSpace(s[|s| - 1]))
  }

  function TrimStart(s: string): (r: string)
    ensures |r| <= |s| && r == s[|s| - |r|..]
    ensures forall i :: 0 <= i < |s| - |r| ==> IsSpace(s[i])
    ensures |r| == 0 || !IsSpace(r[0])
    decreases |s|
  {
    if |s| > 0 && IsSpace(s[0]) then TrimStart(s[1..]) else s
  }

  function TrimEnd(s: string): (r: string)
    ensures r <= s
    ensures forall i :: |r| <= i < |s| ==> IsSpace(s[i])
    ensures |r| == 0 || !IsSpace(r[|r| - 1])
    decreases |s|
  {
    if |s| > 0 && IsSpace(s[|s| - 1]) then TrimEnd(s[..|s| - 1]) else s
  }

  /** `s.trim()`: the longest middle stretch of `s` whose ends are not
      spaces, everything cut off on either side being space. */
  function Trim(s: string): (r: string)
    ensures IsTrimmed(r)
    ensures exists lo ::
              && InfixAt(r, s, lo)
              && (forall i :: 0 <= i < lo ==> IsSpace(s[i]))
              && (forall i :: lo + |r| <= i < |s| ==> IsSpace(s[i]))
  {
    var t := TrimStart(s);
    var r := TrimEnd(t);
    var lo := |s| - |t|;
    TrimBounds(s, t, r);
    assert |r| > 0 ==> r[0] == t[0];
    assert InfixAt(r, s, lo)
        && (forall i :: 0 <= i < lo ==> IsSpace(s[i]))
        && (forall i :: lo + |r| <= i < |s| ==> IsSpace(s[i]));
    r
  }

  /** The two halves of `Trim` fit together: what `TrimEnd` keeps of what
      `TrimStart` kept is a stretch of `s` with only spaces around it. */
  lemma TrimBounds(s: string, t: string, r: string)
    requires |t| <= |s| && t == s[|s| - |t|..]
    requires forall i :: 0 <= i < |s| - |t| ==> IsSpace(s[i])
    requires r <= t
    requires forall i :: |r| <= i < |t| ==> IsSpace(t[i])
    ensures InfixAt(r, s, |s| - |t|)
    ensures forall i :: |s| - |t| + |r| <= i < |s| ==> IsSpace(s[i])
  {
    var lo := |s| - |t|;
    assert s[lo..lo + |r|] == t[..|r|];
    forall i | lo + |r| <= i < |s|
      ensures IsSpace(s[i])
    {
      assert s[i] == t[i - lo];
    }
  }

  /** A text that is already trimmed is left alone, so trimming twice is the
      same as trimming once. */
  lemma TrimTrimmed(s: string)
    requires IsTrimmed(s)
    ensures Trim(s) == s
  {
    assert TrimStart(s) == s;
    assert TrimEnd(s) == s;
  }

  /** Space around a text does not reach what `Trim` keeps of it. */
  lemma TrimIgnoresSpace(lead: string, s: string, trail: string)
    requires forall i :: 0 <= i < |lead| ==> IsSpace(lead[i])
    requires forall i :: 0 <= i < |trail| ==> IsSpace(trail[i])
    ensures Trim(lead + s + trail) == Trim(s)
  {
    assert lead + s + trail == lead + (s + trail);
    TrimStartSkips(lead, s + trail);
    TrimStartKeeps(s, trail);
    if TrimStart(s + trail) == TrimStart(s) + trail {
      TrimEndSkips(TrimStart(s), trail);
    }
  }

  lemma {:induction false} TrimStartSkips(lead: string, s: string)
    requires forall i :: 0 <= i < |lead| ==> IsSpace(lead[i])
    ensures TrimStart(lead + s) == TrimStart(s)
    decreases |lead|
  {
    if |lead| > 0 {
      assert (lead + s)[1..] == lead[1..] + s;
      TrimStartSkips(lead[1..], s);
    } else {
      assert lead + s == s;
    }
  }

  /** Space appended to `s` stays behind what `TrimStart` keeps of `s`,
      or is all that is left when `s` is all space. */
  lemma {:induction false} TrimStartKeeps(s: string, trail: string)
    requires forall i :: 0 <= i < |trail| ==> IsSpace(trail[i])
    ensures || TrimStart(s + trail) == TrimStart(s) + trail
            || (TrimStart(s) == [] && TrimStart(s + trail) == [])
    decreases |s|
  {
    if |s| > 0 {
      assert (s + trail)[0] == s[0];
      if IsSpace(s[0]) {
        assert (s + trail)[1..] == s[1..] + trail;
        TrimStartKeeps(s[1..], trail);
      }
    } else {
      assert s + trail == trail + [];
      TrimStartSkips(trail, []);
    }
  }

  lemma {:induction false} TrimEndSkips(t: string, trail: string)
    requires forall i :: 0 <= i < |trail| ==> IsSpace(trail[i])
    ensures TrimEnd(t + trail) == TrimEnd(t)
    decreases |trail|
  {
    if |trail| > 0 {
      var u := trail[..|trail| - 1];
      assert (t + trail)[..|t + trail| - 1] == t + u;
      TrimEndSkips(t, u);
    } else {
      assert t + trail == t;
    }
  }

  lemma TrimIdempotent(s: string)
    ensures Trim(Trim(s)) == Trim(s)
  {
    TrimTrimmed(Trim(s));
  }
}
