/**
 * The JavaScript string built-ins that `preferH264` relies on, on `seq<char>`:
 * `includes`, `startsWith`, `split` with a non-empty string separator and
 * `Array.prototype.join`, together with the facts about them that the
 * rewrite's properties need (splitting and joining are inverse to each other).
 */
module Strings {
  import opened Wrappers

  /** `pat` occurs in `s` starting at index `k`. */
  predicate OccursAt(s: string, pat: string, k: nat) {
    k + |pat| <= |s| && s[k..k + |pat|] == pat
  }

  /** `s.includes(pat)`. */
  predicate Contains(s: string, pat: string) {
    exists k: nat :: k <= |s| && OccursAt(s, pat, k)
  }

  /** `s.startsWith(pre)`. */
  predicate StartsWith(s: string, pre: string) {
    |pre| <= |s| && s[..|pre|] == pre
  }

  /** The first index at or after `from` where `pat` occurs in `s`. */
  function FindFrom(s: string, pat: string, from: nat): (r: Option<nat>)
    requires from <= |s|
    decreases |s| - from
    ensures r.Some? ==> from <= r.value && OccursAt(s, pat, r.value)
    ensures r.Some? ==> forall k: nat :: from <= k < r.value ==> !OccursAt(s, pat, k)
    ensures r.None? ==> forall k: nat :: from <= k ==> !OccursAt(s, pat, k)
  {
    if from + |pat| > |s| then None
    else if OccursAt(s, pat, from) then Some(from)
    else FindFrom(s, pat, from + 1)
  }

  /** The first index where `pat` occurs in `s`, if any. */
  function Find(s: string, pat: string): (r: Option<nat>)
    ensures r.Some? ==> OccursAt(s, pat, r.value)
    ensures r.Some? ==> forall k: nat :: k < r.value ==> !OccursAt(s, pat, k)
    ensures r.None? <==> !Contains(s, pat)
  {
    FindFrom(s, pat, 0)
  }

  /** Any occurrence bounds the first one from above. */
  lemma FindIsFirst(s: string, pat: string, k: nat)
    requires OccursAt(s, pat, k)
    requires forall j: nat :: j < k ==> !OccursAt(s, pat, j)
    ensures Find(s, pat) == Some(k)
  {
    assert Contains(s, pat);
  }

  /**
   * `s.split(sep)` for a non-empty separator: the pieces between the
   * left-to-right, non-overlapping occurrences of `sep`.
   */
  function Split(s: string, sep: string): (parts: seq<string>)
    requires |sep| > 0
    decreases |s|
    ensures |parts| >= 1
    ensures forall i :: 0 <= i < |parts| ==> !Contains(parts[i], sep)
  {
    match Find(s, sep)
    case None => [s]
    case Some(i) =>
      PrefixHasNoEarlierOccurrence(s, sep, i);
      [s[..i]] + Split(s[i + |sep|..], sep)
  }

  /** Before the first occurrence of `sep`, `s` does not contain it. */
  lemma PrefixHasNoEarlierOccurrence(s: string, sep: string, i: nat)
    requires |sep| > 0 && Find(s, sep) == Some(i)
    ensures !Contains(s[..i], sep)
  {
    forall k: nat | k <= i
      ensures !OccursAt(s[..i], sep, k)
    {
      if k + |sep| <= i {
        assert s[..i][k..k + |sep|] == s[k..k + |sep|];
        assert !OccursAt(s, sep, k);
      }
    }
  }

  /** `parts.join(sep)`. */
  function Join(parts: seq<string>, sep: string): (s: string)
    ensures |parts| == 1 ==> s == parts[0]
  {
    if |parts| == 0 then ""
    else if |parts| == 1 then parts[0]
    else parts[0] + sep + Join(parts[1..], sep)
  }

  /** Joining the pieces of a split with the same separator gives back the input. */
  lemma {:induction false} JoinSplit(s: string, sep: string)
    requires |sep| > 0
    ensures Join(Split(s, sep), sep) == s
    decreases |s|
  {
    if Find(s, sep).Some? {
      var i := Find(s, sep).value;
      var rest := s[i + |sep|..];
      var parts := Split(s, sep);
      JoinSplit(rest, sep);
      assert parts == [s[..i]] + Split(rest, sep);
      assert parts[1..] == Split(rest, sep);
      assert Join(parts, sep) == s[..i] + sep + Join(Split(rest, sep), sep);
      assert s == s[..i] + s[i..i + |sep|] + rest;
    }
  }

  /** `sep` never overlaps itself: no proper suffix of it is also a prefix. */
  predicate Unbordered(sep: string) {
    forall d :: 0 < d < |sep| ==> sep[d..] != sep[..|sep| - d]
  }

  /** The first occurrence of an unbordered `sep` in `a + sep + b` is right after `a`. */
  lemma FirstOccurrenceAfterPiece(a: string, sep: string, b: string)
    requires |sep| > 0 && Unbordered(sep) && !Contains(a, sep)
    ensures Find(a + sep + b, sep) == Some(|a|)
  {
    var s := a + sep + b;
    assert s[|a|..|a| + |sep|] == sep;
    forall k: nat | k < |a|
      ensures !OccursAt(s, sep, k)
    {
      if k + |sep| <= |a| {
        assert a[k..k + |sep|] == s[k..k + |sep|];
        assert !OccursAt(a, sep, k);
      } else {
        var d := |a| - k;
        assert s[k..k + |sep|][d..] == s[|a|..k + |sep|] == sep[..|sep| - d];
        assert sep[d..] != sep[..|sep| - d];
      }
    }
    FindIsFirst(s, sep, |a|);
  }

  /** Splitting the join of pieces that do not contain `sep` gives back the pieces. */
  lemma {:induction false} SplitJoin(parts: seq<string>, sep: string)
    requires |parts| >= 1 && |sep| > 0 && Unbordered(sep)
    requires forall i :: 0 <= i < |parts| ==> !Contains(parts[i], sep)
    ensures Split(Join(parts, sep), sep) == parts
    decreases |parts|
  {
    if |parts| == 1 {
      assert Find(parts[0], sep).None?;
    } else {
      var rest := Join(parts[1..], sep);
      assert Join(parts, sep) == parts[0] + sep + rest;
      SplitAfterPiece(parts[0], sep, rest);
      SplitJoin(parts[1..], sep);
      assert parts == [parts[0]] + parts[1..];
    }
  }

  /** Splitting `a + sep + b` cuts off `a` first when `a` lacks an unbordered `sep`. */
  lemma SplitAfterPiece(a: string, sep: string, b: string)
    requires |sep| > 0 && Unbordered(sep) && !Contains(a, sep)
    ensures Split(a + sep + b, sep) == [a] + Split(b, sep)
  {
    var s := a + sep + b;
    FirstOccurrenceAfterPiece(a, sep, b);
    assert s[..|a|] == a;
    assert s[|a| + |sep|..] == b;
  }

  /** A string that lacks `q` has no prefix or suffix that contains `q`. */
  lemma SliceAvoids(s: string, q: string, i: nat, j: nat)
    requires i <= j <= |s| && !Contains(s, q)
    ensures !Contains(s[i..j], q)
  {
    forall k: nat | k <= j - i
      ensures !OccursAt(s[i..j], q, k)
    {
      if k + |q| <= j - i {
        var w := s[i..j][k..k + |q|];
        forall t | 0 <= t < |q|
          ensures w[t] == s[i + k..i + k + |q|][t]
        {
          assert w[t] == s[i + k + t];
        }
        assert w == s[i + k..i + k + |q|];
        assert !OccursAt(s, q, i + k);
      }
    }
  }

  /** The pieces of a string that lacks `q` lack `q` as well. */
  lemma {:induction false} SplitAvoids(s: string, sep: string, q: string)
    requires |sep| > 0 && !Contains(s, q)
    ensures forall i :: 0 <= i < |Split(s, sep)| ==> !Contains(Split(s, sep)[i], q)
    decreases |s|
  {
    match Find(s, sep)
    case None =>
    case Some(i) =>
      var rest := s[i + |sep|..];
      SliceAvoids(s, q, 0, i);
      assert s[..i] == s[0..i];
      SliceAvoids(s, q, i + |sep|, |s|);
      assert rest == s[i + |sep|..|s|];
      SplitAvoids(rest, sep, q);
      assert Split(s, sep) == [s[..i]] + Split(rest, sep);
  }

  /**
   * Joining with a one-character separator `c` creates no occurrence of a
   * non-empty `q` that does not mention `c`.
   */
  lemma {:induction false} JoinAvoids(parts: seq<string>, c: char, q: string)
    requires |q| > 0 && c !in q
    requires forall i :: 0 <= i < |parts| ==> !Contains(parts[i], q)
    ensures !Contains(Join(parts, [c]), q)
    decreases |parts|
  {
    if |parts| > 1 {
      JoinAvoids(parts[1..], c, q);
      ConcatAvoids(parts[0], c, Join(parts[1..], [c]), q);
    }
  }

  /** `a + [c] + b` lacks `q` when `a` and `b` do and `q` does not mention `c`. */
  lemma ConcatAvoids(a: string, c: char, b: string, q: string)
    requires |q| > 0 && c !in q && !Contains(a, q) && !Contains(b, q)
    ensures !Contains(a + [c] + b, q)
  {
    var s := a + [c] + b;
    forall k: nat | k <= |s| && k + |q| <= |s|
      ensures !OccursAt(s, q, k)
    {
      if k + |q| <= |a| {
        assert a[k..k + |q|] == s[k..k + |q|];
        assert !OccursAt(a, q, k);
      } else if k <= |a| {
        assert s[k..k + |q|][|a| - k] == c;
        assert q[|a| - k] in q;
      } else {
        assert b[k - |a| - 1..k - |a| - 1 + |q|] == s[k..k + |q|];
        assert !OccursAt(b, q, k - |a| - 1);
      }
    }
  }

  /** The joined string begins with the first piece. */
  lemma JoinStartsWithHead(parts: seq<string>, sep: string)
    requires |parts| >= 1
    ensures StartsWith(Join(parts, sep), parts[0])
  {
    if |parts| > 1 {
      assert Join(parts, sep)[..|parts[0]|] == parts[0];
    }
  }

  /**
   * The first piece of a split by a one-character separator keeps a prefix of
   * the input that does not mention the separator.
   */
  lemma SplitHeadKeepsPrefix(s: string, c: char, pre: string)
    requires StartsWith(s, pre) && c !in pre
    ensures StartsWith(Split(s, [c])[0], pre)
  {
    forall k: nat | k < |pre|
      ensures !OccursAt(s, [c], k)
    {
      assert s[k] == s[..|pre|][k] == pre[k];
      assert s[k..k + 1][0] == s[k];
    }
    match Find(s, [c])
    case None =>
    case Some(i) =>
      assert s[..i][..|pre|] == s[..|pre|];
  }
}
