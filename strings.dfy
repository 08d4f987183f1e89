/** Substring search on strings, with Python's meaning of `d in s` and of the
    leftmost-first scan that `str.find` and `str.split` perform. */
module Strings {

  datatype Option<+T> = None | Some(value: T)

  /** `d` occurs in `s` starting at index `j`. */
  predicate OccursAt(s: string, d: string, j: nat) {
    j + |d| <= |s| && s[j..j + |d|] == d
  }

  /** Python's `d in s` for strings: the empty string is in every string,
      and no string is in a shorter one. */
  predicate Contains(s: string, d: string)
    ensures |d| == 0 ==> Contains(s, d)
    ensures |d| > |s| ==> !Contains(s, d)
  {
    assert |d| == 0 ==> OccursAt(s, d, 0);
    exists j: nat | j <= |s| :: OccursAt(s, d, j)
  }

  /** Python's `s.find(d, i)`: the least index at or after `i` at which `d` occurs. */
  function Find(s: string, d: string, i: nat): (r: Option<nat>)
    decreases |s| - i
    ensures r.Some? ==> i <= r.value && OccursAt(s, d, r.value)
    ensures r.Some? ==> forall j: nat :: i <= j < r.value ==> !OccursAt(s, d, j)
    ensures r.None? ==> forall j: nat :: i <= j ==> !OccursAt(s, d, j)
  {
    if i + |d| > |s| then None
    else if OccursAt(s, d, i) then Some(i)
    else Find(s, d, i + 1)
  }

  /** The number of positions at or after `i` at which `d` occurs (overlaps included). */
  function CountFrom(s: string, d: string, i: nat): nat
    decreases |s| - i
  {
    if i + |d| > |s| then 0
    else (if OccursAt(s, d, i) then 1 else 0) + CountFrom(s, d, i + 1)
  }

  /** The number of occurrences of `d` in `s`. */
  function Occurrences(s: string, d: string): nat {
    CountFrom(s, d, 0)
  }

  /** A proper suffix of `d` of length |d| - m is also a prefix of `d`:
      two occurrences of `d` that start m apart can overlap. */
  predicate SelfOverlapAt(d: string, m: nat) {
    0 < m < |d| && d[m..] == d[..|d| - m]
  }

  /** No two occurrences of `d` can overlap. */
  ghost predicate BorderFree(d: string) {
    forall m: nat :: !SelfOverlapAt(d, m)
  }

  /** `Find` returns an occurrence that nothing before it precedes. */
  lemma FindLeast(s: string, d: string, i: nat, k: nat)
    requires i <= k && OccursAt(s, d, k)
    requires forall j: nat :: i <= j < k ==> !OccursAt(s, d, j)
    ensures Find(s, d, i) == Some(k)
  {
    match Find(s, d, i)
    case None =>
    case Some(k') =>
      if k' < k {
      } else if k < k' {
      }
  }

  /** `d in s` holds exactly when `s.find(d)` finds something. */
  lemma ContainsIffFound(s: string, d: string)
    ensures Contains(s, d) <==> Find(s, d, 0).Some?
  {
    if Find(s, d, 0).Some? {
      assert OccursAt(s, d, Find(s, d, 0).value);
    }
  }

  /** Two occurrences of `d` less than |d| apart imply that `d` overlaps itself. */
  lemma Overlap(s: string, d: string, k: nat, m: nat)
    requires OccursAt(s, d, k) && OccursAt(s, d, k + m) && 0 < m < |d|
    ensures SelfOverlapAt(d, m)
  {
    calc {
      d[m..];
      s[k..k + |d|][m..];
      s[k + m..k + |d|];
      s[k + m..k + m + |d|][..|d| - m];
      d[..|d| - m];
    }
  }

  /** A string in which some character of `d` never appears does not contain `d`. */
  lemma MissingChar(s: string, d: string, c: char)
    requires c in d && c !in s
    ensures !Contains(s, d)
  {
  }

  /** Every string contains itself. */
  lemma ContainsSelf(s: string)
    ensures Contains(s, s)
  {
    assert OccursAt(s, s, 0);
  }

  /** An occurrence in a part is an occurrence in the whole. */
  lemma ContainsConcat(a: string, b: string, d: string)
    ensures Contains(a, d) ==> Contains(a + b, d)
    ensures Contains(b, d) ==> Contains(a + b, d)
  {
    if j: nat :| OccursAt(a, d, j) {
      assert (a + b)[j..j + |d|] == a[j..j + |d|];
      assert OccursAt(a + b, d, j);
    }
    if j: nat :| OccursAt(b, d, j) {
      assert (a + b)[|a| + j..|a| + j + |d|] == b[j..j + |d|];
      assert OccursAt(a + b, d, |a| + j);
    }
  }

  /** No occurrence in a range leaves the count unchanged across it. */
  lemma CountSkip(s: string, d: string, i: nat, k: nat)
    requires i <= k
    requires forall j: nat :: i <= j < k ==> !OccursAt(s, d, j)
    ensures CountFrom(s, d, i) == CountFrom(s, d, k)
    decreases k - i
  {
    if i < k && i + |d| <= |s| {
      CountSkip(s, d, i + 1, k);
    }
  }

  /** Counting from `k + i` in `s` is counting from `i` in `s[k..]`. */
  lemma {:induction false} CountShift(s: string, d: string, k: nat, i: nat)
    requires k <= |s|
    ensures CountFrom(s, d, k + i) == CountFrom(s[k..], d, i)
    decreases |s| - k - i
  {
    if k + i + |d| <= |s| {
      assert s[k..][i..i + |d|] == s[k + i..k + i + |d|];
      assert OccursAt(s, d, k + i) == OccursAt(s[k..], d, i);
      CountShift(s, d, k, i + 1);
    }
  }
}
