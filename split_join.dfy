/** Python's `s.split(d)` with an explicit separator, `d.join(parts)`, and
    slicing a list with `[:n]`. */
module SplitJoin {
  import opened Strings

  /** `s.split(d)`: the pieces between successive leftmost, non-overlapping
      occurrences of `d`. Python rejects an empty separator. */
  function Split(s: string, d: string): (parts: seq<string>)
    requires |d| > 0
    decreases |s|
    ensures |parts| >= 1
    ensures forall p | p in parts :: !Contains(p, d)
  {
    match Find(s, d, 0)
    case None => [s]
    case Some(k) =>
      assert forall j: nat :: OccursAt(s[..k], d, j) ==> j < k && OccursAt(s, d, j) by {
        forall j: nat | OccursAt(s[..k], d, j) ensures j < k && OccursAt(s, d, j) {
          assert s[..k][j..j + |d|] == s[j..j + |d|];
        }
      }
      [s[..k]] + Split(s[k + |d|..], d)
  }

  /** `d.join(parts)`: it starts with the first piece and ends with the last. */
  function Join(parts: seq<string>, d: string): (r: string)
    ensures |parts| >= 1 ==> parts[0] <= r
  {
    if |parts| == 0 then ""
    else if |parts| == 1 then parts[0]
    else parts[0] + d + Join(parts[1..], d)
  }

  /** `parts[:n]`: the longest prefix of `parts` with at most `n` elements. */
  function Take(parts: seq<string>, n: nat): (r: seq<string>)
    ensures |r| <= n && r <= parts
    ensures |parts| <= n ==> r == parts
    ensures |parts| > n ==> |r| == n
  {
    if |parts| <= n then parts else parts[..n]
  }

  /** Joining a piece in front of at least one other puts the separator between them. */
  lemma JoinCons(p: string, t: seq<string>, d: string)
    requires |t| >= 1
    ensures Join([p] + t, d) == p + d + Join(t, d)
  {
    assert ([p] + t)[1..] == t;
  }

  /** Splitting at the first occurrence `k`: the first piece ends at `k` and
      the rest is split after the separator. */
  lemma SplitAt(s: string, d: string, k: nat)
    requires |d| > 0 && Find(s, d, 0) == Some(k)
    ensures k + |d| <= |s| && s[k..k + |d|] == d
    ensures Split(s, d) == [s[..k]] + Split(s[k + |d|..], d)
    ensures s == s[..k] + d + s[k + |d|..]
  {
    CutAt(s, d, k);
  }

  /** A string is what comes before an occurrence, the occurrence, and what follows. */
  lemma CutAt(s: string, d: string, k: nat)
    requires OccursAt(s, d, k)
    ensures s == s[..k] + d + s[k + |d|..]
  {
    assert s == s[..k] + s[k..k + |d|] + s[k + |d|..];
  }

  /** Joining the pieces with the separator gives back the string. */
  lemma {:induction false} JoinOfSplit(s: string, d: string)
    requires |d| > 0
    ensures Join(Split(s, d), d) == s
    decreases |s|
  {
    var f := Find(s, d, 0);
    if f.Some? {
      var k := f.value;
      var rest := s[k + |d|..];
      SplitAt(s, d, k);
      JoinOfSplit(rest, d);
      JoinCons(s[..k], Split(rest, d), d);
    }
  }

  /** Splitting a join gives back the pieces, provided no piece holds the
      separator and the separator cannot overlap itself. */
  lemma {:induction false} SplitOfJoin(parts: seq<string>, d: string)
    requires |d| > 0 && BorderFree(d) && |parts| >= 1
    requires forall p | p in parts :: !Contains(p, d)
    ensures Split(Join(parts, d), d) == parts
  {
    var p0 := parts[0];
    if |parts| == 1 {
      ContainsIffFound(p0, d);
    } else {
      var rest := Join(parts[1..], d);
      var s := p0 + d + rest;
      assert s[|p0|..|p0| + |d|] == d;
      assert !Contains(p0, d);
      forall j: nat | j < |p0|
        ensures !OccursAt(s, d, j)
      {
        NotBeforeSeparator(p0, d, rest, j);
      }
      FindLeast(s, d, 0, |p0|);
      SplitAt(s, d, |p0|);
      assert s[..|p0|] == p0;
      assert s[|p0| + |d|..] == rest;
      SplitOfJoin(parts[1..], d);
      assert parts == [p0] + parts[1..];
    }
  }

  /** In a piece free of the separator followed by the separator, no
      occurrence starts inside the piece. */
  lemma NotBeforeSeparator(p: string, d: string, rest: string, j: nat)
    requires BorderFree(d) && !Contains(p, d) && j < |p|
    ensures !OccursAt(p + d + rest, d, j)
  {
    var s := p + d + rest;
    if j + |d| <= |p| {
      assert s[j..j + |d|] == p[j..j + |d|];
      assert !OccursAt(p, d, j);
    } else if OccursAt(s, d, j) {
      assert s[|p|..|p| + |d|] == d;
      Overlap(s, d, j, |p| - j);
    }
  }

  /** With a separator that cannot overlap itself, no occurrence starts
      inside another one. */
  lemma NoOccurrenceInside(s: string, d: string, k: nat)
    requires BorderFree(d) && OccursAt(s, d, k)
    ensures forall j: nat :: k < j < k + |d| ==> !OccursAt(s, d, j)
  {
    forall j: nat | k < j < k + |d|
      ensures !OccursAt(s, d, j)
    {
      if OccursAt(s, d, j) {
        Overlap(s, d, k, j - k);
        assert false;
      }
    }
  }

  /** With a separator that cannot overlap itself, the first occurrence is
      followed by exactly the occurrences in the text after it. */
  lemma CountAtFirst(s: string, d: string, k: nat)
    requires |d| > 0 && BorderFree(d) && OccursAt(s, d, k)
    requires forall j: nat :: j < k ==> !OccursAt(s, d, j)
    ensures Occurrences(s, d) == 1 + Occurrences(s[k + |d|..], d)
  {
    calc {
      Occurrences(s, d);
    == { CountSkip(s, d, 0, k); }
      CountFrom(s, d, k);
    == // the occurrence at k itself
      1 + CountFrom(s, d, k + 1);
    == { NoOccurrenceInside(s, d, k); CountSkip(s, d, k + 1, k + |d|); }
      1 + CountFrom(s, d, k + |d|);
    == { CountShift(s, d, k + |d|, 0); }
      1 + Occurrences(s[k + |d|..], d);
    }
  }

  /** With a separator that cannot overlap itself, splitting yields one more
      piece than there are occurrences of the separator. */
  lemma {:induction false} PiecesCount(s: string, d: string)
    requires |d| > 0 && BorderFree(d)
    ensures |Split(s, d)| == Occurrences(s, d) + 1
    decreases |s|
  {
    var f := Find(s, d, 0);
    if f.None? {
      CountSkip(s, d, 0, |s| + 1);
    } else {
      var k := f.value;
      SplitAt(s, d, k);
      CountAtFirst(s, d, k);
      PiecesCount(s[k + |d|..], d);
    }
  }

  /** Joining two non-empty lists of pieces puts the separator between their joins. */
  lemma {:induction false} JoinAppend(a: seq<string>, b: seq<string>, d: string)
    requires |a| >= 1 && |b| >= 1
    ensures Join(a + b, d) == Join(a, d) + d + Join(b, d)
  {
    if |a| == 1 {
      JoinCons(a[0], b, d);
    } else {
      JoinAppend(a[1..], b, d);
      assert a + b == [a[0]] + (a[1..] + b);
      JoinCons(a[0], a[1..] + b, d);
      JoinCons(a[0], a[1..], d);
      assert a == [a[0]] + a[1..];
    }
  }

  /** Cutting the pieces after the `n`-th: the string is the join of the
      first `n`, the separator, then the join of the rest. */
  lemma JoinSplitCut(s: string, d: string, n: nat)
    requires |d| > 0 && 1 <= n < |Split(s, d)|
    ensures s == Join(Take(Split(s, d), n), d) + d + Join(Split(s, d)[n..], d)
  {
    var parts := Split(s, d);
    JoinOfSplit(s, d);
    assert parts == parts[..n] + parts[n..];
    JoinAppend(parts[..n], parts[n..], d);
  }
}
