/**
 * Counting over integer sequences: how often a value occurs, and how many
 * entries lie below a bound. These are the specification functions of the
 * spatial hash's counting sort and of the mesh adjacency lists.
 */
module Counting {

  /** Number of positions of `s` holding `b`. */
  function Occ(s: seq<int>, b: int): nat {
    if s == [] then 0 else (if s[0] == b then 1 else 0) + Occ(s[1..], b)
  }

  /** Number of positions of `s` holding a value smaller than `b`. */
  function Below(s: seq<int>, b: int): nat {
    if s == [] then 0 else (if s[0] < b then 1 else 0) + Below(s[1..], b)
  }

  lemma {:induction false} OccConcat(a: seq<int>, c: seq<int>, b: int)
    ensures Occ(a + c, b) == Occ(a, b) + Occ(c, b)
  {
    if a != [] {
      assert (a + c)[1..] == a[1..] + c;
      OccConcat(a[1..], c, b);
    } else {
      assert a + c == c;
    }
  }

  lemma {:induction false} BelowConcat(a: seq<int>, c: seq<int>, b: int)
    ensures Below(a + c, b) == Below(a, b) + Below(c, b)
  {
    if a != [] {
      assert (a + c)[1..] == a[1..] + c;
      BelowConcat(a[1..], c, b);
    } else {
      assert a + c == c;
    }
  }

  /** Counting one more element at the end of a prefix. */
  lemma OccSnoc(s: seq<int>, m: int, b: int)
    requires 0 <= m < |s|
    ensures Occ(s[..m + 1], b) == Occ(s[..m], b) + (if s[m] == b then 1 else 0)
  {
    assert s[..m + 1] == s[..m] + [s[m]];
    OccConcat(s[..m], [s[m]], b);
  }

  /** A suffix starting at position m counts s[m] and then the rest. */
  lemma OccSuffix(s: seq<int>, m: int, b: int)
    requires 0 <= m < |s|
    ensures Occ(s[m..], b) == (if s[m] == b then 1 else 0) + Occ(s[m + 1..], b)
  {
    assert s[m..][1..] == s[m + 1..];
  }

  /** Prefix and suffix counts add up to the whole count. */
  lemma OccSplit(s: seq<int>, m: int, b: int)
    requires 0 <= m <= |s|
    ensures Occ(s, b) == Occ(s[..m], b) + Occ(s[m..], b)
  {
    assert s == s[..m] + s[m..];
    OccConcat(s[..m], s[m..], b);
  }

  /** Moving the bound up by one adds the entries equal to the old bound. */
  lemma {:induction false} BelowStep(s: seq<int>, b: int)
    ensures Below(s, b + 1) == Below(s, b) + Occ(s, b)
  {
    if s != [] {
      BelowStep(s[1..], b);
    }
  }

  lemma {:induction false} BelowMonotone(s: seq<int>, b1: int, b2: int)
    requires b1 <= b2
    ensures Below(s, b1) <= Below(s, b2)
  {
    if s != [] {
      BelowMonotone(s[1..], b1, b2);
    }
  }

  /** With no negative entries nothing lies below 0. */
  lemma {:induction false} BelowZero(s: seq<int>)
    requires forall k :: 0 <= k < |s| ==> s[k] >= 0
    ensures Below(s, 0) == 0
  {
    if s != [] {
      BelowZero(s[1..]);
    }
  }

  /** With every entry below `t`, everything lies below `t`. */
  lemma {:induction false} BelowAll(s: seq<int>, t: int)
    requires forall k :: 0 <= k < |s| ==> s[k] < t
    ensures Below(s, t) == |s|
  {
    if s != [] {
      BelowAll(s[1..], t);
    }
  }

  /** A value that occurs at position m is counted. */
  lemma OccPositive(s: seq<int>, m: int)
    requires 0 <= m < |s|
    ensures Occ(s, s[m]) >= 1 + Occ(s[m + 1..], s[m])
  {
    OccSplit(s, m, s[m]);
    OccSuffix(s, m, s[m]);
  }

  /** A value that does not occur is not counted. */
  lemma {:induction false} OccAbsent(s: seq<int>, b: int)
    requires forall k :: 0 <= k < |s| ==> s[k] != b
    ensures Occ(s, b) == 0
  {
    if s != [] {
      OccAbsent(s[1..], b);
    }
  }
}
