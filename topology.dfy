/**
 * Rest data a soft body derives from its tetrahedral mesh when it is built:
 * the vertex-to-tet adjacency lists, how many of a tet's corners lie on the
 * surface, the rest volume of every tet and the quarter-volume masses of the
 * vertices. Tet `t` occupies entries 4*t .. 4*t+3 of the flat id buffer, so
 * entry `k` of that buffer belongs to tet k/4.
 */
module Topology {
  import opened Vector
  import opened Counting

  /** Every id names one of the `n` vertices. */
  predicate IdsBelow(ids: seq<int>, n: int) {
    forall k :: 0 <= k < |ids| ==> 0 <= ids[k] < n
  }

  /** Corner `j` of tet `t`. */
  function Corner(ids: seq<int>, t: int, j: int): int
    requires 0 <= 4 * t + j < |ids|
  {
    ids[4 * t + j]
  }

  // ---------------------------------------------------------------------
  // Vertex-to-tet adjacency
  // ---------------------------------------------------------------------

  /**
   * The tets listing `v`, in the order a scan of the flat id buffer meets
   * them: one entry per occurrence of `v`.
   */
  function Incident(ids: seq<int>, v: int): seq<int>
    decreases |ids|
  {
    if ids == [] then []
    else Incident(ids[..|ids| - 1], v) + (if ids[|ids| - 1] == v then [(|ids| - 1) / 4] else [])
  }

  /** Scanning one more entry of the id buffer. */
  lemma IncidentSnoc(ids: seq<int>, m: int, v: int)
    requires 0 <= m < |ids|
    ensures Incident(ids[..m + 1], v) == Incident(ids[..m], v) + (if ids[m] == v then [m / 4] else [])
  {
    assert ids[..m + 1][..m] == ids[..m];
  }

  /** The adjacency list is in ascending order and names only tets of the buffer. */
  lemma {:induction false} IncidentSorted(ids: seq<int>, v: int)
    ensures forall a :: 0 <= a < |Incident(ids, v)| ==> 0 <= Incident(ids, v)[a] && 4 * Incident(ids, v)[a] < |ids|
    ensures forall a, b :: 0 <= a < b < |Incident(ids, v)| ==> Incident(ids, v)[a] <= Incident(ids, v)[b]
  {
    if ids != [] {
      IncidentSorted(ids[..|ids| - 1], v);
    }
  }

  /** One of tet t's corners (within the first |ids| entries) is `v`. */
  predicate HasCorner(ids: seq<int>, t: int, v: int) {
    exists j :: 0 <= j < 4 && 0 <= 4 * t + j < |ids| && Corner(ids, t, j) == v
  }

  /** Extending the buffer by one entry adds tet n/4 if that entry is `v`. */
  lemma HasCornerSnoc(ids: seq<int>, t: int, v: int)
    requires ids != []
    ensures HasCorner(ids, t, v) <==>
      HasCorner(ids[..|ids| - 1], t, v) || (ids[|ids| - 1] == v && t == (|ids| - 1) / 4)
  {
    var n := |ids| - 1;
    var pre := ids[..n];
    if HasCorner(pre, t, v) {
      var j :| 0 <= j < 4 && 0 <= 4 * t + j < |pre| && Corner(pre, t, j) == v;
      assert Corner(ids, t, j) == v;
    }
    if ids[n] == v && t == n / 4 {
      assert Corner(ids, t, n - 4 * t) == v;
    }
    if HasCorner(ids, t, v) {
      var j :| 0 <= j < 4 && 0 <= 4 * t + j < |ids| && Corner(ids, t, j) == v;
      if 4 * t + j < n {
        assert Corner(pre, t, j) == v;
      }
    }
  }

  /** A tet is listed exactly when one of its four corners is `v`. */
  lemma {:induction false} IncidentMembers(ids: seq<int>, v: int, t: int)
    ensures t in Incident(ids, v) <==> HasCorner(ids, t, v)
  {
    if ids != [] {
      var n := |ids| - 1;
      IncidentMembers(ids[..n], v, t);
      HasCornerSnoc(ids, t, v);
      assert Incident(ids, v) == Incident(ids[..n], v) + (if ids[n] == v then [n / 4] else []);
    }
  }

  /** One entry per occurrence: the list is as long as `v` occurs. */
  lemma {:induction false} IncidentLength(ids: seq<int>, v: int)
    ensures |Incident(ids, v)| == Occ(ids, v)
  {
    if ids != [] {
      var n := |ids| - 1;
      IncidentLength(ids[..n], v);
      assert ids == ids[..n] + [ids[n]];
      OccConcat(ids[..n], [ids[n]], v);
    }
  }

  // ---------------------------------------------------------------------
  // Surface tets
  // ---------------------------------------------------------------------

  function Flag(b: bool): nat {
    if b then 1 else 0
  }

  /** Tet t's four corners exist and are vertices flagged in `flags`. */
  predicate CornersIn(ids: seq<int>, flags: seq<bool>, t: int) {
    0 <= t && 4 * t + 3 < |ids| && forall j :: 0 <= j < 4 ==> 0 <= Corner(ids, t, j) < |flags|
  }

  /** How many of the first `j` corners of tet t are surface vertices. */
  function SlotCount(ids: seq<int>, flags: seq<bool>, t: int, j: int): (c: nat)
    requires CornersIn(ids, flags, t) && 0 <= j <= 4
    ensures c <= j
  {
    if j == 0 then 0 else SlotCount(ids, flags, t, j - 1) + Flag(flags[Corner(ids, t, j - 1)])
  }

  /** Number of surface vertices among tet t's four corners. */
  function SurfaceCount(ids: seq<int>, flags: seq<bool>, t: int): nat
    requires CornersIn(ids, flags, t)
  {
    SlotCount(ids, flags, t, 4)
  }

  /**
   * A surface tet, one with exactly three surface corners, is one whose
   * corners are all surface vertices but one.
   */
  lemma SurfaceTetIff(ids: seq<int>, flags: seq<bool>, t: int)
    requires CornersIn(ids, flags, t)
    ensures SurfaceCount(ids, flags, t) == 3 <==>
      exists j :: 0 <= j < 4 && !flags[Corner(ids, t, j)] &&
        forall i :: 0 <= i < 4 && i != j ==> flags[Corner(ids, t, i)]
  {
    var f := seq(4, j requires 0 <= j < 4 => flags[Corner(ids, t, j)]);
    assert SlotCount(ids, flags, t, 1) == Flag(f[0]);
    assert SlotCount(ids, flags, t, 2) == Flag(f[0]) + Flag(f[1]);
    assert SlotCount(ids, flags, t, 3) == Flag(f[0]) + Flag(f[1]) + Flag(f[2]);
    assert SurfaceCount(ids, flags, t) == Flag(f[0]) + Flag(f[1]) + Flag(f[2]) + Flag(f[3]);
    if SurfaceCount(ids, flags, t) == 3 {
      var j := if !f[0] then 0 else if !f[1] then 1 else if !f[2] then 2 else 3;
      assert !f[j];
      forall i | 0 <= i < 4 && i != j
        ensures flags[Corner(ids, t, i)]
      {
        assert f[i];
      }
    }
    if exists j :: 0 <= j < 4 && !flags[Corner(ids, t, j)] && forall i :: 0 <= i < 4 && i != j ==> flags[Corner(ids, t, i)] {
      var j :| 0 <= j < 4 && !flags[Corner(ids, t, j)] && forall i :: 0 <= i < 4 && i != j ==> flags[Corner(ids, t, i)];
      assert !f[j] && forall i :: 0 <= i < 4 && i != j ==> f[i];
    }
  }

  // ---------------------------------------------------------------------
  // Rest volumes
  // ---------------------------------------------------------------------

  /**
   * The volume as the constructor computes it: from the consecutive edge
   * segments x1-x0, x2-x1 and x3-x2.
   */
  function SegmentVolume(p0: Vec3, p1: Vec3, p2: Vec3, p3: Vec3): real {
    p1.Minus(p0).Cross(p2.Minus(p1)).Dot(p3.Minus(p2)) / 6.0
  }

  /** The signed volume of a tetrahedron, from the three edges leaving x0. */
  function SignedVolume(p0: Vec3, p1: Vec3, p2: Vec3, p3: Vec3): real {
    p1.Minus(p0).Cross(p2.Minus(p0)).Dot(p3.Minus(p0)) / 6.0
  }

  lemma CrossSubtract(a: Vec3, b: Vec3)
    ensures a.Cross(b.Minus(a)) == a.Cross(b)
  {
  }

  lemma DotSubtract(c: Vec3, d: Vec3, e: Vec3)
    ensures c.Dot(d.Minus(e)) == c.Dot(d) - c.Dot(e)
  {
  }

  /** Both formulas give the same volume. */
  lemma SegmentVolumeIsSigned(p0: Vec3, p1: Vec3, p2: Vec3, p3: Vec3)
    ensures SegmentVolume(p0, p1, p2, p3) == SignedVolume(p0, p1, p2, p3)
  {
    var a, b, c := p1.Minus(p0), p2.Minus(p0), p3.Minus(p0);
    assert p2.Minus(p1) == b.Minus(a);
    assert p3.Minus(p2) == c.Minus(b);
    CrossSubtract(a, b);
    DotSubtract(a.Cross(b), c, b);
    CrossOrthogonal(a, b);
  }

  /** The rest volume of tet t of the mesh `verts`/`ids`. */
  function TetVolume(verts: seq<real>, ids: seq<int>, t: int): real
    requires 0 <= t && 4 * t + 3 < |ids|
    requires forall j :: 0 <= j < 4 ==> HasSlot(verts, Corner(ids, t, j))
  {
    SegmentVolume(At(verts, Corner(ids, t, 0)), At(verts, Corner(ids, t, 1)), At(verts, Corner(ids, t, 2)), At(verts, Corner(ids, t, 3)))
  }

  // ---------------------------------------------------------------------
  // Quarter-volume masses
  // ---------------------------------------------------------------------

  /** Sum of a sequence of reals. */
  function Sum(s: seq<real>): real {
    if s == [] then 0.0 else Sum(s[..|s| - 1]) + s[|s| - 1]
  }

  /**
   * The mass the scan of the id buffer gives vertex `v`: a quarter of the
   * volume of its tet for every occurrence of `v`.
   */
  function MassOf(ids: seq<int>, vols: seq<real>, v: int): real
    requires |ids| <= 4 * |vols|
    decreases |ids|
  {
    if ids == [] then 0.0
    else MassOf(ids[..|ids| - 1], vols, v) + (if ids[|ids| - 1] == v then vols[(|ids| - 1) / 4] / 4.0 else 0.0)
  }

  /** Scanning one more entry of the id buffer. */
  lemma MassSnoc(ids: seq<int>, m: int, vols: seq<real>, v: int)
    requires 0 <= m < |ids| && m < 4 * |vols|
    ensures MassOf(ids[..m + 1], vols, v) == MassOf(ids[..m], vols, v) + (if ids[m] == v then vols[m / 4] / 4.0 else 0.0)
  {
    assert ids[..m + 1][..m] == ids[..m];
  }

  /** Volumes of tets the buffer does not reach yet do not matter. */
  lemma {:induction false} MassPrefix(ids: seq<int>, vols: seq<real>, more: seq<real>, v: int)
    requires |ids| <= 4 * |vols|
    ensures MassOf(ids, vols + more, v) == MassOf(ids, vols, v)
  {
    if ids != [] {
      MassPrefix(ids[..|ids| - 1], vols, more, v);
    }
  }

  /** A vertex in no tet gets no mass (its inverse mass is then infinite). */
  lemma {:induction false} MassAbsent(ids: seq<int>, vols: seq<real>, v: int)
    requires |ids| <= 4 * |vols|
    requires v !in ids
    ensures MassOf(ids, vols, v) == 0.0
  {
    if ids != [] {
      assert v !in ids[..|ids| - 1];
      MassAbsent(ids[..|ids| - 1], vols, v);
    }
  }

  lemma {:induction false} SumZero(s: seq<real>)
    requires forall k :: 0 <= k < |s| ==> s[k] == 0.0
    ensures Sum(s) == 0.0
  {
    if s != [] {
      SumZero(s[..|s| - 1]);
    }
  }

  /** Adding `d` to one entry adds `d` to the sum. */
  lemma {:induction false} SumUpdate(s: seq<real>, i: int, d: real)
    requires 0 <= i < |s|
    ensures Sum(s[i := s[i] + d]) == Sum(s) + d
  {
    var n := |s| - 1;
    if i == n {
      assert s[i := s[i] + d][..n] == s[..n];
    } else {
      assert s[i := s[i] + d][..n] == s[..n][i := s[i] + d];
      SumUpdate(s[..n], i, d);
    }
  }

  /** A quarter of tet k/4's volume for each of the first `len` entries. */
  function Quarters(len: nat, vols: seq<real>): real
    requires len <= 4 * |vols|
  {
    if len == 0 then 0.0 else Quarters(len - 1, vols) + vols[(len - 1) / 4] / 4.0
  }

  /** The vertex masses after scanning `ids`, one entry per vertex. */
  function Masses(ids: seq<int>, vols: seq<real>, n: nat): (r: seq<real>)
    requires |ids| <= 4 * |vols|
    ensures |r| == n && forall v :: 0 <= v < n ==> r[v] == MassOf(ids, vols, v)
  {
    seq(n, v requires 0 <= v < n => MassOf(ids, vols, v))
  }

  lemma {:induction false} MassesQuarters(ids: seq<int>, vols: seq<real>, n: nat)
    requires |ids| <= 4 * |vols| && IdsBelow(ids, n)
    ensures Sum(Masses(ids, vols, n)) == Quarters(|ids|, vols)
  {
    if ids != [] {
      var m := |ids| - 1;
      var pre := ids[..m];
      MassesQuarters(pre, vols, n);
      var q := vols[m / 4] / 4.0;
      var before := Masses(pre, vols, n);
      assert Masses(ids, vols, n) == before[ids[m] := before[ids[m]] + q] by {
        forall v | 0 <= v < n
          ensures Masses(ids, vols, n)[v] == before[ids[m] := before[ids[m]] + q][v]
        {
          MassSnoc(ids, m, vols, v);
          assert ids[..m + 1] == ids;
        }
      }
      SumUpdate(before, ids[m], q);
    } else {
      SumZero(Masses(ids, vols, n));
    }
  }

  lemma {:induction false} QuartersWhole(m: nat, vols: seq<real>)
    requires m <= |vols|
    ensures Quarters(4 * m, vols) == Sum(vols[..m])
  {
    if m > 0 {
      QuartersWhole(m - 1, vols);
      var q := vols[m - 1] / 4.0;
      assert (4 * m - 1) / 4 == (4 * m - 2) / 4 == (4 * m - 3) / 4 == (4 * m - 4) / 4 == m - 1;
      assert Quarters(4 * m - 3, vols) == Quarters(4 * m - 4, vols) + q;
      assert Quarters(4 * m - 2, vols) == Quarters(4 * m - 4, vols) + q + q;
      assert Quarters(4 * m - 1, vols) == Quarters(4 * m - 4, vols) + q + q + q;
      assert Quarters(4 * m, vols) == Quarters(4 * m - 4, vols) + q + q + q + q;
      assert vols[..m][..m - 1] == vols[..m - 1];
    }
  }

  /**
   * Mass is conserved: the vertex masses add up to the total rest volume of
   * the mesh, each tet handing a quarter of its volume to each corner.
   */
  lemma MassTotal(ids: seq<int>, vols: seq<real>, n: nat)
    requires |ids| == 4 * |vols| && IdsBelow(ids, n)
    ensures Sum(Masses(ids, vols, n)) == Sum(vols)
  {
    MassesQuarters(ids, vols, n);
    QuartersWhole(|vols|, vols);
    assert vols[..|vols|] == vols;
  }
}
