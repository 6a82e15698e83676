/**
 * The older simulation driver of src/main.ts: its own soft body class, which
 * applies ground and wall friction while integrating and projects every
 * vertex back into the box at the end of its edge solver; the candidate
 * filter of its soft-soft collision; and the fixed order in which one tick
 * calls every body.
 */
module Legacy {
  import opened Vector
  import opened Boundary
  import opened Topology
  import opened SoftBodies
  import SpatialHashing

  // ---------------------------------------------------------------------
  // Friction in applyStates
  // ---------------------------------------------------------------------

  /** A velocity after gravity lowered its vertical component by dv. */
  function Fallen(v: Vec3, dv: real): Vec3 {
    Vec3(v.x, v.y - dv, v.z)
  }

  /** Lowering every y entry of a flat buffer by dv lets every slot fall by dv. */
  lemma FallenSlots(before: seq<real>, after: seq<real>, n: nat, dv: real)
    requires |before| == |after| == 3 * n
    requires forall k :: 0 <= k < |after| ==> after[k] == before[k] - (if k % 3 == 1 then dv else 0.0)
    ensures forall i :: 0 <= i < n ==> At(after, i) == Fallen(At(before, i), dv)
  {
    forall i | 0 <= i < n
      ensures At(after, i) == Fallen(At(before, i), dv)
    {
      assert (3 * i) % 3 == 0 && (3 * i + 1) % 3 == 1 && (3 * i + 2) % 3 == 2;
    }
  }

  /**
   * The velocity v of a vertex at p after the friction checks of planes
   * 0 .. k-1: each plane the vertex is below scales it by 1 - f.
   */
  function Rubbed(v: Vec3, p: Vec3, f: real, k: nat): Vec3
    requires k <= PlaneCount
  {
    if k == 0 then v
    else
      var w := Rubbed(v, p, f, k - 1);
      if Gap(p, k - 1) < 0.0 then w.Times(1.0 - f) else w
  }

  /** How many of the first k planes the point is below. */
  function Under(p: Vec3, k: nat): (m: nat)
    requires k <= PlaneCount
    ensures m <= k
  {
    if k == 0 then 0 else Under(p, k - 1) + (if Gap(p, k - 1) < 0.0 then 1 else 0)
  }

  /** Friction scales the velocity by (1 - f) once per plane the vertex is below. */
  lemma {:induction false} RubbedIsPower(v: Vec3, p: Vec3, f: real, k: nat)
    requires k <= PlaneCount
    ensures Rubbed(v, p, f, k) == v.Times(Power(1.0 - f, Under(p, k)))
  {
    if k > 0 {
      RubbedIsPower(v, p, f, k - 1);
      var a := Power(1.0 - f, Under(p, k - 1));
      if Gap(p, k - 1) < 0.0 {
        var b := 1.0 - f;
        assert Rubbed(v, p, f, k) == v.Times(a).Times(b);
        assert Power(b, Under(p, k)) == b * a;
        ScaleTwice(v, a, b);
      }
    }
  }

  /** Scaling by a and then by b is scaling by b * a. */
  lemma ScaleTwice(v: Vec3, a: real, b: real)
    ensures v.Times(a).Times(b) == v.Times(b * a)
  {
    assert v.x * a * b == v.x * (b * a);
    assert v.y * a * b == v.y * (b * a);
    assert v.z * a * b == v.z * (b * a);
  }

  /** The five checks written out. */
  lemma UnderAll(p: Vec3)
    ensures Under(p, PlaneCount) == Flag(Gap(p, 0) < 0.0) + Flag(Gap(p, 1) < 0.0) + Flag(Gap(p, 2) < 0.0)
                                    + Flag(Gap(p, 3) < 0.0) + Flag(Gap(p, 4) < 0.0)
  {
    assert Under(p, 1) == Flag(Gap(p, 0) < 0.0);
    assert Under(p, 2) == Under(p, 1) + Flag(Gap(p, 1) < 0.0);
    assert Under(p, 3) == Under(p, 2) + Flag(Gap(p, 2) < 0.0);
    assert Under(p, 4) == Under(p, 3) + Flag(Gap(p, 3) < 0.0);
  }

  /**
   * A point is below at most three planes at once: the ground and one wall
   * per horizontal axis, since opposite walls cannot both be crossed.
   */
  lemma UnderAtMostThree(p: Vec3)
    ensures Under(p, PlaneCount) <= 3
  {
    UnderAll(p);
    GapAxes(p);
    assert !(Gap(p, 1) < 0.0 && Gap(p, 2) < 0.0);
    assert !(Gap(p, 3) < 0.0 && Gap(p, 4) < 0.0);
  }

  /** A vertex inside the box keeps its velocity. */
  lemma InsideNoFriction(v: Vec3, p: Vec3, f: real)
    requires forall k :: 0 <= k < PlaneCount ==> Gap(p, k) >= 0.0
    ensures Rubbed(v, p, f, PlaneCount) == v
  {
    RubbedIsPower(v, p, f, PlaneCount);
    UnderAll(p);
    assert Gap(p, 0) >= 0.0 && Gap(p, 1) >= 0.0 && Gap(p, 2) >= 0.0 && Gap(p, 3) >= 0.0 && Gap(p, 4) >= 0.0;
  }

  // ---------------------------------------------------------------------
  // The older soft body object
  // ---------------------------------------------------------------------

  class LegacySoftBody {
    const positions: array<real>
    const prevPositions: array<real>
    const velocities: array<real>
    const vertNum: nat

    const tetIds: seq<int>
    const surfaceIds: seq<int>
    const edgeIds: seq<int>
    const tetNum: nat
    const edgeNum: nat

    const isSurface: seq<bool>
    const vertTets: seq<seq<int>>
    const initTetVolumes: seq<real>
    /** The quarter-volume masses, whose reciprocals are the inverse masses. */
    const vertMasses: seq<real>

    const spatialHash: SpatialHashing.SpatialHash

    /** Buffers of one slot per vertex, tets over the body's vertices, the adjacency lists. */
    ghost predicate Valid() {
      && positions.Length == 3 * vertNum
      && prevPositions.Length == 3 * vertNum
      && velocities.Length == 3 * vertNum
      && positions != prevPositions && positions != velocities && prevPositions != velocities
      && |tetIds| == 4 * tetNum && IdsBelow(tetIds, vertNum)
      && |isSurface| == vertNum
      && |vertTets| == vertNum && (forall v :: 0 <= v < vertNum ==> vertTets[v] == Incident(tetIds, v))
      && spatialHash.Valid() && spatialHash.positions == positions && spatialHash.spacing == HashSpace
    }

    constructor (verts: seq<real>, tetIds: seq<int>, edgeIds: seq<int>, surfaceIds: seq<int>)
      requires |verts| % 3 == 0 && |tetIds| % 4 == 0 && |edgeIds| % 2 == 0
      requires IndexBuffer(tetIds, |verts| / 3)
      requires forall k :: 0 <= k < |edgeIds| ==> 0 <= edgeIds[k] < IndexLimit
      ensures Valid()
      ensures fresh(positions) && fresh(prevPositions) && fresh(velocities) && fresh(spatialHash)
      ensures vertNum == |verts| / 3 && tetNum == |tetIds| / 4 && edgeNum == |edgeIds| / 2
      ensures this.tetIds == tetIds && this.surfaceIds == Uint16s(surfaceIds) && this.edgeIds == edgeIds
      ensures positions[..] == verts && prevPositions[..] == verts
      ensures forall k :: 0 <= k < velocities.Length ==> velocities[k] == 0.0
      ensures forall v :: 0 <= v < vertNum ==> (isSurface[v] <==> v in surfaceIds)
      ensures |initTetVolumes| == tetNum
      ensures forall t :: 0 <= t < tetNum ==> initTetVolumes[t] == TetVolume(verts, tetIds, t)
      ensures vertMasses == Masses(tetIds, initTetVolumes, vertNum)
      ensures spatialHash.tableSize == HashSize
    {
      var n := |verts| / 3;
      var ps := new real[|verts|](k requires 0 <= k < |verts| => verts[k]);
      prevPositions := new real[|verts|](k requires 0 <= k < |verts| => verts[k]);
      positions := ps;
      velocities := new real[|verts|](_ => 0.0);
      vertNum := n;
      this.tetIds := tetIds;
      this.surfaceIds := Uint16s(surfaceIds);
      this.edgeIds := edgeIds;
      tetNum := |tetIds| / 4;
      edgeNum := |edgeIds| / 2;
      spatialHash := new SpatialHashing.SpatialHash(ps, HashSpace, HashSize);
      var flags := MarkSurface(surfaceIds, n);
      isSurface := flags;
      var vt, _, vols, masses := ScanTets(verts, tetIds, flags);
      vertTets := vt;
      initTetVolumes := vols;
      vertMasses := masses;
      assert ps[..] == verts;
    }

    /**
     * The old positions are saved, gravity lowers every vertical velocity,
     * friction scales each velocity once per plane its vertex is below, and
     * positions advance by the new velocities.
     */
    method ApplyStates(dt: real, gravity: real, friction: real)
      requires Valid()
      modifies positions, prevPositions, velocities
      ensures prevPositions[..] == old(positions[..])
      ensures forall i :: 0 <= i < vertNum ==>
        At(velocities[..], i)
        == Rubbed(Fallen(At(old(velocities[..]), i), gravity * dt), At(old(positions[..]), i), friction, PlaneCount)
      ensures forall k :: 0 <= k < positions.Length ==> positions[k] == old(positions[k]) + velocities[k] * dt
    {
      CopyBuffer(prevPositions, positions);
      ghost var v0 := velocities[..];
      Lower(velocities, vertNum, gravity * dt);
      FallenSlots(v0, velocities[..], vertNum, gravity * dt);
      RubAll(friction);
      Advance(positions, velocities, dt);
    }

    /** The friction pass over every vertex; positions are only read. */
    method RubAll(friction: real)
      requires Valid()
      modifies velocities
      ensures forall i :: 0 <= i < vertNum ==>
        At(velocities[..], i) == Rubbed(At(old(velocities[..]), i), At(positions[..], i), friction, PlaneCount)
    {
      ghost var vs := velocities[..];
      for i := 0 to vertNum
        invariant forall j :: 0 <= j < i ==>
          At(velocities[..], j) == Rubbed(At(vs, j), At(positions[..], j), friction, PlaneCount)
        invariant forall j :: i <= j < vertNum ==> At(velocities[..], j) == At(vs, j)
      {
        RubVertex(i, friction);
      }
    }

    /** The five friction checks of one vertex. */
    method RubVertex(i: int, friction: real)
      requires Valid() && 0 <= i < vertNum
      modifies velocities
      ensures velocities[..] == Put(old(velocities[..]), i, Rubbed(At(old(velocities[..]), i), At(positions[..], i), friction, PlaneCount))
    {
      ghost var vs := velocities[..];
      for k := 0 to PlaneCount
        invariant velocities[..] == Put(vs, i, Rubbed(At(vs, i), At(positions[..], i), friction, k))
      {
        var p := At(positions[..], i);
        var gap := p.Minus(Anchors[k]).Dot(Normals[k]);
        GapIsDot(p, k);
        if gap < 0.0 {
          Scale(velocities, i, 1.0 - friction);
        }
        assert velocities[..] == Put(vs, i, Rubbed(At(vs, i), p, friction, k + 1));
      }
    }

    /** `grabInteract`: the grabbed vertex is moved to the cursor; an id outside the buffer writes nothing. */
    method GrabInteract(cursor: Vec3, id: int)
      requires Valid()
      modifies positions
      ensures 0 <= id < vertNum ==> positions[..] == Put(old(positions[..]), id, cursor)
      ensures !(0 <= id < vertNum) ==> positions[..] == old(positions[..])
    {
      if 0 <= id < vertNum {
        Set(positions, id, cursor.x, cursor.y, cursor.z);
      }
    }

    /**
     * The tail of the edge solver: every vertex is pushed back onto each
     * plane it is below, so it ends inside the box.
     */
    method ProjectBoundary()
      requires Valid()
      modifies positions
      ensures forall i :: 0 <= i < vertNum ==> At(positions[..], i) == Project(At(old(positions[..]), i), PlaneCount)
      ensures forall i, k :: 0 <= i < vertNum && 0 <= k < PlaneCount ==> Gap(At(positions[..], i), k) >= 0.0
    {
      ghost var ps := positions[..];
      for i := 0 to vertNum
        invariant forall j :: 0 <= j < i ==> At(positions[..], j) == Project(At(ps, j), PlaneCount)
        invariant forall j :: i <= j < vertNum ==> At(positions[..], j) == At(ps, j)
      {
        ProjectVertex(i);
      }
      forall i | 0 <= i < vertNum
        ensures forall k :: 0 <= k < PlaneCount ==> Gap(At(positions[..], i), k) >= 0.0
      {
        ProjectInside(At(ps, i));
      }
    }

    /** One vertex pushed through the five planes in table order. */
    method ProjectVertex(i: int)
      requires Valid() && 0 <= i < vertNum
      modifies positions
      ensures positions[..] == Put(old(positions[..]), i, Project(At(old(positions[..]), i), PlaneCount))
    {
      ghost var ps := positions[..];
      for k := 0 to PlaneCount
        invariant positions[..] == Put(ps, i, Project(At(ps, i), k))
      {
        var p := At(positions[..], i);
        var gap := p.Minus(Anchors[k]).Dot(Normals[k]);
        GapIsDot(p, k);
        if gap < 0.0 {
          var q := p.Plus(Normals[k].Times(-gap));
          AlongIsNormal(k, -gap);
          Set(positions, i, q.x, q.y, q.z);
        }
        assert positions[..] == Put(ps, i, Project(At(ps, i), k + 1));
      }
    }

    /** Velocities are recomputed from the step's displacement: (positions - prevPositions) / dt. */
    method UpdateStates(dt: real)
      requires Valid() && dt != 0.0
      modifies velocities
      ensures forall i :: 0 <= i < vertNum ==>
        At(velocities[..], i) == At(positions[..], i).Minus(At(prevPositions[..], i)).Times(1.0 / dt)
    {
      Rederive(velocities, positions, prevPositions, vertNum, dt);
    }

    /** Every vertex is translated by (x, y, z), so every edge vector is kept. */
    method Move(x: real, y: real, z: real)
      requires Valid()
      modifies positions
      ensures forall i :: 0 <= i < vertNum ==> At(positions[..], i) == At(old(positions[..]), i).Plus(Vec3(x, y, z))
      ensures forall i, j :: 0 <= i < vertNum && 0 <= j < vertNum ==>
        At(positions[..], i).Minus(At(positions[..], j)) == At(old(positions[..]), i).Minus(At(old(positions[..]), j))
    {
      ghost var ps := positions[..];
      for i := 0 to vertNum
        invariant forall j :: 0 <= j < i ==> At(positions[..], j) == At(ps, j).Plus(Vec3(x, y, z))
        invariant forall j :: i <= j < vertNum ==> At(positions[..], j) == At(ps, j)
      {
        positions[3 * i] := positions[3 * i] + x;
        positions[3 * i + 1] := positions[3 * i + 1] + y;
        positions[3 * i + 2] := positions[3 * i + 2] + z;
      }
    }
  }

  // ---------------------------------------------------------------------
  // solveCollision1: which vertex/tet pairs reach the containment test
  // ---------------------------------------------------------------------

  /** A vertex of the second body paired with a tet of the first. */
  datatype Candidate = Candidate(vert: int, tet: int)

  /** A tet of the body with exactly three surface corners. */
  ghost predicate SurfaceTet(obj: LegacySoftBody, t: int) {
    CornersIn(obj.tetIds, obj.isSurface, t) && SurfaceCount(obj.tetIds, obj.isSurface, t) == 3
  }

  /** Vertex c of obj1 lay, at the last rehash, in a cell of the query box around vertex i of obj2. */
  ghost predicate Close(obj1: LegacySoftBody, obj2: LegacySoftBody, i: int, c: int)
    reads obj1.spatialHash, obj1.spatialHash.countTable, obj1.spatialHash.particleTable, obj2.positions
  {
    var h := obj1.spatialHash;
    && obj1.Valid() && obj2.Valid() && h.Indexed()
    && 0 <= i < obj2.vertNum && 0 <= c < obj1.vertNum
    && SpatialHashing.Within(h.CellOf(h.snapshot, c), h.Low(obj2.positions[..], i, HashSpace), h.High(obj2.positions[..], i, HashSpace))
  }

  /** Vertex c of obj1 sat, at the last rehash, in a bucket of a cell of the query box around vertex i of obj2. */
  ghost predicate Bucketed(obj1: LegacySoftBody, obj2: LegacySoftBody, i: int, c: int)
    reads obj1.spatialHash, obj1.spatialHash.countTable, obj1.spatialHash.particleTable, obj2.positions
  {
    var h := obj1.spatialHash;
    && obj1.Valid() && obj2.Valid() && h.Indexed()
    && 0 <= i < obj2.vertNum && 0 <= c < obj1.vertNum
    && h.HashedFrom(h.Keys(h.snapshot)[c], h.Low(obj2.positions[..], i, HashSpace), h.High(obj2.positions[..], i, HashSpace))
  }

  /** A pair the filter lets through: an interior vertex of obj2 and a surface tet of obj1 at a bucketed vertex. */
  ghost predicate Examined(obj1: LegacySoftBody, obj2: LegacySoftBody, p: Candidate)
    reads obj1.spatialHash, obj1.spatialHash.countTable, obj1.spatialHash.particleTable, obj2.positions
  {
    && obj1.Valid() && obj2.Valid()
    && 0 <= p.vert < obj2.vertNum && !obj2.isSurface[p.vert]
    && SurfaceTet(obj1, p.tet)
    && exists c :: Bucketed(obj1, obj2, p.vert, c) && p.tet in obj1.vertTets[c]
  }

  /** Every surface tet listed at vertex c of obj1 is paired with vertex i of obj2. */
  ghost predicate Paired(obj1: LegacySoftBody, i: int, c: int, pairs: seq<Candidate>) {
    0 <= c < |obj1.vertTets| && forall t :: t in obj1.vertTets[c] && SurfaceTet(obj1, t) ==> Candidate(i, t) in pairs
  }

  /** Appending to the pair list keeps every pairing already made. */
  lemma PairedKept(obj1: LegacySoftBody, i: int, c: int, before: seq<Candidate>, after: seq<Candidate>)
    requires Paired(obj1, i, c, before)
    requires |before| <= |after| && after[..|before|] == before
    ensures Paired(obj1, i, c, after)
  {
    forall t | t in obj1.vertTets[c] && SurfaceTet(obj1, t)
      ensures Candidate(i, t) in after
    {
      assert Candidate(i, t) in after[..|before|];
    }
  }

  /** A surface tet listed at a bucketed vertex, paired with an interior vertex, passes the filter. */
  lemma ExaminedAt(obj1: LegacySoftBody, obj2: LegacySoftBody, i: int, c: int, t: int)
    requires Bucketed(obj1, obj2, i, c) && !obj2.isSurface[i]
    requires t in obj1.vertTets[c] && SurfaceTet(obj1, t)
    ensures Examined(obj1, obj2, Candidate(i, t))
  {
  }

  /** Whether entry w of vertex c's adjacency list is a tet with three surface corners. */
  method SurfaceTetAt(obj: LegacySoftBody, c: int, w: int) returns (found: bool)
    requires obj.Valid() && 0 <= c < obj.vertNum && 0 <= w < |obj.vertTets[c]|
    ensures found <==> SurfaceTet(obj, obj.vertTets[c][w])
  {
    var t := obj.vertTets[c][w];
    IncidentSorted(obj.tetIds, c);
    CornersInRange(obj.tetIds, obj.isSurface, t);
    var cnt := CountSurfaceCorners(obj.tetIds, obj.isSurface, t);
    found := cnt == 3;
  }

  /** The corner loop: how many of tet t's corners are surface vertices. */
  method CountSurfaceCorners(ids: seq<int>, flags: seq<bool>, t: int) returns (cnt: int)
    requires CornersIn(ids, flags, t)
    ensures cnt == SurfaceCount(ids, flags, t)
    ensures 0 <= cnt <= 4
  {
    cnt := 0;
    for k := 0 to 4
      invariant cnt == SlotCount(ids, flags, t, k)
    {
      if flags[Corner(ids, t, k)] {
        cnt := cnt + 1;
      }
    }
  }

  /**
   * The filter of solveCollision1, in the order the source visits pairs:
   * nothing for the self pair; otherwise every interior vertex i of obj2 is
   * queried against obj1's hash, and each tet listed at a returned vertex
   * that has exactly three surface corners is paired with i. Every such
   * tet at a vertex whose cell lies in the query box is paired.
   */
  method Collision1Candidates(obj1: LegacySoftBody, obj2: LegacySoftBody) returns (pairs: seq<Candidate>)
    requires obj1.Valid() && obj2.Valid() && obj1.spatialHash.Indexed()
    ensures obj1 == obj2 ==> pairs == []
    ensures forall k :: 0 <= k < |pairs| ==> Examined(obj1, obj2, pairs[k])
    ensures obj1 != obj2 ==> forall i, c :: Close(obj1, obj2, i, c) && !obj2.isSurface[i] ==>
      forall t :: t in obj1.vertTets[c] && SurfaceTet(obj1, t) ==> Candidate(i, t) in pairs
  {
    if obj2 == obj1 {
      return [];
    }
    pairs := [];
    for i := 0 to obj2.vertNum
      invariant forall k :: 0 <= k < |pairs| ==> Examined(obj1, obj2, pairs[k])
      invariant forall i', c :: i' < i && Close(obj1, obj2, i', c) && !obj2.isSurface[i'] ==> Paired(obj1, i', c, pairs)
    {
      if obj2.isSurface[i] {
        continue;
      }
      pairs := VisitVertex(obj1, obj2, i, pairs);
    }
  }

  /** One interior vertex of obj2: its query, then the adjacency list of every hit. */
  method VisitVertex(obj1: LegacySoftBody, obj2: LegacySoftBody, i: int, pairs: seq<Candidate>) returns (pairs': seq<Candidate>)
    requires obj1.Valid() && obj2.Valid() && obj1.spatialHash.Indexed()
    requires 0 <= i < obj2.vertNum && !obj2.isSurface[i]
    requires forall k :: 0 <= k < |pairs| ==> Examined(obj1, obj2, pairs[k])
    ensures |pairs| <= |pairs'| && pairs'[..|pairs|] == pairs
    ensures forall k :: 0 <= k < |pairs'| ==> Examined(obj1, obj2, pairs'[k])
    ensures forall c :: Close(obj1, obj2, i, c) ==> Paired(obj1, i, c, pairs')
  {
    var closeIds := obj1.spatialHash.Query(obj2.positions, i, HashSpace);
    pairs' := pairs;
    for u := 0 to |closeIds|
      invariant |pairs| <= |pairs'| && pairs'[..|pairs|] == pairs
      invariant forall k :: 0 <= k < |pairs'| ==> Examined(obj1, obj2, pairs'[k])
      invariant forall u' :: 0 <= u' < u ==> Paired(obj1, i, closeIds[u'], pairs')
    {
      assert Bucketed(obj1, obj2, i, closeIds[u]);
      ghost var before := pairs';
      pairs' := AddHits(obj1, obj2, i, closeIds[u], pairs');
      assert pairs'[..|pairs|] == before[..|pairs|];
      forall u' | 0 <= u' < u
        ensures Paired(obj1, i, closeIds[u'], pairs')
      {
        PairedKept(obj1, i, closeIds[u'], before, pairs');
      }
    }
    forall c | Close(obj1, obj2, i, c)
      ensures Paired(obj1, i, c, pairs')
    {
      assert c in closeIds;
      var u :| 0 <= u < |closeIds| && closeIds[u] == c;
    }
  }

  /** Vertex c came back from the query: its surface tets are paired with i. */
  method AddHits(obj1: LegacySoftBody, obj2: LegacySoftBody, i: int, c: int, pairs: seq<Candidate>) returns (pairs': seq<Candidate>)
    requires Bucketed(obj1, obj2, i, c) && !obj2.isSurface[i]
    requires forall k :: 0 <= k < |pairs| ==> Examined(obj1, obj2, pairs[k])
    ensures |pairs| <= |pairs'| && pairs'[..|pairs|] == pairs
    ensures forall k :: 0 <= k < |pairs'| ==> Examined(obj1, obj2, pairs'[k])
    ensures Paired(obj1, i, c, pairs')
  {
    var hits := SurfaceTetsAt(obj1, c);
    pairs' := pairs + seq(|hits|, k requires 0 <= k < |hits| => Candidate(i, hits[k]));
    forall k | 0 <= k < |pairs'|
      ensures Examined(obj1, obj2, pairs'[k])
    {
      if k >= |pairs| {
        ExaminedAt(obj1, obj2, i, c, hits[k - |pairs|]);
      }
    }
    forall t | t in obj1.vertTets[c] && SurfaceTet(obj1, t)
      ensures Candidate(i, t) in pairs'
    {
      var k :| 0 <= k < |hits| && hits[k] == t;
      assert pairs'[|pairs| + k] == Candidate(i, t);
    }
  }

  /** The tets listed at vertex c that have exactly three surface corners, in list order. */
  method SurfaceTetsAt(obj: LegacySoftBody, c: int) returns (hits: seq<int>)
    requires obj.Valid() && 0 <= c < obj.vertNum
    ensures forall t :: t in hits <==> t in obj.vertTets[c] && SurfaceTet(obj, t)
  {
    var tets := obj.vertTets[c];
    hits := [];
    for w := 0 to |tets|
      invariant forall t :: t in hits <==> t in tets[..w] && SurfaceTet(obj, t)
    {
      var found := SurfaceTetAt(obj, c, w);
      assert tets[..w + 1] == tets[..w] + [tets[w]];
      if found {
        hits := hits + [tets[w]];
      }
    }
    assert tets[..|tets|] == tets;
  }

  // ---------------------------------------------------------------------
  // The tick: the order of the calls on the bodies
  // ---------------------------------------------------------------------

  /** One call the tick makes, naming soft bodies and spheres by their index in the scene lists. */
  datatype Call =
    | Apply(body: nat)
    | Grab(body: nat)
    | SolveTets(body: nat)
    | SolveEdges(body: nat)
    | Rehash(body: nat)
    | Collide(body: nat, other: nat)
    | Finish(body: nat)
    | SphereUpdate(sphere: nat)

  /** The phase of the tick a call belongs to. */
  function Stage(c: Call): nat {
    match c
    case Apply(_) => 0
    case Grab(_) => 0
    case Finish(_) => 2
    case SphereUpdate(_) => 3
    case _ => 1
  }

  /** Phase 1: every body integrates; the grabbed one then follows the cursor. */
  function ApplyPhase(n: nat, grabbed: int): seq<Call> {
    if n == 0 then []
    else ApplyPhase(n - 1, grabbed) + [Apply(n - 1)] + (if grabbed == n - 1 then [Grab(n - 1)] else [])
  }

  /** Body o against the first n bodies. */
  function Collisions(o: nat, n: nat): seq<Call> {
    if n == 0 then [] else Collisions(o, n - 1) + [Collide(o, n - 1)]
  }

  /** Body o's turn in one substep. */
  function BodyTurn(o: nat, count: nat, collide: bool): seq<Call> {
    [SolveTets(o), SolveEdges(o)] + (if collide then [Rehash(o)] + Collisions(o, count) else [])
  }

  /** One substep: the turns of the first n of the count bodies. */
  function Round(n: nat, count: nat, collide: bool): seq<Call> {
    if n == 0 then [] else Round(n - 1, count, collide) + BodyTurn(n - 1, count, collide)
  }

  /** Phase 2: s substeps. */
  function SubSteps(s: nat, count: nat, collide: bool): seq<Call> {
    if s == 0 then [] else SubSteps(s - 1, count, collide) + Round(count, count, collide)
  }

  /** Phase 3: every body recomputes its velocities. */
  function FinishPhase(n: nat): seq<Call> {
    if n == 0 then [] else FinishPhase(n - 1) + [Finish(n - 1)]
  }

  /** Phase 4: every sphere updates. */
  function SpherePhase(n: nat): seq<Call> {
    if n == 0 then [] else SpherePhase(n - 1) + [SphereUpdate(n - 1)]
  }

  /** The calls of one tick over `count` soft bodies and `spheres` spheres. */
  function Schedule(count: nat, grabbed: int, steps: nat, collide: bool, spheres: nat): seq<Call> {
    ApplyPhase(count, grabbed) + SubSteps(steps, count, collide) + FinishPhase(count) + SpherePhase(spheres)
  }

  /** The tick's loops, recording each call as it is made. */
  method Tick(count: nat, grabbed: int, steps: nat, collide: bool, spheres: nat) returns (trace: seq<Call>)
    ensures trace == Schedule(count, grabbed, steps, collide, spheres)
  {
    trace := [];
    for o := 0 to count
      invariant trace == ApplyPhase(o, grabbed)
    {
      trace := trace + [Apply(o)];
      if grabbed == o {
        trace := trace + [Grab(o)];
      }
    }
    ghost var applied := trace;
    for n := 0 to steps
      invariant trace == applied + SubSteps(n, count, collide)
    {
      var round := RoundCalls(count, collide);
      trace := trace + round;
    }
    ghost var solved := trace;
    for o := 0 to count
      invariant trace == solved + FinishPhase(o)
    {
      trace := trace + [Finish(o)];
    }
    ghost var finished := trace;
    for s := 0 to spheres
      invariant trace == finished + SpherePhase(s)
    {
      trace := trace + [SphereUpdate(s)];
    }
  }

  /** One substep: each body solves its constraints, then (with collisions on) rehashes and meets every body. */
  method RoundCalls(count: nat, collide: bool) returns (calls: seq<Call>)
    ensures calls == Round(count, count, collide)
  {
    calls := [];
    for o := 0 to count
      invariant calls == Round(o, count, collide)
    {
      calls := calls + [SolveTets(o), SolveEdges(o)];
      if collide {
        calls := calls + [Rehash(o)];
        var row := CollideCalls(o, count);
        calls := calls + row;
      }
    }
  }

  /** Body o against every body of the scene, in list order. */
  method CollideCalls(o: nat, count: nat) returns (calls: seq<Call>)
    ensures calls == Collisions(o, count)
  {
    calls := [];
    for other := 0 to count
      invariant calls == Collisions(o, other)
    {
      calls := calls + [Collide(o, other)];
    }
  }

  /** Every call of s belongs to stage r. */
  predicate AllStage(s: seq<Call>, r: nat) {
    forall k :: 0 <= k < |s| ==> Stage(s[k]) == r
  }

  /** Calls appear in stage order. */
  predicate Staged(s: seq<Call>) {
    forall a, b :: 0 <= a < b < |s| ==> Stage(s[a]) <= Stage(s[b])
  }

  lemma {:induction false} ApplyStage(n: nat, grabbed: int)
    ensures AllStage(ApplyPhase(n, grabbed), 0)
  {
    if n > 0 {
      ApplyStage(n - 1, grabbed);
    }
  }

  lemma {:induction false} CollisionsStage(o: nat, n: nat)
    ensures AllStage(Collisions(o, n), 1)
    ensures forall k :: 0 <= k < |Collisions(o, n)| ==> Collisions(o, n)[k].Collide?
  {
    if n > 0 {
      CollisionsStage(o, n - 1);
    }
  }

  lemma {:induction false} RoundStage(n: nat, count: nat, collide: bool)
    ensures AllStage(Round(n, count, collide), 1)
  {
    if n > 0 {
      RoundStage(n - 1, count, collide);
      CollisionsStage(n - 1, count);
    }
  }

  lemma {:induction false} SubStepsStage(s: nat, count: nat, collide: bool)
    ensures AllStage(SubSteps(s, count, collide), 1)
  {
    if s > 0 {
      SubStepsStage(s - 1, count, collide);
      RoundStage(count, count, collide);
    }
  }

  lemma {:induction false} FinishStage(n: nat)
    ensures AllStage(FinishPhase(n), 2)
  {
    if n > 0 {
      FinishStage(n - 1);
    }
  }

  lemma {:induction false} SphereStage(n: nat)
    ensures AllStage(SpherePhase(n), 3)
  {
    if n > 0 {
      SphereStage(n - 1);
    }
  }

  /** Appending a stage-r block to calls of stage at most r keeps the order. */
  lemma StagedAppend(s: seq<Call>, t: seq<Call>, r: nat)
    requires Staged(s) && (forall k :: 0 <= k < |s| ==> Stage(s[k]) <= r) && AllStage(t, r)
    ensures Staged(s + t)
    ensures forall k :: 0 <= k < |s + t| ==> Stage((s + t)[k]) <= r
  {
  }

  /**
   * The tick runs in four phases: integration (and the grab), the
   * substeps, the velocity updates, and the spheres, never interleaved.
   */
  lemma ScheduleStaged(count: nat, grabbed: int, steps: nat, collide: bool, spheres: nat)
    ensures Staged(Schedule(count, grabbed, steps, collide, spheres))
  {
    var a := ApplyPhase(count, grabbed);
    var b := SubSteps(steps, count, collide);
    var c := FinishPhase(count);
    var d := SpherePhase(spheres);
    ApplyStage(count, grabbed);
    SubStepsStage(steps, count, collide);
    FinishStage(count);
    SphereStage(spheres);
    StagedAppend(a, b, 1);
    StagedAppend(a + b, c, 2);
    StagedAppend(a + b + c, d, 3);
  }

  lemma {:induction false} ApplyMembers(n: nat, grabbed: int, o: nat)
    ensures Apply(o) in ApplyPhase(n, grabbed) <==> o < n
    ensures Grab(o) in ApplyPhase(n, grabbed) <==> o < n && o == grabbed
  {
    if n > 0 {
      ApplyMembers(n - 1, grabbed, o);
    }
  }

  lemma {:induction false} CollisionsMembers(o: nat, n: nat, b: nat, p: nat)
    ensures Collide(b, p) in Collisions(o, n) <==> b == o && p < n
  {
    if n > 0 {
      CollisionsMembers(o, n - 1, b, p);
    }
  }

  lemma {:induction false} RoundMembers(n: nat, count: nat, collide: bool, b: nat, p: nat)
    ensures Collide(b, p) in Round(n, count, collide) <==> collide && b < n && p < count
    ensures Rehash(b) in Round(n, count, collide) <==> collide && b < n
    ensures SolveTets(b) in Round(n, count, collide) <==> b < n
  {
    if n > 0 {
      RoundMembers(n - 1, count, collide, b, p);
      CollisionsMembers(n - 1, count, b, p);
      CollisionsStage(n - 1, count);
      assert Rehash(b) !in Collisions(n - 1, count) && SolveTets(b) !in Collisions(n - 1, count);
    }
  }

  lemma {:induction false} SubStepsMembers(s: nat, count: nat, collide: bool, b: nat, p: nat)
    ensures Collide(b, p) in SubSteps(s, count, collide) <==> collide && s > 0 && b < count && p < count
    ensures Rehash(b) in SubSteps(s, count, collide) <==> collide && s > 0 && b < count
  {
    if s > 0 {
      SubStepsMembers(s - 1, count, collide, b, p);
      RoundMembers(count, count, collide, b, p);
    }
  }

  /**
   * Which calls a tick makes: each body integrates, the grabbed body (and
   * no other) follows the cursor, and the hash rebuild and the collision
   * passes happen only when collision checking is on, for every ordered
   * pair of bodies, the self pair included.
   */
  lemma ScheduleMembers(count: nat, grabbed: int, steps: nat, collide: bool, spheres: nat, b: nat, p: nat)
    ensures Apply(b) in Schedule(count, grabbed, steps, collide, spheres) <==> b < count
    ensures Grab(b) in Schedule(count, grabbed, steps, collide, spheres) <==> b < count && b == grabbed
    ensures Collide(b, p) in Schedule(count, grabbed, steps, collide, spheres) <==> collide && steps > 0 && b < count && p < count
    ensures Rehash(b) in Schedule(count, grabbed, steps, collide, spheres) <==> collide && steps > 0 && b < count
  {
    var a := ApplyPhase(count, grabbed);
    var m := SubSteps(steps, count, collide);
    var c := FinishPhase(count);
    var d := SpherePhase(spheres);
    ApplyMembers(count, grabbed, b);
    SubStepsMembers(steps, count, collide, b, p);
    ApplyStage(count, grabbed);
    SubStepsStage(steps, count, collide);
    FinishStage(count);
    SphereStage(spheres);
    assert Schedule(count, grabbed, steps, collide, spheres) == a + m + c + d;
    assert Apply(b) !in m && Apply(b) !in c && Apply(b) !in d;
    assert Grab(b) !in m && Grab(b) !in c && Grab(b) !in d;
    assert Collide(b, p) !in a && Collide(b, p) !in c && Collide(b, p) !in d;
    assert Rehash(b) !in a && Rehash(b) !in c && Rehash(b) !in d;
  }

  lemma {:induction false} ApplyLength(n: nat, grabbed: int)
    ensures |ApplyPhase(n, grabbed)| == n + (if 0 <= grabbed < n then 1 else 0)
  {
    if n > 0 {
      ApplyLength(n - 1, grabbed);
    }
  }

  lemma {:induction false} CollisionsLength(o: nat, n: nat)
    ensures |Collisions(o, n)| == n
  {
    if n > 0 {
      CollisionsLength(o, n - 1);
    }
  }

  /** Calls per body per substep. */
  function TurnLength(count: nat, collide: bool): nat {
    2 + (if collide then 1 + count else 0)
  }

  lemma {:induction false} RoundLength(n: nat, count: nat, collide: bool)
    ensures |Round(n, count, collide)| == n * TurnLength(count, collide)
  {
    if n > 0 {
      RoundLength(n - 1, count, collide);
      CollisionsLength(n - 1, count);
      assert (n - 1) * TurnLength(count, collide) + TurnLength(count, collide) == n * TurnLength(count, collide);
    }
  }

  lemma {:induction false} SubStepsLength(s: nat, count: nat, collide: bool)
    ensures |SubSteps(s, count, collide)| == s * (count * TurnLength(count, collide))
  {
    if s > 0 {
      SubStepsLength(s - 1, count, collide);
      RoundLength(count, count, collide);
      var r := count * TurnLength(count, collide);
      assert (s - 1) * r + r == s * r;
    }
  }

  lemma {:induction false} FinishLength(n: nat)
    ensures |FinishPhase(n)| == n
  {
    if n > 0 {
      FinishLength(n - 1);
    }
  }

  lemma {:induction false} SphereLength(n: nat)
    ensures |SpherePhase(n)| == n
  {
    if n > 0 {
      SphereLength(n - 1);
    }
  }

  /**
   * A tick makes 2 calls per body outside the substeps (one more for the
   * grabbed body), 2 + (1 + count) calls per body per substep with
   * collisions on and 2 without, and one per sphere.
   */
  lemma ScheduleLength(count: nat, grabbed: int, steps: nat, collide: bool, spheres: nat)
    ensures |Schedule(count, grabbed, steps, collide, spheres)|
      == 2 * count + (if 0 <= grabbed < count then 1 else 0)
         + steps * (count * TurnLength(count, collide)) + spheres
  {
    ApplyLength(count, grabbed);
    SubStepsLength(steps, count, collide);
    FinishLength(count);
    SphereLength(spheres);
  }
}
