/**
 * The soft body of src/softBody.ts: a tetrahedral mesh whose vertex
 * positions, previous positions and velocities live in flat buffers that
 * the simulation passes update in place, vertex by vertex. The topology and
 * rest data are computed once, by the constructor, and never change.
 */
module SoftBodies {
  import opened Vector
  import opened Boundary
  import opened Topology
  import SpatialHashing

  /** Cell size and table size of every soft body's spatial hash. */
  const HashSpace: real := 0.05
  const HashSize: int := 5000

  /** Index buffers are Uint16 arrays. */
  const IndexLimit: int := 65536

  /** A list of ids copied into a Uint16 array: each id wraps modulo 2^16. */
  function Uint16s(ids: seq<int>): (r: seq<int>)
    ensures |r| == |ids|
    ensures forall k :: 0 <= k < |ids| ==> 0 <= r[k] < IndexLimit && (r[k] - ids[k]) % IndexLimit == 0
    ensures (forall k :: 0 <= k < |ids| ==> 0 <= ids[k] < IndexLimit) ==> r == ids
  {
    seq(|ids|, k requires 0 <= k < |ids| => ids[k] % IndexLimit)
  }

  /** Every entry is a valid vertex id of an `n`-vertex mesh that fits a Uint16 buffer. */
  predicate IndexBuffer(ids: seq<int>, n: int) {
    IdsBelow(ids, n) && forall k :: 0 <= k < |ids| ==> ids[k] < IndexLimit
  }

  lemma CornersInRange(ids: seq<int>, flags: seq<bool>, t: int)
    requires IdsBelow(ids, |flags|) && 0 <= t && 4 * t + 3 < |ids|
    ensures CornersIn(ids, flags, t)
  {
    forall j | 0 <= j < 4
      ensures 0 <= Corner(ids, t, j) < |flags|
    {
      assert Corner(ids, t, j) == ids[4 * t + j];
    }
  }

  // ---------------------------------------------------------------------
  // The constructor's loops over the mesh
  // ---------------------------------------------------------------------

  /**
   * The surface flags: vertex v is flagged iff it occurs in a surface
   * triangle. An id that names no vertex flags nothing among the n vertices.
   */
  method MarkSurface(surfaceIds: seq<int>, n: nat) returns (flags: seq<bool>)
    ensures |flags| == n
    ensures forall v :: 0 <= v < n ==> (flags[v] <==> v in surfaceIds)
  {
    flags := seq(n, _ => false);
    for k := 0 to |surfaceIds|
      invariant |flags| == n
      invariant forall v :: 0 <= v < n ==> (flags[v] <==> v in surfaceIds[..k])
    {
      assert surfaceIds[..k + 1] == surfaceIds[..k] + [surfaceIds[k]];
      if 0 <= surfaceIds[k] < n {
        flags := flags[surfaceIds[k] := true];
      }
    }
    assert surfaceIds[..|surfaceIds|] == surfaceIds;
  }

  /** Every vertex's list holds the tets of the first m buffer entries that name it. */
  predicate Linked(linked: seq<seq<int>>, tetIds: seq<int>, m: int)
    requires 0 <= m <= |tetIds|
  {
    forall v :: 0 <= v < |linked| ==> linked[v] == Incident(tetIds[..m], v)
  }

  /** Appending entry m's tet to the list of the vertex it names extends every adjacency list by that entry. */
  lemma LinkStep(linked: seq<seq<int>>, tetIds: seq<int>, m: int, linked': seq<seq<int>>)
    requires 0 <= m < |tetIds| && 0 <= tetIds[m] < |linked|
    requires Linked(linked, tetIds, m)
    requires linked' == linked[tetIds[m] := linked[tetIds[m]] + [m / 4]]
    ensures Linked(linked', tetIds, m + 1)
  {
    forall v | 0 <= v < |linked| {
      IncidentSnoc(tetIds, m, v);
    }
  }

  /**
   * First pass over tet i's corners: i is appended to each corner's
   * adjacency list, and the surface corners are counted.
   */
  method LinkTet(vertTets: seq<seq<int>>, tetIds: seq<int>, flags: seq<bool>, i: int)
    returns (linked: seq<seq<int>>, cnt: nat)
    requires 0 <= i && 4 * i + 3 < |tetIds|
    requires IdsBelow(tetIds, |vertTets|) && |flags| == |vertTets|
    requires forall v :: 0 <= v < |vertTets| ==> vertTets[v] == Incident(tetIds[..4 * i], v)
    ensures |linked| == |vertTets|
    ensures forall v :: 0 <= v < |linked| ==> linked[v] == Incident(tetIds[..4 * i + 4], v)
    ensures CornersIn(tetIds, flags, i) && cnt == SurfaceCount(tetIds, flags, i)
  {
    CornersInRange(tetIds, flags, i);
    linked := vertTets;
    cnt := 0;
    for j := 0 to 4
      invariant |linked| == |vertTets|
      invariant Linked(linked, tetIds, 4 * i + j)
      invariant cnt == SlotCount(tetIds, flags, i, j)
    {
      var x := tetIds[4 * i + j];
      assert (4 * i + j) / 4 == i;
      LinkStep(linked, tetIds, 4 * i + j, linked[x := linked[x] + [i]]);
      linked := linked[x := linked[x] + [i]];
      assert Corner(tetIds, i, j) == x;
      if flags[x] {
        cnt := cnt + 1;
      }
    }
  }

  /**
   * The rest volume of tet i, from the edge segments
   * seg[j] = x[(j+1) % 4] - x[j] of its corners x.
   */
  method RestVolume(verts: seq<real>, tetIds: seq<int>, i: int) returns (vol: real)
    requires |verts| % 3 == 0 && IdsBelow(tetIds, |verts| / 3)
    requires 0 <= i && 4 * i + 3 < |tetIds|
    ensures forall j :: 0 <= j < 4 ==> HasSlot(verts, Corner(tetIds, i, j))
    ensures vol == TetVolume(verts, tetIds, i)
  {
    forall j | 0 <= j < 4
      ensures HasSlot(verts, Corner(tetIds, i, j))
    {
      assert Corner(tetIds, i, j) == tetIds[4 * i + j];
    }
    var p0, p1, p2, p3 := At(verts, tetIds[4 * i]), At(verts, tetIds[4 * i + 1]), At(verts, tetIds[4 * i + 2]), At(verts, tetIds[4 * i + 3]);
    // seg[j] = x[(j + 1) % 4] - x[j]; the fourth segment is not used
    var seg0, seg1, seg2 := p1.Minus(p0), p2.Minus(p1), p3.Minus(p2);
    vol := seg0.Cross(seg1).Dot(seg2) / 6.0;
    assert vol == SegmentVolume(p0, p1, p2, p3);
  }

  /** Second pass over tet i's corners: each receives a quarter of the tet's volume. */
  method SpreadMass(masses: seq<real>, tetIds: seq<int>, vols: seq<real>, i: int) returns (spread: seq<real>)
    requires 0 <= i && 4 * i + 3 < |tetIds| && |vols| == i + 1
    requires IdsBelow(tetIds, |masses|)
    requires forall v :: 0 <= v < |masses| ==> masses[v] == MassOf(tetIds[..4 * i], vols, v)
    ensures |spread| == |masses|
    ensures forall v :: 0 <= v < |spread| ==> spread[v] == MassOf(tetIds[..4 * i + 4], vols, v)
  {
    spread := masses;
    for j := 0 to 4
      invariant |spread| == |masses|
      invariant forall v :: 0 <= v < |spread| ==> spread[v] == MassOf(tetIds[..4 * i + j], vols, v)
    {
      var x := tetIds[4 * i + j];
      forall v | 0 <= v < |spread| {
        MassSnoc(tetIds, 4 * i + j, vols, v);
      }
      assert (4 * i + j) / 4 == i;
      spread := spread[x := spread[x] + vols[i] / 4.0];
    }
  }

  /**
   * The constructor's loop over the tets: adjacency lists, surface-tet
   * flags, rest volumes and quarter-volume masses.
   */
  method ScanTets(verts: seq<real>, tetIds: seq<int>, flags: seq<bool>)
    returns (vertTets: seq<seq<int>>, isSurfaceTet: seq<bool>, vols: seq<real>, masses: seq<real>)
    requires |verts| % 3 == 0 && |tetIds| % 4 == 0
    requires IdsBelow(tetIds, |verts| / 3) && |flags| == |verts| / 3
    ensures |vertTets| == |verts| / 3
    ensures forall v :: 0 <= v < |vertTets| ==> vertTets[v] == Incident(tetIds, v)
    ensures |isSurfaceTet| == |tetIds| / 4
    ensures forall t :: 0 <= t < |isSurfaceTet| ==>
      CornersIn(tetIds, flags, t) && (isSurfaceTet[t] <==> SurfaceCount(tetIds, flags, t) == 3)
    ensures |vols| == |tetIds| / 4
    ensures forall t :: 0 <= t < |vols| ==> vols[t] == TetVolume(verts, tetIds, t)
    ensures masses == Masses(tetIds, vols, |verts| / 3)
  {
    var n := |verts| / 3;
    var tetNum := |tetIds| / 4;
    vertTets := seq(n, _ => []);
    isSurfaceTet := seq(tetNum, _ => false);
    vols := [];
    masses := seq(n, _ => 0.0);
    for i := 0 to tetNum
      invariant |vertTets| == n && forall v :: 0 <= v < n ==> vertTets[v] == Incident(tetIds[..4 * i], v)
      invariant |isSurfaceTet| == tetNum
      invariant forall t :: 0 <= t < tetNum ==>
        CornersIn(tetIds, flags, t) && (isSurfaceTet[t] <==> t < i && SurfaceCount(tetIds, flags, t) == 3)
      invariant |vols| == i && forall t :: 0 <= t < i ==> vols[t] == TetVolume(verts, tetIds, t)
      invariant |masses| == n && forall v :: 0 <= v < n ==> masses[v] == MassOf(tetIds[..4 * i], vols, v)
    {
      var cnt;
      vertTets, cnt := LinkTet(vertTets, tetIds, flags, i);
      if cnt == 3 {
        isSurfaceTet := isSurfaceTet[i := true];
      }
      var vol := RestVolume(verts, tetIds, i);
      forall v | 0 <= v < n {
        MassPrefix(tetIds[..4 * i], vols, [vol], v);
      }
      vols := vols + [vol];
      masses := SpreadMass(masses, tetIds, vols, i);
    }
    assert tetIds[..4 * tetNum] == tetIds;
  }

  // ---------------------------------------------------------------------
  // The boundary pass, one vertex at a time
  // ---------------------------------------------------------------------

  /**
   * The velocity update of a touching vertex: component j is multiplied by
   * -0.5 times component j of the FIRST normal in the table (the ground's),
   * whichever plane is being handled.
   */
  function Bounce(v: Vec3): Vec3 {
    Vec3(v.x * (-0.5 * Normals[0].x), v.y * (-0.5 * Normals[0].y), v.z * (-0.5 * Normals[0].z))
  }

  /** So a touching vertex keeps only half its vertical speed, reversed. */
  lemma BounceVertical(v: Vec3)
    ensures Bounce(v) == Vec3(0.0, -0.5 * v.y, 0.0)
  {
  }

  /**
   * Plane k on one vertex: the gap is measured once; a negative gap pushes
   * the vertex back onto the plane, a gap below 0.01 bounces its velocity.
   */
  function PlaneStep(s: Particle, k: int): Particle
    requires 0 <= k < PlaneCount
  {
    var gap := Gap(s.pos, k);
    Particle(Push(s.pos, k), if gap < 0.01 then Bounce(s.vel) else s.vel)
  }

  /** The vertex after planes 0 .. k-1. */
  function Planes(s: Particle, k: nat): Particle
    requires k <= PlaneCount
  {
    if k == 0 then s else PlaneStep(Planes(s, k - 1), k - 1)
  }

  /** Number of planes among the first k that found the vertex touching. */
  function Touches(s: Particle, k: nat): nat
    requires k <= PlaneCount
  {
    if k == 0 then 0
    else Touches(s, k - 1) + (if Gap(Planes(s, k - 1).pos, k - 1) < 0.01 then 1 else 0)
  }

  /** a to the power m. */
  function Power(a: real, m: nat): real {
    if m == 0 then 1.0 else a * Power(a, m - 1)
  }

  /** A vertical speed after m bounces. */
  function Bounced(vy: real, m: nat): real {
    if m == 0 then vy else -0.5 * Bounced(vy, m - 1)
  }

  /** m bounces scale the vertical speed by (-1/2)^m. */
  lemma {:induction false} BouncedIsPower(vy: real, m: nat)
    ensures Bounced(vy, m) == Power(-0.5, m) * vy
  {
    if m > 0 {
      BouncedIsPower(vy, m - 1);
      assert -0.5 * (Power(-0.5, m - 1) * vy) == (-0.5 * Power(-0.5, m - 1)) * vy;
    }
  }

  /** The position goes through the box projection, unaffected by the velocity. */
  lemma {:induction false} PlanesPosition(s: Particle, k: nat)
    requires k <= PlaneCount
    ensures Planes(s, k).pos == Project(s.pos, k)
  {
    if k > 0 {
      PlanesPosition(s, k - 1);
    }
  }

  /**
   * Every touching plane bounces the velocity once: it ends as
   * (0, (-1/2)^m * vy, 0) after m touches, and is untouched when m = 0.
   */
  lemma {:induction false} PlanesVelocity(s: Particle, k: nat)
    requires k <= PlaneCount
    ensures Touches(s, k) == 0 ==> Planes(s, k).vel == s.vel
    ensures Touches(s, k) > 0 ==> Planes(s, k).vel == Vec3(0.0, Power(-0.5, Touches(s, k)) * s.vel.y, 0.0)
  {
    var m := Touches(s, k);
    PlanesBounce(s, k);
    BouncedIsPower(s.vel.y, m);
  }

  lemma {:induction false} PlanesBounce(s: Particle, k: nat)
    requires k <= PlaneCount
    ensures Touches(s, k) == 0 ==> Planes(s, k).vel == s.vel
    ensures Touches(s, k) > 0 ==> Planes(s, k).vel == Vec3(0.0, Bounced(s.vel.y, Touches(s, k)), 0.0)
  {
    if k > 0 {
      PlanesBounce(s, k - 1);
      var prev := Planes(s, k - 1);
      if Gap(prev.pos, k - 1) < 0.01 {
        BounceVertical(prev.vel);
      }
    }
  }

  /** After the boundary pass a vertex is inside the box, and an inside vertex did not move. */
  lemma BoundaryPassInside(s: Particle)
    ensures forall k :: 0 <= k < PlaneCount ==> Gap(Planes(s, PlaneCount).pos, k) >= 0.0
    ensures (forall k :: 0 <= k < PlaneCount ==> Gap(s.pos, k) >= 0.0) ==> Planes(s, PlaneCount).pos == s.pos
  {
    PlanesPosition(s, PlaneCount);
    ProjectInside(s.pos);
    if forall k :: 0 <= k < PlaneCount ==> Gap(s.pos, k) >= 0.0 {
      ProjectKeepsInside(s.pos);
    }
  }

  /** The volume the constructor stores is the signed volume of the tet. */
  lemma TetVolumeIsSigned(verts: seq<real>, ids: seq<int>, t: int)
    requires 0 <= t && 4 * t + 3 < |ids|
    requires forall j :: 0 <= j < 4 ==> HasSlot(verts, Corner(ids, t, j))
    ensures TetVolume(verts, ids, t) == SignedVolume(At(verts, Corner(ids, t, 0)), At(verts, Corner(ids, t, 1)),
                                                   At(verts, Corner(ids, t, 2)), At(verts, Corner(ids, t, 3)))
  {
    SegmentVolumeIsSigned(At(verts, Corner(ids, t, 0)), At(verts, Corner(ids, t, 1)),
                          At(verts, Corner(ids, t, 2)), At(verts, Corner(ids, t, 3)));
  }

  /** Going from an update step back to the velocity that produced it. */
  lemma VelocityRecovered(p: Vec3, v: Vec3, dt: real)
    requires dt != 0.0
    ensures p.Plus(v.Times(dt)).Minus(p).Times(1.0 / dt) == v
  {
    assert dt * (1.0 / dt) == 1.0;
    assert v.x * dt * (1.0 / dt) == v.x * (dt * (1.0 / dt));
    assert v.y * dt * (1.0 / dt) == v.y * (dt * (1.0 / dt));
    assert v.z * dt * (1.0 / dt) == v.z * (dt * (1.0 / dt));
  }

  // ---------------------------------------------------------------------
  // Whole-buffer passes shared by the update steps
  // ---------------------------------------------------------------------

  /** dst[k] := src[k] for every entry. */
  method CopyBuffer(dst: array<real>, src: array<real>)
    requires dst.Length == src.Length && dst != src
    modifies dst
    ensures dst[..] == src[..]
  {
    for k := 0 to src.Length
      invariant forall m :: 0 <= m < k ==> dst[m] == src[m]
    {
      dst[k] := src[k];
    }
  }

  /** The vertical entry 3*i+1 of each of the n vertices is lowered by `dv`. */
  method Lower(vel: array<real>, n: nat, dv: real)
    requires vel.Length == 3 * n
    modifies vel
    ensures forall k :: 0 <= k < vel.Length ==> vel[k] == old(vel[k]) - (if k % 3 == 1 then dv else 0.0)
  {
    for i := 0 to n
      invariant forall k :: 0 <= k < vel.Length ==>
        vel[k] == old(vel[k]) - (if k % 3 == 1 && k / 3 < i then dv else 0.0)
    {
      vel[3 * i + 1] := vel[3 * i + 1] - dv;
    }
  }

  /** pos[k] += vel[k] * dt for every entry. */
  method Advance(pos: array<real>, vel: array<real>, dt: real)
    requires pos.Length == vel.Length && pos != vel
    modifies pos
    ensures forall k :: 0 <= k < pos.Length ==> pos[k] == old(pos[k]) + vel[k] * dt
  {
    for k := 0 to vel.Length
      invariant forall m :: 0 <= m < pos.Length ==> pos[m] == old(pos[m]) + (if m < k then vel[m] * dt else 0.0)
    {
      pos[k] := pos[k] + vel[k] * dt;
    }
  }

  /** Each of the n velocities is recomputed as the step's displacement over dt. */
  method Rederive(vel: array<real>, pos: array<real>, prev: array<real>, n: nat, dt: real)
    requires vel.Length == 3 * n && pos.Length == 3 * n && prev.Length == 3 * n
    requires vel != pos && vel != prev && dt != 0.0
    modifies vel
    ensures forall i :: 0 <= i < n ==> At(vel[..], i) == At(pos[..], i).Minus(At(prev[..], i)).Times(1.0 / dt)
  {
    for i := 0 to n
      invariant forall j :: 0 <= j < i ==> At(vel[..], j) == At(pos[..], j).Minus(At(prev[..], j)).Times(1.0 / dt)
    {
      Sub(vel, i, pos, i, prev, i);
      Scale(vel, i, 1.0 / dt);
    }
  }

  // ---------------------------------------------------------------------
  // The soft body object
  // ---------------------------------------------------------------------

  class SoftBodyObject {
    const initPositions: seq<real>
    const positions: array<real>
    const prevPositions: array<real>
    const velocities: array<real>
    const vertNum: nat

    const tetIds: seq<int>
    const surfaceIds: seq<int>
    const edgeIds: seq<int>
    const tetNum: nat
    const edgeNum: nat

    const vertTets: seq<seq<int>>
    const isSurfaceVert: seq<bool>
    const isSurfaceTet: seq<bool>
    const initTetVolumes: seq<real>
    /** The quarter-volume masses, whose reciprocals are the inverse masses. */
    const vertMasses: seq<real>

    const hashSpace: real
    const spatialHash: SpatialHashing.SpatialHash

    /** The three state buffers hold one slot per vertex and are distinct. */
    ghost predicate Valid() {
      && |initPositions| == 3 * vertNum
      && positions.Length == 3 * vertNum
      && prevPositions.Length == 3 * vertNum
      && velocities.Length == 3 * vertNum
      && positions != prevPositions && positions != velocities && prevPositions != velocities
      && |vertMasses| == vertNum
      && spatialHash.Valid() && spatialHash.positions == positions
    }

    constructor (verts: seq<real>, tetIds: seq<int>, edgeIds: seq<int>, surfaceIds: seq<int>)
      requires |verts| % 3 == 0 && |tetIds| % 4 == 0 && |edgeIds| % 2 == 0
      requires IndexBuffer(tetIds, |verts| / 3)
      requires forall k :: 0 <= k < |edgeIds| ==> 0 <= edgeIds[k] < IndexLimit
      ensures Valid()
      ensures fresh(positions) && fresh(prevPositions) && fresh(velocities) && fresh(spatialHash)
      ensures vertNum == |verts| / 3 && tetNum == |tetIds| / 4 && edgeNum == |edgeIds| / 2
      ensures this.tetIds == tetIds && this.surfaceIds == Uint16s(surfaceIds) && this.edgeIds == edgeIds
      ensures initPositions == verts && positions[..] == verts && prevPositions[..] == verts
      ensures forall k :: 0 <= k < velocities.Length ==> velocities[k] == 0.0
      ensures |isSurfaceVert| == vertNum
      ensures forall v :: 0 <= v < vertNum ==> (isSurfaceVert[v] <==> v in surfaceIds)
      ensures |vertTets| == vertNum && forall v :: 0 <= v < vertNum ==> vertTets[v] == Incident(tetIds, v)
      ensures |isSurfaceTet| == tetNum
      ensures forall t :: 0 <= t < tetNum ==>
        CornersIn(tetIds, isSurfaceVert, t) && (isSurfaceTet[t] <==> SurfaceCount(tetIds, isSurfaceVert, t) == 3)
      ensures |initTetVolumes| == tetNum
      ensures forall t :: 0 <= t < tetNum ==> initTetVolumes[t] == TetVolume(verts, tetIds, t)
      ensures vertMasses == Masses(tetIds, initTetVolumes, vertNum)
      ensures hashSpace == HashSpace && spatialHash.spacing == HashSpace && spatialHash.tableSize == HashSize
    {
      var n := |verts| / 3;
      initPositions := verts;
      var ps := new real[|verts|](k requires 0 <= k < |verts| => verts[k]);
      prevPositions := new real[|verts|](k requires 0 <= k < |verts| => verts[k]);
      positions := ps;
      velocities := new real[|verts|](_ => 0.0);
      vertNum := n;
      this.tetIds := tetIds;
      this.surfaceIds := Uint16s(surfaceIds);
      this.edgeIds := edgeIds;
      tetNum := |tetIds| / 4;
      edgeNum := |edgeIds| / 2;
      var flags := MarkSurface(surfaceIds, n);
      isSurfaceVert := flags;
      hashSpace := HashSpace;
      var vt, st, vols, masses := ScanTets(verts, tetIds, flags);
      vertTets := vt;
      isSurfaceTet := st;
      initTetVolumes := vols;
      vertMasses := masses;
      spatialHash := new SpatialHashing.SpatialHash(ps, HashSpace, HashSize);
      assert ps[..] == verts;
    }

    /**
     * Semi-implicit Euler: the old positions are saved, gravity lowers the
     * vertical velocity, and positions advance by the new velocities.
     */
    method ApplyStates(dt: real, gravity: real)
      requires Valid()
      modifies positions, prevPositions, velocities
      ensures prevPositions[..] == old(positions[..])
      ensures forall k :: 0 <= k < velocities.Length ==>
        velocities[k] == old(velocities[k]) - (if k % 3 == 1 then gravity * dt else 0.0)
      ensures forall k :: 0 <= k < positions.Length ==> positions[k] == old(positions[k]) + velocities[k] * dt
    {
      CopyBuffer(prevPositions, positions);
      Lower(velocities, vertNum, gravity * dt);
      Advance(positions, velocities, dt);
    }

    /** The grabbed vertex is moved to the target; an id outside the buffer writes nothing. */
    method GrabInteract(dt: real, target: Vec3, id: int)
      requires Valid()
      modifies positions
      ensures 0 <= id < vertNum ==> positions[..] == Put(old(positions[..]), id, target)
      ensures !(0 <= id < vertNum) ==> positions[..] == old(positions[..])
    {
      if 0 <= id < vertNum {
        Set(positions, id, target.x, target.y, target.z);
      }
    }

    /** One vertex through the five planes. */
    method HandleVertex(i: int)
      requires Valid() && 0 <= i < vertNum
      modifies positions, velocities
      ensures positions[..] == Put(old(positions[..]), i, Planes(Particle(At(old(positions[..]), i), At(old(velocities[..]), i)), PlaneCount).pos)
      ensures velocities[..] == Put(old(velocities[..]), i, Planes(Particle(At(old(positions[..]), i), At(old(velocities[..]), i)), PlaneCount).vel)
    {
      ghost var start := Particle(At(positions[..], i), At(velocities[..], i));
      ghost var ps, vs := positions[..], velocities[..];
      PutTwice(ps, i, start.pos, start.pos);
      PutTwice(vs, i, start.vel, start.vel);
      for k := 0 to PlaneCount
        invariant positions[..] == Put(ps, i, Planes(start, k).pos)
        invariant velocities[..] == Put(vs, i, Planes(start, k).vel)
      {
        HandlePlane(i, k);
        PutTwice(ps, i, Planes(start, k).pos, Planes(start, k + 1).pos);
        PutTwice(vs, i, Planes(start, k).vel, Planes(start, k + 1).vel);
      }
    }

    /** Plane k on vertex i. */
    method HandlePlane(i: int, k: int)
      requires Valid() && 0 <= i < vertNum && 0 <= k < PlaneCount
      modifies positions, velocities
      ensures positions[..] == Put(old(positions[..]), i, PlaneStep(Particle(At(old(positions[..]), i), At(old(velocities[..]), i)), k).pos)
      ensures velocities[..] == Put(old(velocities[..]), i, PlaneStep(Particle(At(old(positions[..]), i), At(old(velocities[..]), i)), k).vel)
    {
      var p := At(positions[..], i);
      var gap := p.Minus(Anchors[k]).Dot(Normals[k]);
      GapIsDot(p, k);
      if gap < 0.0 {
        var q := p.Plus(Normals[k].Times(-gap));
        AlongIsNormal(k, -gap);
        Set(positions, i, q.x, q.y, q.z);
      } else {
        PutTwice(positions[..], i, p, p);
      }
      if gap < 0.01 {
        var w := Bounce(At(velocities[..], i));
        Set(velocities, i, w.x, w.y, w.z);
      } else {
        PutTwice(velocities[..], i, At(velocities[..], i), At(velocities[..], i));
      }
    }

    /**
     * Every vertex goes through the five planes in table order; each vertex
     * ends as the boundary pass of its old position and velocity.
     */
    method HandleBoundaries()
      requires Valid()
      modifies positions, velocities
      ensures forall i :: 0 <= i < vertNum ==>
        Particle(At(positions[..], i), At(velocities[..], i))
        == Planes(Particle(At(old(positions[..]), i), At(old(velocities[..]), i)), PlaneCount)
    {
      ghost var ps, vs := positions[..], velocities[..];
      for i := 0 to vertNum
        invariant forall j :: 0 <= j < i ==>
          Particle(At(positions[..], j), At(velocities[..], j)) == Planes(Particle(At(ps, j), At(vs, j)), PlaneCount)
        invariant forall j :: i <= j < vertNum ==> At(positions[..], j) == At(ps, j) && At(velocities[..], j) == At(vs, j)
      {
        HandleVertex(i);
      }
    }

    /** Velocities are recomputed from the step's displacement: (positions - prevPositions) / dt. */
    method UpdateStates(dt: real)
      requires Valid() && dt != 0.0
      modifies velocities
      ensures forall i :: 0 <= i < vertNum ==>
        At(velocities[..], i) == At(positions[..], i).Minus(At(prevPositions[..], i)).Times(1.0 / dt)
    {
      Rederive(velocities, positions, prevPositions, vertNum, dt);
    }

    /** Every vertex is placed at its initial position shifted by (x, y, z). */
    method InitLocation(x: real, y: real, z: real)
      requires Valid()
      modifies positions
      ensures forall i :: 0 <= i < vertNum ==> At(positions[..], i) == At(initPositions, i).Plus(Vec3(x, y, z))
    {
      for i := 0 to vertNum
        invariant forall j :: 0 <= j < i ==> At(positions[..], j) == At(initPositions, j).Plus(Vec3(x, y, z))
      {
        Set(positions, i, initPositions[3 * i] + x, initPositions[3 * i + 1] + y, initPositions[3 * i + 2] + z);
      }
    }
  }
}
