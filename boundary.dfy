/**
 * The five boundary planes of the scene (src/softBody.ts and
 * src/rigidSphere.ts keep identical tables): the ground y = 0 and four walls
 * at x = +-Bound and z = +-Bound, each given by an anchor point and an
 * inward unit normal. A point's gap to a plane is its signed distance along
 * the normal; a negative gap means the point has left the box.
 */
module Boundary {
  import opened Vector

  /** A moving point: a soft-body vertex or a sphere's centre, with its velocity. */
  datatype Particle = Particle(pos: Vec3, vel: Vec3)

  const Bound: real := 5.0
  const PlaneCount: nat := 5

  /** Anchor points: ground, maxX, minX, maxZ, minZ. */
  const Anchors: seq<Vec3> := [
    Vec3(0.0, 0.0, 0.0), Vec3(Bound, 0.0, 0.0), Vec3(-Bound, 0.0, 0.0),
    Vec3(0.0, 0.0, Bound), Vec3(0.0, 0.0, -Bound)]

  /** Inward normals, in the same order. */
  const Normals: seq<Vec3> := [
    Vec3(0.0, 1.0, 0.0), Vec3(-1.0, 0.0, 0.0), Vec3(1.0, 0.0, 0.0),
    Vec3(0.0, 0.0, -1.0), Vec3(0.0, 0.0, 1.0)]

  /**
   * Signed distance of `p` from plane `k`, written out per plane; the
   * source computes it as (p - anchor) . normal, which GapIsDot shows equal.
   */
  function Gap(p: Vec3, k: int): real
    requires 0 <= k < PlaneCount
  {
    if k == 0 then p.y
    else if k == 1 then Bound - p.x
    else if k == 2 then p.x + Bound
    else if k == 3 then Bound - p.z
    else p.z + Bound
  }

  /** The gap is the dot product of p - anchor with the plane's normal. */
  lemma GapIsDot(p: Vec3, k: int)
    requires 0 <= k < PlaneCount
    ensures Gap(p, k) == p.Minus(Anchors[k]).Dot(Normals[k])
  {
  }

  /** Every normal has unit length. */
  lemma UnitNormals(k: int)
    requires 0 <= k < PlaneCount
    ensures Normals[k].NormSquare() == 1.0
  {
  }

  /** `s` times plane k's normal, written out per plane. */
  function Along(k: int, s: real): Vec3
    requires 0 <= k < PlaneCount
  {
    if k == 0 then Vec3(0.0, s, 0.0)
    else if k == 1 then Vec3(-s, 0.0, 0.0)
    else if k == 2 then Vec3(s, 0.0, 0.0)
    else if k == 3 then Vec3(0.0, 0.0, -s)
    else Vec3(0.0, 0.0, s)
  }

  lemma AlongIsNormal(k: int, s: real)
    requires 0 <= k < PlaneCount
    ensures Along(k, s) == Normals[k].Times(s)
  {
  }

  /**
   * Moving a point by `s` along plane k's normal changes its gap to that
   * plane by exactly `s`, since the normal has unit length.
   */
  lemma GapAlongNormal(p: Vec3, k: int, s: real)
    requires 0 <= k < PlaneCount
    ensures Gap(p.Plus(Along(k, s)), k) == Gap(p, k) + s
  {
  }

  // ---------------------------------------------------------------------
  // Projection onto the box: plane by plane, in table order
  // ---------------------------------------------------------------------

  /** A point with a negative gap to plane k is moved back onto it along the normal. */
  function Push(p: Vec3, k: int): Vec3
    requires 0 <= k < PlaneCount
  {
    var gap := Gap(p, k);
    if gap < 0.0 then p.Plus(Along(k, -gap)) else p
  }

  /** The point after the first `k` planes have pushed it. */
  function Project(p: Vec3, k: nat): Vec3
    requires k <= PlaneCount
  {
    if k == 0 then p else Push(Project(p, k - 1), k - 1)
  }

  function Max(a: real, b: real): real {
    if a < b then b else a
  }

  function Min(a: real, b: real): real {
    if a < b then a else b
  }

  /** A wall coordinate is first capped at +Bound, then raised to -Bound. */
  function Clamp(a: real): real {
    Max(Min(a, Bound), -Bound)
  }

  /** The gaps are the distances to the box faces, axis by axis. */
  lemma GapAxes(p: Vec3)
    ensures Gap(p, 0) == p.y
    ensures Gap(p, 1) == Bound - p.x && Gap(p, 2) == p.x + Bound
    ensures Gap(p, 3) == Bound - p.z && Gap(p, 4) == p.z + Bound
  {
  }

  /** A push leaves the gap to its own plane non-negative, zero if it moved the point. */
  lemma PushOnto(p: Vec3, k: int)
    requires 0 <= k < PlaneCount
    ensures Gap(Push(p, k), k) == Max(Gap(p, k), 0.0)
  {
    GapAlongNormal(p, k, -Gap(p, k));
  }

  /** What each push does, axis by axis. */
  lemma PushAxes(q: Vec3, k: int)
    requires 0 <= k < PlaneCount
    ensures k == 0 ==> Push(q, k) == Vec3(q.x, Max(q.y, 0.0), q.z)
    ensures k == 1 ==> Push(q, k) == Vec3(Min(q.x, Bound), q.y, q.z)
    ensures k == 2 ==> Push(q, k) == Vec3(Max(q.x, -Bound), q.y, q.z)
    ensures k == 3 ==> Push(q, k) == Vec3(q.x, q.y, Min(q.z, Bound))
    ensures k == 4 ==> Push(q, k) == Vec3(q.x, q.y, Max(q.z, -Bound))
  {
    GapAxes(q);
  }

  /**
   * Projecting through all five planes clamps the point into the box:
   * y is raised to the ground, x and z are clamped to [-Bound, Bound].
   */
  lemma ProjectClamps(p: Vec3)
    ensures Project(p, PlaneCount) == Vec3(Clamp(p.x), Max(p.y, 0.0), Clamp(p.z))
  {
    var y := Max(p.y, 0.0);
    var x1 := Min(p.x, Bound);
    var z1 := Min(p.z, Bound);
    assert Project(p, 1) == Vec3(p.x, y, p.z) by {
      PushAxes(p, 0);
    }
    assert Project(p, 2) == Vec3(x1, y, p.z) by {
      PushAxes(Vec3(p.x, y, p.z), 1);
    }
    assert Project(p, 3) == Vec3(Clamp(p.x), y, p.z) by {
      PushAxes(Vec3(x1, y, p.z), 2);
    }
    assert Project(p, 4) == Vec3(Clamp(p.x), y, z1) by {
      PushAxes(Vec3(Clamp(p.x), y, p.z), 3);
    }
    PushAxes(Vec3(Clamp(p.x), y, z1), 4);
  }

  /** After the projection the point has a non-negative gap to every plane. */
  lemma ProjectInside(p: Vec3)
    ensures forall k :: 0 <= k < PlaneCount ==> Gap(Project(p, PlaneCount), k) >= 0.0
  {
    ProjectClamps(p);
    GapAxes(Project(p, PlaneCount));
  }

  /** A point already inside the box is not moved. */
  lemma ProjectKeepsInside(p: Vec3)
    requires forall k :: 0 <= k < PlaneCount ==> Gap(p, k) >= 0.0
    ensures Project(p, PlaneCount) == p
  {
    ProjectClamps(p);
    GapAxes(p);
    assert Gap(p, 0) >= 0.0 && Gap(p, 1) >= 0.0 && Gap(p, 2) >= 0.0 && Gap(p, 3) >= 0.0 && Gap(p, 4) >= 0.0;
  }
}
