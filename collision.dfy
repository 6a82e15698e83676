/**
 * Collision dispatch and response between scene objects (src/collision.ts).
 * An object is a soft body or a rigid sphere; a pair of distinct objects is
 * routed by kind, with a mixed pair always handed to the soft-to-rigid
 * routines with the soft body first.
 */
module Collisions {
  import opened Vector
  import opened RigidSpheres
  import opened SoftBodies

  /** The restitution of the sphere-sphere impulse in this file. */
  const PairRestitution: real := 0.1

  /** A scene object. */
  datatype Body = Soft(soft: SoftBodyObject) | Rigid(sphere: RigidSphere)

  /** The routine a pair of objects is handed to. */
  datatype Route =
    | Skip
    | SoftSoft(first: SoftBodyObject, second: SoftBodyObject)
    | SoftRigid(body: SoftBodyObject, ball: RigidSphere)
    | RigidRigid(ball1: RigidSphere, ball2: RigidSphere)

  /**
   * `checkCollision` and `solveCollision` share this dispatch: the self pair
   * is skipped, and a mixed pair goes to the soft-to-rigid routine with the
   * soft body first whatever the argument order.
   */
  function Dispatch(o1: Body, o2: Body): (r: Route)
    ensures r == Skip <==> o1 == o2
    ensures r.SoftSoft? <==> o1 != o2 && o1.Soft? && o2.Soft?
    ensures r.SoftRigid? ==> {o1, o2} == {Soft(r.body), Rigid(r.ball)}
    ensures r.RigidRigid? ==> o1 == Rigid(r.ball1) && o2 == Rigid(r.ball2)
  {
    if o1 == o2 then Skip
    else match (o1, o2)
      case (Soft(a), Soft(b)) => SoftSoft(a, b)
      case (Soft(a), Rigid(s)) => SoftRigid(a, s)
      case (Rigid(s), Soft(a)) => SoftRigid(a, s)
      case (Rigid(s1), Rigid(s2)) => RigidRigid(s1, s2)
  }

  /** Swapping the arguments of a mixed pair does not change the route. */
  lemma DispatchMixed(s: SoftBodyObject, b: RigidSphere)
    ensures Dispatch(Soft(s), Rigid(b)) == Dispatch(Rigid(b), Soft(s)) == SoftRigid(s, b)
  {
  }

  // ---------------------------------------------------------------------
  // Overlap tests
  // ---------------------------------------------------------------------

  /** The root of `d` is below `s` exactly when `s` is positive and `d` below its square. */
  lemma RootBelow(d: real, s: real, sqrt: real -> real)
    requires IsSqrt(sqrt) && d >= 0.0
    ensures sqrt(d) < s <==> s > 0.0 && d < s * s
  {
    var l := sqrt(d);
    assert l >= 0.0 && l * l == d;
    if l < s {
      SquareMonotone(l, s);
    } else if s > 0.0 && l != s {
      SquareMonotone(s, l);
    }
  }

  /** Sphere overlap without roots: the centres are closer than the summed radii. */
  predicate SpheresOverlap(p1: Vec3, r1: real, p2: Vec3, r2: real) {
    r1 + r2 > 0.0 && p1.Minus(p2).NormSquare() < (r1 + r2) * (r1 + r2)
  }

  /** `checkRigidToRigidCollision`: the centre distance is below r1 + r2. */
  function CheckRigidToRigid(a: RigidSphere, b: RigidSphere, sqrt: real -> real): (hit: bool)
    reads a, b
    requires IsSqrt(sqrt)
    ensures hit <==> SpheresOverlap(a.position, a.radius, b.position, b.radius)
  {
    NormSquareNonNegative(a.position.Minus(b.position));
    RootBelow(a.position.Minus(b.position).NormSquare(), a.radius + b.radius, sqrt);
    Length(a.position.Minus(b.position), sqrt) < a.radius + b.radius
  }

  /** The distance does not depend on the direction it is measured in. */
  lemma DistanceSymmetric(p: Vec3, q: Vec3)
    ensures p.Minus(q).NormSquare() == q.Minus(p).NormSquare()
  {
    assert (p.x - q.x) * (p.x - q.x) == (q.x - p.x) * (q.x - p.x);
    assert (p.y - q.y) * (p.y - q.y) == (q.y - p.y) * (q.y - p.y);
    assert (p.z - q.z) * (p.z - q.z) == (q.z - p.z) * (q.z - p.z);
  }

  /** The sphere-sphere test is symmetric in its arguments. */
  lemma CheckRigidSymmetric(a: RigidSphere, b: RigidSphere, sqrt: real -> real)
    requires IsSqrt(sqrt)
    ensures CheckRigidToRigid(a, b, sqrt) == CheckRigidToRigid(b, a, sqrt)
  {
    DistanceSymmetric(a.position, b.position);
  }

  /** Vertex i lies strictly inside the sphere (c, r), stated without roots. */
  predicate Inside(ps: seq<real>, i: int, c: Vec3, r: real)
    requires HasSlot(ps, i)
  {
    r > 0.0 && c.Minus(At(ps, i)).NormSquare() < r * r
  }

  /**
   * `checkSoftToRigidCollision`: scan the vertices and stop at the first
   * one whose distance to the centre is below the radius.
   */
  method CheckSoftToRigid(soft: SoftBodyObject, rigid: RigidSphere, sqrt: real -> real) returns (hit: bool)
    requires soft.Valid() && IsSqrt(sqrt)
    ensures hit <==> exists i :: 0 <= i < soft.vertNum && Inside(soft.positions[..], i, rigid.position, rigid.radius)
  {
    for i := 0 to soft.vertNum
      invariant forall j :: 0 <= j < i ==> !Inside(soft.positions[..], j, rigid.position, rigid.radius)
    {
      var tmp := rigid.position.Minus(At(soft.positions[..], i));
      var gap := Length(tmp, sqrt) - rigid.radius;
      NormSquareNonNegative(tmp);
      RootBelow(tmp.NormSquare(), rigid.radius, sqrt);
      if gap < 0.0 {
        assert Inside(soft.positions[..], i, rigid.position, rigid.radius);
        return true;
      }
    }
    return false;
  }

  // ---------------------------------------------------------------------
  // Soft body against sphere
  // ---------------------------------------------------------------------

  /**
   * A vertex at `p` is pushed out when its distance to the centre is below
   * the radius. A vertex exactly at the centre has no direction to be
   * pushed in and is left alone.
   */
  predicate Pierces(p: Vec3, c: Vec3, r: real, sqrt: real -> real) {
    var l := Length(c.Minus(p), sqrt);
    l - r < 0.0 && l != 0.0
  }

  /** The displacement of a piercing vertex: the unit direction towards the centre times the gap. */
  function Offset(p: Vec3, c: Vec3, r: real, sqrt: real -> real): Vec3 {
    var tmp := c.Minus(p);
    var l := Length(tmp, sqrt);
    if Pierces(p, c, r, sqrt) then tmp.Times(1.0 / l).Times(l - r) else Zero
  }

  /** Where a vertex ends. */
  function Settle(p: Vec3, c: Vec3, r: real, sqrt: real -> real): Vec3 {
    p.Plus(Offset(p, c, r, sqrt))
  }

  /**
   * The sphere's velocity change for one vertex: the vertex's displacement
   * dx becomes the impulse dx / dt times the vertex mass (the source divides
   * by the inverse mass), applied to the sphere through its inverse mass.
   */
  function Kick(p: Vec3, c: Vec3, r: real, mass: real, dt: real, invMass: real, sqrt: real -> real): Vec3
    requires dt != 0.0
  {
    if Pierces(p, c, r, sqrt) then
      var dx := Length(p.Minus(Settle(p, c, r, sqrt)), sqrt);
      Offset(p, c, r, sqrt).Times(dx / dt * mass * invMass)
    else Zero
  }

  /** The buffer after the first n vertices have been settled. */
  function Settled(ps: seq<real>, c: Vec3, r: real, n: nat, sqrt: real -> real): (r': seq<real>)
    requires 3 * n <= |ps|
    ensures |r'| == |ps|
  {
    if n == 0 then ps else Put(Settled(ps, c, r, n - 1, sqrt), n - 1, Settle(At(ps, n - 1), c, r, sqrt))
  }

  /** The sum of the sphere's velocity changes for the first n vertices. */
  function KickSum(ps: seq<real>, masses: seq<real>, c: Vec3, r: real, dt: real, invMass: real, n: nat,
                   sqrt: real -> real): Vec3
    requires 3 * n <= |ps| && n <= |masses| && dt != 0.0
  {
    if n == 0 then Zero
    else KickSum(ps, masses, c, r, dt, invMass, n - 1, sqrt).Plus(Kick(At(ps, n - 1), c, r, masses[n - 1], dt, invMass, sqrt))
  }

  /** Settling the first n vertices leaves the buffer's length and the other vertices alone. */
  lemma {:induction false} SettledFrame(ps: seq<real>, c: Vec3, r: real, n: nat, sqrt: real -> real)
    requires 3 * n <= |ps|
    ensures forall j :: n <= j && HasSlot(ps, j) ==> At(Settled(ps, c, r, n, sqrt), j) == At(ps, j)
  {
    if n > 0 {
      SettledFrame(ps, c, r, n - 1, sqrt);
    }
  }

  /** Each of the first n vertices ends where Settle puts it. */
  lemma {:induction false} SettledSlots(ps: seq<real>, c: Vec3, r: real, n: nat, sqrt: real -> real)
    requires 3 * n <= |ps|
    ensures forall j :: 0 <= j < n ==> At(Settled(ps, c, r, n, sqrt), j) == Settle(At(ps, j), c, r, sqrt)
  {
    if n > 0 {
      SettledSlots(ps, c, r, n - 1, sqrt);
      SettledFrame(ps, c, r, n - 1, sqrt);
    }
  }

  /** Pulling `p` back from `p + n*g` is moving by `n*(-g)`. */
  lemma BackStep(p: Vec3, n: Vec3, g: real)
    ensures p.Minus(p.Plus(n.Times(g))) == n.Times(-g)
  {
    assert p.x - (p.x + n.x * g) == n.x * (-g);
    assert p.y - (p.y + n.y * g) == n.y * (-g);
    assert p.z - (p.z + n.z * g) == n.z * (-g);
  }

  /**
   * For a piercing vertex, with n the unit direction from the vertex to the
   * centre and l the distance: the centre is n*l away and the offset is n*(l - r).
   */
  lemma PierceFrame(p: Vec3, c: Vec3, r: real, sqrt: real -> real)
    requires IsSqrt(sqrt) && Pierces(p, c, r, sqrt)
    ensures var n := Normalize(c.Minus(p), sqrt); var l := Length(c.Minus(p), sqrt);
      && n.NormSquare() == 1.0
      && c.Minus(p) == n.Times(l)
      && Offset(p, c, r, sqrt) == n.Times(l - r)
  {
    NormalizeUnit(c.Minus(p), sqrt);
  }

  /** A point n*g away from p, seen from the point n*l away from p. */
  lemma Rebase(p: Vec3, c: Vec3, n: Vec3, l: real, g: real)
    requires c.Minus(p) == n.Times(l)
    ensures p.Plus(n.Times(g)).Minus(c) == n.Times(g - l)
  {
    assert n.x * (g - l) == n.x * g - n.x * l;
    assert n.y * (g - l) == n.y * g - n.y * l;
    assert n.z * (g - l) == n.z * g - n.z * l;
  }

  /**
   * A piercing vertex ends exactly on the sphere's surface; any other vertex
   * does not move.
   */
  lemma SettleOnSurface(p: Vec3, c: Vec3, r: real, sqrt: real -> real)
    requires IsSqrt(sqrt)
    ensures Pierces(p, c, r, sqrt) ==> Settle(p, c, r, sqrt).Minus(c).NormSquare() == r * r
    ensures !Pierces(p, c, r, sqrt) ==> Settle(p, c, r, sqrt) == p
  {
    if Pierces(p, c, r, sqrt) {
      var n := Normalize(c.Minus(p), sqrt);
      var l := Length(c.Minus(p), sqrt);
      PierceFrame(p, c, r, sqrt);
      Rebase(p, c, n, l, l - r);
      assert Settle(p, c, r, sqrt).Minus(c) == n.Times(-r);
      NormSquareTimes(n, -r);
    }
  }

  /**
   * A piercing vertex moves by exactly its penetration depth r - l, which is
   * the dx the sphere's kick is computed from.
   */
  lemma KickDepth(p: Vec3, c: Vec3, r: real, sqrt: real -> real)
    requires IsSqrt(sqrt) && Pierces(p, c, r, sqrt)
    ensures Length(p.Minus(Settle(p, c, r, sqrt)), sqrt) == r - Length(c.Minus(p), sqrt)
  {
    var l := Length(c.Minus(p), sqrt);
    var n := Normalize(c.Minus(p), sqrt);
    PierceFrame(p, c, r, sqrt);
    BackStep(p, n, l - r);
    LengthOfScaled(n, -(l - r), sqrt);
  }

  /**
   * `solveSoftToRigidCollision`: every vertex inside the sphere is moved onto
   * its surface and the sphere receives the opposite kick; the sphere's centre
   * does not move.
   */
  method SolveSoftToRigid(soft: SoftBodyObject, rigid: RigidSphere, dt: real, sqrt: real -> real)
    requires soft.Valid() && dt != 0.0
    modifies soft.positions, rigid
    ensures rigid.position == old(rigid.position)
    ensures soft.positions[..] == Settled(old(soft.positions[..]), rigid.position, rigid.radius, soft.vertNum, sqrt)
    ensures rigid.velocity == old(rigid.velocity).Minus(
      KickSum(old(soft.positions[..]), soft.vertMasses, rigid.position, rigid.radius, dt, rigid.invMass, soft.vertNum, sqrt))
  {
    ghost var ps := soft.positions[..];
    var c, r := rigid.position, rigid.radius;
    for i := 0 to soft.vertNum
      invariant rigid.position == c
      invariant soft.positions[..] == Settled(ps, c, r, i, sqrt)
      invariant rigid.velocity == old(rigid.velocity).Minus(KickSum(ps, soft.vertMasses, c, r, dt, rigid.invMass, i, sqrt))
    {
      SettledFrame(ps, c, r, i, sqrt);
      var p := At(soft.positions[..], i);
      assert p == At(ps, i);
      SettleVertex(soft, rigid, i, dt, sqrt);
    }
  }

  /** One iteration of `solveSoftToRigidCollision`'s loop, for vertex i. */
  method SettleVertex(soft: SoftBodyObject, rigid: RigidSphere, i: int, dt: real, sqrt: real -> real)
    requires soft.positions.Length == 3 * soft.vertNum && |soft.vertMasses| == soft.vertNum
    requires dt != 0.0 && 0 <= i < soft.vertNum
    modifies soft.positions, rigid
    ensures rigid.position == old(rigid.position)
    ensures soft.positions[..] ==
      Put(old(soft.positions[..]), i, Settle(At(old(soft.positions[..]), i), rigid.position, rigid.radius, sqrt))
    ensures rigid.velocity == old(rigid.velocity).Minus(
      Kick(At(old(soft.positions[..]), i), rigid.position, rigid.radius, soft.vertMasses[i], dt, rigid.invMass, sqrt))
  {
    var p := At(soft.positions[..], i);
    var tmp := rigid.position.Minus(p);
    var l := Length(tmp, sqrt);
    var gap := l - rigid.radius;
    if gap < 0.0 && l != 0.0 {
      tmp := tmp.Times(1.0 / l);
      tmp := tmp.Times(gap);
      assert tmp == Offset(p, rigid.position, rigid.radius, sqrt);
      var before := p;
      Set(soft.positions, i, p.x + tmp.x, p.y + tmp.y, p.z + tmp.z);
      assert At(soft.positions[..], i) == Settle(p, rigid.position, rigid.radius, sqrt);
      var dx := Length(before.Minus(At(soft.positions[..], i)), sqrt);
      var impulse := dx / dt * soft.vertMasses[i];
      rigid.velocity := rigid.velocity.Minus(tmp.Times(impulse * rigid.invMass));
    } else {
      assert soft.positions[..] == Put(soft.positions[..], i, p);
    }
  }

  // ---------------------------------------------------------------------
  // Sphere against sphere
  // ---------------------------------------------------------------------

  /** The new velocity of the first sphere and the new centre and velocity of the second. */
  datatype Exchange = Exchange(vel1: Vec3, pos2: Vec3, vel2: Vec3)

  /**
   * `solveRigidToRigidCollision`: the direction points from the first centre
   * to the second; an approaching pair closer than Contact receives impulses
   * weighted by the inverse masses, and an overlapping second sphere is moved
   * out along the unit direction.
   */
  function Resolve(p1: Vec3, v1: Vec3, r1: real, w1: real, p2: Vec3, v2: Vec3, r2: real, w2: real,
                   sqrt: real -> real): Exchange
    requires w1 + w2 != 0.0
  {
    var dir := p2.Minus(p1);
    var relProj := dir.Dot(v2.Minus(v1));
    Respond(Normalize(dir, sqrt), Length(dir, sqrt) - r2 - r1, relProj, relProj * ((1.0 + PairRestitution) / (w1 + w2)),
            v1, w1, p2, v2, w2)
  }

  /**
   * The response along the unit direction n, given the gap, the relative
   * approach speed relProj and the impulse k = relProj * (1 + restitution) / (w1 + w2).
   */
  function Respond(n: Vec3, gap: real, relProj: real, k: real, v1: Vec3, w1: real, p2: Vec3, v2: Vec3, w2: real): Exchange {
    var hit := gap < Contact && relProj < 0.0;
    Exchange(if hit then v1.Plus(n.Times(k * w1)) else v1,
             if gap < 0.0 then p2.Plus(n.Times(-gap)) else p2,
             if hit then v2.Plus(n.Times(-k * w2)) else v2)
  }

  /**
   * The total momentum v1/w1 + v2/w2 of two bodies with inverse masses w1
   * and w2, multiplied through by w1 * w2 so that it needs no division.
   */
  function Momentum(v1: Vec3, w1: real, v2: Vec3, w2: real): Vec3 {
    Vec3(v1.x * w2 + v2.x * w1, v1.y * w2 + v2.y * w1, v1.z * w2 + v2.z * w1)
  }

  /** Whatever the geometry, the response conserves the pair's momentum. */
  lemma RespondConserves(n: Vec3, gap: real, relProj: real, k: real, v1: Vec3, w1: real, p2: Vec3, v2: Vec3, w2: real)
    ensures var e := Respond(n, gap, relProj, k, v1, w1, p2, v2, w2);
      Momentum(e.vel1, w1, e.vel2, w2) == Momentum(v1, w1, v2, w2)
  {
    if gap < Contact && relProj < 0.0 {
      OpposedKicks(v1, w1, v2, w2, n, k);
    }
  }

  /** One coordinate of OpposedKicks. */
  lemma OpposedComponent(a: real, b: real, n: real, k: real, w1: real, w2: real)
    ensures (a + n * (k * w1)) * w2 + (b + n * (-k * w2)) * w1 == a * w2 + b * w1
  {
    var m := n * k;
    assert n * (k * w1) == m * w1;
    assert n * (-k * w2) == -(m * w2);
    var e := m * w1 * w2;
    assert (a + m * w1) * w2 == a * w2 + e;
    assert (b - m * w2) * w1 == b * w1 - e;
  }

  /** Kicks n*(k*w1) and n*(-k*w2) cancel in the momentum. */
  lemma OpposedKicks(v1: Vec3, w1: real, v2: Vec3, w2: real, n: Vec3, k: real)
    ensures Momentum(v1.Plus(n.Times(k * w1)), w1, v2.Plus(n.Times(-k * w2)), w2) == Momentum(v1, w1, v2, w2)
  {
    var u1, u2 := v1.Plus(n.Times(k * w1)), v2.Plus(n.Times(-k * w2));
    assert u1.x * w2 + u2.x * w1 == v1.x * w2 + v2.x * w1 by {
      OpposedComponent(v1.x, v2.x, n.x, k, w1, w2);
    }
    assert u1.y * w2 + u2.y * w1 == v1.y * w2 + v2.y * w1 by {
      OpposedComponent(v1.y, v2.y, n.y, k, w1, w2);
    }
    assert u1.z * w2 + u2.z * w1 == v1.z * w2 + v2.z * w1 by {
      OpposedComponent(v1.z, v2.z, n.z, k, w1, w2);
    }
  }

  /**
   * An overlapping pair whose centres are apart ends exactly touching, and
   * the first centre is never moved.
   */
  lemma ResolveSeparates(p1: Vec3, v1: Vec3, r1: real, w1: real, p2: Vec3, v2: Vec3, r2: real, w2: real,
                         sqrt: real -> real)
    requires IsSqrt(sqrt) && w1 + w2 != 0.0 && Length(p2.Minus(p1), sqrt) != 0.0
    requires Length(p2.Minus(p1), sqrt) - r2 - r1 < 0.0
    ensures Resolve(p1, v1, r1, w1, p2, v2, r2, w2, sqrt).pos2.Minus(p1).NormSquare() == (r1 + r2) * (r1 + r2)
  {
    CollideSeparates(p2, v2, r2, p1, v1, r1, sqrt);
    assert (r2 + r1) * (r2 + r1) == (r1 + r2) * (r1 + r2);
  }

  /** `solveRigidToRigidCollision` on two sphere objects. */
  method SolveRigidToRigid(a: RigidSphere, b: RigidSphere, sqrt: real -> real)
    requires a != b && a.invMass + b.invMass != 0.0
    modifies a, b
    ensures a.position == old(a.position)
    ensures Exchange(a.velocity, b.position, b.velocity) ==
      Resolve(old(a.position), old(a.velocity), a.radius, a.invMass,
              old(b.position), old(b.velocity), b.radius, b.invMass, sqrt)
  {
    var e := Resolve(a.position, a.velocity, a.radius, a.invMass, b.position, b.velocity, b.radius, b.invMass, sqrt);
    a.velocity, b.velocity, b.position := e.vel1, e.vel2, e.pos2;
  }

  // ---------------------------------------------------------------------
  // Dispatch
  // ---------------------------------------------------------------------

  /** The soft bodies of a pair carry their well-formed buffers. */
  ghost predicate Ready(o: Body) {
    o.Soft? ==> o.soft.Valid()
  }

  /** What a solve may write: a soft body's positions or a sphere's fields. */
  function Footprint(o: Body): set<object> {
    match o
    case Soft(s) => {s.positions}
    case Rigid(b) => {b}
  }

  /**
   * `checkCollision`. The soft-soft test is not part of this model; its
   * answer is passed in as `softSoftHit`.
   */
  method CheckCollision(o1: Body, o2: Body, softSoftHit: bool, sqrt: real -> real) returns (hit: bool)
    requires Ready(o1) && Ready(o2) && IsSqrt(sqrt)
    ensures o1 == o2 ==> !hit
    ensures match Dispatch(o1, o2)
      case Skip => !hit
      case SoftSoft(_, _) => hit == softSoftHit
      case SoftRigid(s, b) => hit <==> exists i :: 0 <= i < s.vertNum && Inside(s.positions[..], i, b.position, b.radius)
      case RigidRigid(b1, b2) => hit == SpheresOverlap(b1.position, b1.radius, b2.position, b2.radius)
  {
    match Dispatch(o1, o2)
    case Skip =>
      hit := false;
    case SoftSoft(_, _) =>
      hit := softSoftHit;
    case SoftRigid(s, b) =>
      hit := CheckSoftToRigid(s, b, sqrt);
    case RigidRigid(b1, b2) =>
      hit := CheckRigidToRigid(b1, b2, sqrt);
  }

  /**
   * `solveCollision`. The self pair changes nothing. The soft-soft response
   * is not part of this model: on that route the method may move the two
   * bodies' vertices, and its contract says nothing more than its frame.
   */
  method SolveCollision(o1: Body, o2: Body, dt: real, sqrt: real -> real)
    requires Ready(o1) && Ready(o2) && (Dispatch(o1, o2).SoftRigid? ==> dt != 0.0)
    requires Dispatch(o1, o2).RigidRigid? ==> o1.sphere.invMass + o2.sphere.invMass != 0.0
    modifies Footprint(o1), Footprint(o2)
    ensures o1 == o2 ==> unchanged(Footprint(o1))
    ensures match Dispatch(o1, o2)
      case Skip => true
      case SoftSoft(_, _) => true
      case SoftRigid(s, b) =>
        && b.position == old(b.position)
        && s.positions[..] == Settled(old(s.positions[..]), b.position, b.radius, s.vertNum, sqrt)
        && b.velocity == old(b.velocity).Minus(
             KickSum(old(s.positions[..]), s.vertMasses, b.position, b.radius, dt, b.invMass, s.vertNum, sqrt))
      case RigidRigid(b1, b2) =>
        && b1.position == old(b1.position)
        && Exchange(b1.velocity, b2.position, b2.velocity) ==
           Resolve(old(b1.position), old(b1.velocity), b1.radius, b1.invMass,
                   old(b2.position), old(b2.velocity), b2.radius, b2.invMass, sqrt)
  {
    match Dispatch(o1, o2)
    case Skip =>
    case SoftSoft(_, _) =>
    case SoftRigid(s, b) =>
      SolveSoftToRigid(s, b, dt, sqrt);
    case RigidRigid(b1, b2) =>
      SolveRigidToRigid(b1, b2, sqrt);
  }
}
