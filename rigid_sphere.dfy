/**
 * A rigid sphere (src/rigidSphere.ts): a centre and a velocity updated in
 * place, a radius and an inverse mass fixed at construction. It is stepped
 * with semi-implicit Euler, reflected off the five boundary planes with
 * restitution 0.5, and pushed apart from the other spheres of the scene.
 * Vector lengths use a square root passed in as `sqrt`.
 */
module RigidSpheres {
  import opened Vector
  import opened Boundary

  /** The restitution of both the sphere-sphere and the sphere-plane response. */
  const Restitution: real := 0.5

  /** Responses to an approaching contact fire below this gap. */
  const Contact: real := 0.01

  // ---------------------------------------------------------------------
  // Lengths and directions, three.js style
  // ---------------------------------------------------------------------

  function Length(v: Vec3, sqrt: real -> real): real {
    sqrt(v.NormSquare())
  }

  lemma SquareMonotone(l: real, a: real)
    requires 0.0 <= l < a
    ensures l * l < a * a
  {
    var ll, la, aa := l * l, l * a, a * a;
    assert ll <= la;
    assert la < aa;
  }

  /** Two non-negative reals with the same square are equal. */
  lemma RootUnique(l: real, a: real)
    requires l >= 0.0 && a >= 0.0 && l * l == a * a
    ensures l == a
  {
    if l < a {
      SquareMonotone(l, a);
    } else if l > a {
      SquareMonotone(a, l);
    }
  }

  lemma NormSquareTimes(v: Vec3, s: real)
    ensures v.Times(s).NormSquare() == s * s * v.NormSquare()
  {
    assert v.x * s * (v.x * s) == s * s * (v.x * v.x);
    assert v.y * s * (v.y * s) == s * s * (v.y * v.y);
    assert v.z * s * (v.z * s) == s * s * (v.z * v.z);
  }

  /**
   * `Vector3.normalize`: divide by the length or, when that is zero, by 1,
   * so the zero vector stays zero.
   */
  function Normalize(v: Vec3, sqrt: real -> real): Vec3 {
    var l := Length(v, sqrt);
    if l == 0.0 then v else v.Times(1.0 / l)
  }

  /** Scaling by 1/l and then by l gives back the vector. */
  lemma ScaleBack(v: Vec3, l: real)
    requires l != 0.0
    ensures v.Times(1.0 / l).Times(l) == v
  {
    assert v.x * (1.0 / l) * l == v.x;
    assert v.y * (1.0 / l) * l == v.y;
    assert v.z * (1.0 / l) * l == v.z;
  }

  /**
   * A vector of non-zero length normalizes to a unit vector that scales
   * back to it; one of zero length is left as it is.
   */
  lemma NormalizeUnit(v: Vec3, sqrt: real -> real)
    requires IsSqrt(sqrt)
    ensures Length(v, sqrt) == 0.0 ==> Normalize(v, sqrt) == v
    ensures Length(v, sqrt) != 0.0 ==>
      Normalize(v, sqrt).NormSquare() == 1.0 && v == Normalize(v, sqrt).Times(Length(v, sqrt))
  {
    var l := Length(v, sqrt);
    if l != 0.0 {
      NormSquareNonNegative(v);
      var ns := v.NormSquare();
      assert l * l == ns;
      NormSquareTimes(v, 1.0 / l);
      var k := 1.0 / l;
      assert k * k * ns == 1.0 by {
        assert k * l == 1.0;
        assert k * k * (l * l) == (k * l) * (k * l);
      }
      ScaleBack(v, l);
    }
  }

  /** Where the length of `v` is known, it is the non-negative root of its square. */
  lemma LengthOfScaled(v: Vec3, s: real, sqrt: real -> real)
    requires IsSqrt(sqrt) && v.NormSquare() == 1.0
    ensures Length(v.Times(s), sqrt) == (if s < 0.0 then -s else s)
  {
    NormSquareTimes(v, s);
    var l := Length(v.Times(s), sqrt);
    var a := if s < 0.0 then -s else s;
    assert a * a == s * s;
    RootUnique(l, a);
  }

  // ---------------------------------------------------------------------
  // Semi-implicit Euler
  // ---------------------------------------------------------------------

  /** `applyStates`: gravity lowers the y velocity, then the centre moves with the new velocity. */
  function Euler(s: Particle, dt: real, gravity: real): Particle {
    var v := Vec3(s.vel.x, s.vel.y - gravity * dt, s.vel.z);
    Particle(s.pos.Plus(v.Times(dt)), v)
  }

  /**
   * The displacement of one step is the old velocity times dt plus the
   * gravity drop gravity*dt*dt, and only the y velocity changes.
   */
  lemma EulerDisplacement(s: Particle, dt: real, gravity: real)
    ensures Euler(s, dt, gravity).pos.Minus(s.pos) == s.vel.Times(dt).Plus(Vec3(0.0, -gravity * dt * dt, 0.0))
    ensures Euler(s, dt, gravity).vel.x == s.vel.x && Euler(s, dt, gravity).vel.z == s.vel.z
    ensures Euler(s, dt, gravity).vel.y == s.vel.y - gravity * dt
  {
    assert (s.vel.y - gravity * dt) * dt == s.vel.y * dt - gravity * dt * dt;
  }

  // ---------------------------------------------------------------------
  // Reflection off the boundary planes
  // ---------------------------------------------------------------------

  /** The velocity component along plane k's normal, written per plane. */
  function NormalPart(v: Vec3, k: int): real
    requires 0 <= k < PlaneCount
  {
    if k == 0 then v.y
    else if k == 1 then -v.x
    else if k == 2 then v.x
    else if k == 3 then -v.z
    else v.z
  }

  lemma NormalPartIsDot(v: Vec3, k: int)
    requires 0 <= k < PlaneCount
    ensures NormalPart(v, k) == v.Dot(Normals[k])
  {
  }

  /** The part of `v` parallel to plane k. */
  function Tangent(v: Vec3, k: int): Vec3
    requires 0 <= k < PlaneCount
  {
    v.Plus(Along(k, -NormalPart(v, k)))
  }

  /**
   * One iteration of `handleBoundaries`: an approaching sphere closer than
   * Contact has its normal velocity reflected with restitution 0.5, and a
   * sphere overlapping the plane is moved out along the normal.
   */
  function Reflect(s: Particle, k: int, radius: real): Particle
    requires 0 <= k < PlaneCount
  {
    var gap := Gap(s.pos, k) - radius;
    var proj := NormalPart(s.vel, k);
    Particle(if gap < 0.0 then s.pos.Plus(Along(k, -gap)) else s.pos,
             if gap < Contact && proj < 0.0 then s.vel.Plus(Along(k, -proj * (1.0 + Restitution))) else s.vel)
  }

  /** The sphere after the first `k` planes have handled it. */
  function Reflected(s: Particle, k: nat, radius: real): Particle
    requires k <= PlaneCount
  {
    if k == 0 then s else Reflect(Reflected(s, k - 1, radius), k - 1, radius)
  }

  /**
   * The reflection keeps the tangential velocity and turns an approaching
   * normal velocity `proj` into `-0.5 * proj`; otherwise the velocity is kept.
   */
  lemma ReflectVelocity(s: Particle, k: int, radius: real)
    requires 0 <= k < PlaneCount
    ensures Tangent(Reflect(s, k, radius).vel, k) == Tangent(s.vel, k)
    ensures var proj := NormalPart(s.vel, k);
      NormalPart(Reflect(s, k, radius).vel, k) ==
        if Gap(s.pos, k) - radius < Contact && proj < 0.0 then -Restitution * proj else proj
  {
  }

  /**
   * The reflection leaves the centre at least `radius` from the plane, and
   * moves it exactly when it was closer than that.
   */
  lemma ReflectPosition(s: Particle, k: int, radius: real)
    requires 0 <= k < PlaneCount
    ensures Gap(Reflect(s, k, radius).pos, k) - radius == Max(Gap(s.pos, k) - radius, 0.0)
    ensures Reflect(s, k, radius).pos != s.pos <==> Gap(s.pos, k) < radius
  {
    GapAlongNormal(s.pos, k, radius - Gap(s.pos, k));
  }

  /** What each reflection does to the centre, axis by axis. */
  lemma ReflectAxes(s: Particle, k: int, r: real)
    requires 0 <= k < PlaneCount
    ensures k == 0 ==> Reflect(s, k, r).pos == Vec3(s.pos.x, Max(s.pos.y, r), s.pos.z)
    ensures k == 1 ==> Reflect(s, k, r).pos == Vec3(Min(s.pos.x, Bound - r), s.pos.y, s.pos.z)
    ensures k == 2 ==> Reflect(s, k, r).pos == Vec3(Max(s.pos.x, r - Bound), s.pos.y, s.pos.z)
    ensures k == 3 ==> Reflect(s, k, r).pos == Vec3(s.pos.x, s.pos.y, Min(s.pos.z, Bound - r))
    ensures k == 4 ==> Reflect(s, k, r).pos == Vec3(s.pos.x, s.pos.y, Max(s.pos.z, r - Bound))
  {
    GapAxes(s.pos);
  }

  /** The five reflections clamp the centre into the box shrunk by the radius. */
  lemma ReflectedClamps(s: Particle, r: real)
    ensures Reflected(s, PlaneCount, r).pos ==
      Vec3(Max(Min(s.pos.x, Bound - r), r - Bound), Max(s.pos.y, r), Max(Min(s.pos.z, Bound - r), r - Bound))
  {
    var p := s.pos;
    var y := Max(p.y, r);
    var x := Max(Min(p.x, Bound - r), r - Bound);
    assert Reflected(s, 1, r).pos == Vec3(p.x, y, p.z) by {
      ReflectAxes(s, 0, r);
    }
    assert Reflected(s, 2, r).pos == Vec3(Min(p.x, Bound - r), y, p.z) by {
      ReflectAxes(Reflected(s, 1, r), 1, r);
    }
    assert Reflected(s, 3, r).pos == Vec3(x, y, p.z) by {
      ReflectAxes(Reflected(s, 2, r), 2, r);
    }
    assert Reflected(s, 4, r).pos == Vec3(x, y, Min(p.z, Bound - r)) by {
      ReflectAxes(Reflected(s, 3, r), 3, r);
    }
    ReflectAxes(Reflected(s, 4, r), 4, r);
  }

  /**
   * A sphere no wider than the box ends at least its radius away from every
   * plane.
   */
  lemma ReflectedInside(s: Particle, r: real)
    requires r <= Bound
    ensures forall k :: 0 <= k < PlaneCount ==> Gap(Reflected(s, PlaneCount, r).pos, k) >= r
  {
    ReflectedClamps(s, r);
    GapAxes(Reflected(s, PlaneCount, r).pos);
  }

  // ---------------------------------------------------------------------
  // Sphere against sphere
  // ---------------------------------------------------------------------

  /** The new centre of `this` and the new velocities of both spheres. */
  datatype Impact = Impact(pos: Vec3, vel: Vec3, otherVel: Vec3)

  /**
   * One iteration of `handleCollision` for the pair (this, other): the
   * direction points from the other centre to this one; an approaching pair
   * closer than Contact exchanges equal and opposite velocity changes, and
   * an overlapping `this` is moved out along the unit direction.
   */
  function Collide(p1: Vec3, v1: Vec3, r1: real, p2: Vec3, v2: Vec3, r2: real, sqrt: real -> real): Impact {
    var dir := p1.Minus(p2);
    var gap := Length(dir, sqrt) - r1 - r2;
    var relProj := dir.Dot(v1.Minus(v2));
    var n := Normalize(dir, sqrt);
    var hit := gap < Contact && relProj < 0.0;
    Impact(if gap < 0.0 then p1.Plus(n.Times(-gap)) else p1,
           if hit then v1.Plus(n.Times(-relProj * Restitution)) else v1,
           if hit then v2.Plus(n.Times(relProj * Restitution)) else v2)
  }

  /** The response never changes the sum of the two velocities. */
  lemma CollideConserves(p1: Vec3, v1: Vec3, r1: real, p2: Vec3, v2: Vec3, r2: real, sqrt: real -> real)
    ensures var i := Collide(p1, v1, r1, p2, v2, r2, sqrt); i.vel.Plus(i.otherVel) == v1.Plus(v2)
  {
    var n := Normalize(p1.Minus(p2), sqrt);
    var a := p1.Minus(p2).Dot(v1.Minus(v2)) * Restitution;
    assert n.x * (-a) + n.x * a == 0.0 && n.y * (-a) + n.y * a == 0.0 && n.z * (-a) + n.z * a == 0.0;
  }

  /**
   * An overlapping pair whose centres are apart ends exactly touching: the
   * new centre of `this` is r1 + r2 away from the other centre.
   */
  lemma CollideSeparates(p1: Vec3, v1: Vec3, r1: real, p2: Vec3, v2: Vec3, r2: real, sqrt: real -> real)
    requires IsSqrt(sqrt) && Length(p1.Minus(p2), sqrt) != 0.0
    requires Length(p1.Minus(p2), sqrt) - r1 - r2 < 0.0
    ensures Collide(p1, v1, r1, p2, v2, r2, sqrt).pos.Minus(p2).NormSquare() == (r1 + r2) * (r1 + r2)
  {
    var dir := p1.Minus(p2);
    var l := Length(dir, sqrt);
    var gap := l - r1 - r2;
    var n := Normalize(dir, sqrt);
    NormalizeUnit(dir, sqrt);
    var q := p1.Plus(n.Times(-gap));
    assert q.Minus(p2) == dir.Plus(n.Times(-gap));
    OffsetAlong(dir, n, l, gap);
    assert l - gap == r1 + r2;
    NormSquareTimes(n, r1 + r2);
  }

  /** Moving a multiple of `n` further along `n`. */
  lemma OffsetAlong(d: Vec3, n: Vec3, l: real, g: real)
    requires d == n.Times(l)
    ensures d.Plus(n.Times(-g)) == n.Times(l - g)
  {
    assert n.x * l + n.x * (-g) == n.x * (l - g);
    assert n.y * l + n.y * (-g) == n.y * (l - g);
    assert n.z * l + n.z * (-g) == n.z * (l - g);
  }

  // ---------------------------------------------------------------------
  // The sphere object
  // ---------------------------------------------------------------------

  /** No sphere occurs twice in the list. */
  predicate Distinct(spheres: seq<RigidSphere>) {
    forall i, j :: 0 <= i < j < |spheres| ==> spheres[i] != spheres[j]
  }

  function Velocities(spheres: seq<RigidSphere>): (vs: seq<Vec3>)
    reads spheres
    ensures |vs| == |spheres| && forall i :: 0 <= i < |spheres| ==> vs[i] == spheres[i].velocity
  {
    seq(|spheres|, i requires 0 <= i < |spheres| reads spheres => spheres[i].velocity)
  }

  /** The sum of a list of vectors. */
  function Total(vs: seq<Vec3>): Vec3 {
    if |vs| == 0 then Zero else Total(vs[..|vs| - 1]).Plus(vs[|vs| - 1])
  }

  /** Replacing one entry changes the sum by the difference. */
  lemma {:induction false} TotalUpdate(vs: seq<Vec3>, i: int, v: Vec3)
    requires 0 <= i < |vs|
    ensures Total(vs[i := v]) == Total(vs).Plus(v.Minus(vs[i]))
    decreases |vs|
  {
    var n := |vs| - 1;
    if i < n {
      assert vs[i := v][..n] == vs[..n][i := v];
      TotalUpdate(vs[..n], i, v);
    } else {
      assert vs[i := v][..n] == vs[..n];
    }
  }

  /**
   * Two entries exchanging velocity with their sum kept leave the total
   * unchanged.
   */
  lemma TotalExchange(vs: seq<Vec3>, j: int, i: int, a: Vec3, b: Vec3)
    requires 0 <= j < |vs| && 0 <= i < |vs| && i != j
    requires a.Plus(b) == vs[j].Plus(vs[i])
    ensures Total(vs[j := a][i := b]) == Total(vs)
  {
    TotalUpdate(vs, j, a);
    TotalUpdate(vs[j := a], i, b);
  }

  function Positions(spheres: seq<RigidSphere>): (ps: seq<Vec3>)
    reads spheres
    ensures |ps| == |spheres| && forall i :: 0 <= i < |spheres| ==> ps[i] == spheres[i].position
  {
    seq(|spheres|, i requires 0 <= i < |spheres| reads spheres => spheres[i].position)
  }

  /**
   * What `handleCollision` carries through its loop: the centre and the
   * velocity of the sphere that runs it, and the velocity of every entry of
   * the list (an entry that is that sphere carries its velocity too).
   */
  datatype Sweep = Sweep(pos: Vec3, vel: Vec3, vels: seq<Vec3>)

  /**
   * One pass of the loop, for entry i whose centre is q: skipped when the
   * entry is `me`; otherwise the pair responds by `Collide`, and every entry
   * naming the same object as entry i, or `me`, takes its new velocity.
   */
  function Step(me: RigidSphere, spheres: seq<RigidSphere>, s: Sweep, i: int, q: Vec3, sqrt: real -> real): (r: Sweep)
    requires 0 <= i < |spheres| == |s.vels|
    ensures |r.vels| == |spheres|
  {
    if spheres[i] == me then s
    else
      var hit := Collide(s.pos, s.vel, me.radius, q, s.vels[i], spheres[i].radius, sqrt);
      Sweep(hit.pos, hit.vel, Pass(me, spheres, s.vels, i, hit.vel, hit.otherVel))
  }

  /**
   * The list's velocities after entry i responded with `b` and `me` with
   * `a`: every entry naming either object takes that object's new velocity.
   */
  function Pass(me: RigidSphere, spheres: seq<RigidSphere>, vels: seq<Vec3>, i: int, a: Vec3, b: Vec3): (r: seq<Vec3>)
    requires 0 <= i < |spheres| == |vels| && spheres[i] != me
    ensures |r| == |vels|
    ensures forall k :: 0 <= k < |vels| ==>
      r[k] == if spheres[k] == spheres[i] then b else if spheres[k] == me then a else vels[k]
  {
    seq(|vels|, k requires 0 <= k < |vels| =>
      if spheres[k] == spheres[i] then b else if spheres[k] == me then a else vels[k])
  }

  /** In a list holding every sphere once, a pass writes exactly the two entries of the pair. */
  lemma PassDistinct(me: RigidSphere, spheres: seq<RigidSphere>, vels: seq<Vec3>, i: int, j: int, a: Vec3, b: Vec3)
    requires 0 <= i < |spheres| == |vels| && spheres[i] != me
    requires Distinct(spheres) && 0 <= j < |spheres| && spheres[j] == me
    ensures Pass(me, spheres, vels, i, a, b) == vels[j := a][i := b]
  {
    assert i != j;
    forall k | 0 <= k < |vels|
      ensures Pass(me, spheres, vels, i, a, b)[k] == vels[j := a][i := b][k]
    {
      assert k != i ==> spheres[k] != spheres[i];
      assert k != j ==> spheres[k] != me;
    }
  }

  /**
   * The first n passes of the loop from `start`; ps holds the centres of
   * the entries, which no pass moves except the one of `me`, which the loop skips.
   */
  function Swept(me: RigidSphere, spheres: seq<RigidSphere>, ps: seq<Vec3>, start: Sweep, n: nat, sqrt: real -> real): (r: Sweep)
    requires n <= |spheres| && |ps| == |spheres| && |start.vels| == |spheres|
    ensures |r.vels| == |spheres|
  {
    if n == 0 then start
    else Step(me, spheres, Swept(me, spheres, ps, start, n - 1, sqrt), n - 1, ps[n - 1], sqrt)
  }

  /**
   * One pass over a list holding every sphere once, `me` among them, keeps
   * the sum of all velocities, and keeps me's entry carrying me's velocity.
   */
  lemma StepConserves(me: RigidSphere, spheres: seq<RigidSphere>, s: Sweep, i: int, q: Vec3, j: int, sqrt: real -> real)
    requires 0 <= i < |spheres| == |s.vels|
    requires Distinct(spheres) && 0 <= j < |spheres| && spheres[j] == me && s.vels[j] == s.vel
    ensures Step(me, spheres, s, i, q, sqrt).vels[j] == Step(me, spheres, s, i, q, sqrt).vel
    ensures Total(Step(me, spheres, s, i, q, sqrt).vels) == Total(s.vels)
  {
    if spheres[i] != me {
      var hit := Collide(s.pos, s.vel, me.radius, q, s.vels[i], spheres[i].radius, sqrt);
      CollideConserves(s.pos, s.vel, me.radius, q, s.vels[i], spheres[i].radius, sqrt);
      PassDistinct(me, spheres, s.vels, i, j, hit.vel, hit.otherVel);
      TotalExchange(s.vels, j, i, hit.vel, hit.otherVel);
    }
  }

  /**
   * When the list holds every sphere once, `me` among them, and the start
   * state is consistent (me's entry carries me's velocity), the loop keeps
   * the sum of all velocities, and keeps the state consistent.
   */
  lemma {:induction false} SweptConserves(me: RigidSphere, spheres: seq<RigidSphere>, ps: seq<Vec3>, start: Sweep,
                                          n: nat, j: int, sqrt: real -> real)
    requires n <= |spheres| && |ps| == |spheres| && |start.vels| == |spheres|
    requires Distinct(spheres) && 0 <= j < |spheres| && spheres[j] == me && start.vels[j] == start.vel
    ensures Swept(me, spheres, ps, start, n, sqrt).vels[j] == Swept(me, spheres, ps, start, n, sqrt).vel
    ensures Total(Swept(me, spheres, ps, start, n, sqrt).vels) == Total(start.vels)
  {
    if n > 0 {
      var prev := Swept(me, spheres, ps, start, n - 1, sqrt);
      var next := Step(me, spheres, prev, n - 1, ps[n - 1], sqrt);
      assert prev.vels[j] == prev.vel && Total(prev.vels) == Total(start.vels) by {
        SweptConserves(me, spheres, ps, start, n - 1, j, sqrt);
      }
      assert next.vels[j] == next.vel && Total(next.vels) == Total(prev.vels) by {
        StepConserves(me, spheres, prev, n - 1, ps[n - 1], j, sqrt);
      }
      assert Swept(me, spheres, ps, start, n, sqrt) == next;
    }
  }

  class RigidSphere {
    var position: Vec3
    var velocity: Vec3
    const radius: real
    const invMass: real

    /**
     * A sphere at the origin and at rest, with inverse mass 4*pi/radius^3;
     * `pi` stands for Math.PI.
     */
    constructor (radius: real, pi: real)
      requires radius != 0.0
      ensures position == Zero && velocity == Zero
      ensures this.radius == radius && invMass == 4.0 * pi / (radius * radius * radius)
    {
      position := Zero;
      velocity := Zero;
      this.radius := radius;
      assert radius * radius != 0.0;
      assert radius * radius * radius != 0.0;
      invMass := 4.0 * pi / (radius * radius * radius);
    }

    function State(): Particle
      reads this
    {
      Particle(position, velocity)
    }

    method ApplyStates(dt: real, gravity: real)
      modifies this
      ensures State() == Euler(old(State()), dt, gravity)
    {
      velocity := velocity.Plus(Vec3(0.0, -gravity * dt, 0.0));
      position := position.Plus(velocity.Times(dt));
    }

    /** One iteration of `handleBoundaries`' loop, for plane k. */
    method FacePlane(k: int)
      requires 0 <= k < PlaneCount
      modifies this
      ensures State() == Reflect(old(State()), k, radius)
    {
      var gap := position.Minus(Anchors[k]).Dot(Normals[k]) - radius;
      var proj := velocity.Dot(Normals[k]);
      GapIsDot(position, k);
      NormalPartIsDot(velocity, k);
      if gap < Contact && proj < 0.0 {
        AlongIsNormal(k, -proj * (1.0 + Restitution));
        velocity := velocity.Plus(Normals[k].Times(-proj * (1.0 + Restitution)));
      }
      if gap < 0.0 {
        AlongIsNormal(k, -gap);
        position := position.Plus(Normals[k].Times(-gap));
      }
    }

    method HandleBoundaries()
      modifies this
      ensures State() == Reflected(old(State()), PlaneCount, radius)
      ensures radius <= Bound ==> forall k :: 0 <= k < PlaneCount ==> Gap(position, k) >= radius
    {
      for k := 0 to PlaneCount
        invariant State() == Reflected(old(State()), k, radius)
      {
        FacePlane(k);
      }
      if radius <= Bound {
        ReflectedInside(old(State()), radius);
      }
    }

    /** The body of `handleCollision`'s loop for one other sphere. */
    method CollideWith(other: RigidSphere, sqrt: real -> real)
      requires other != this
      modifies this, other
      ensures Impact(position, velocity, other.velocity) ==
        Collide(old(position), old(velocity), radius, old(other.position), old(other.velocity), other.radius, sqrt)
      ensures other.position == old(other.position)
    {
      var dir := position.Minus(other.position);
      var gap := Length(dir, sqrt) - radius - other.radius;
      var relProj := dir.Dot(velocity.Minus(other.velocity));
      dir := Normalize(dir, sqrt);
      if gap < Contact && relProj < 0.0 {
        velocity := velocity.Plus(dir.Times(-relProj * Restitution));
        other.velocity := other.velocity.Plus(dir.Times(relProj * Restitution));
      }
      if gap < 0.0 {
        position := position.Plus(dir.Times(-gap));
      }
    }

    /**
     * `handleCollision`: respond to every other sphere of the list in turn.
     * The new state is the loop's fold over the list; no other sphere's
     * centre moves, and when the list holds each sphere once, including
     * this one, the sum of their velocities is conserved.
     */
    method HandleCollision(spheres: seq<RigidSphere>, sqrt: real -> real)
      modifies this, spheres
      ensures Sweep(position, velocity, Velocities(spheres)) ==
        Swept(this, spheres, old(Positions(spheres)), old(Sweep(position, velocity, Velocities(spheres))), |spheres|, sqrt)
      ensures forall s :: s in spheres && s != this ==> s.position == old(s.position)
      ensures Distinct(spheres) && this in spheres ==> Total(Velocities(spheres)) == old(Total(Velocities(spheres)))
    {
      ghost var ps := Positions(spheres);
      ghost var start := Sweep(position, velocity, Velocities(spheres));
      for i := 0 to |spheres|
        invariant Sweep(position, velocity, Velocities(spheres)) == Swept(this, spheres, ps, start, i, sqrt)
        invariant forall s :: s in spheres && s != this ==> s.position == old(s.position)
        invariant Distinct(spheres) && this in spheres ==> Total(Velocities(spheres)) == old(Total(Velocities(spheres)))
      {
        assert spheres[i] != this ==> spheres[i].position == ps[i];
        Respond(spheres, i, sqrt);
      }
    }

    /**
     * One iteration of `handleCollision`'s loop: `spheres[i]` unless it is
     * this sphere, in which case nothing changes.
     */
    method Respond(spheres: seq<RigidSphere>, i: int, sqrt: real -> real)
      requires 0 <= i < |spheres|
      modifies this, spheres[i]
      ensures Sweep(position, velocity, Velocities(spheres)) ==
        Step(this, spheres, old(Sweep(position, velocity, Velocities(spheres))), i, old(spheres[i].position), sqrt)
      ensures spheres[i] == this ==> position == old(position) && velocity == old(velocity)
      ensures spheres[i] != this ==> spheres[i].position == old(spheres[i].position)
      ensures Distinct(spheres) && this in spheres ==> Total(Velocities(spheres)) == old(Total(Velocities(spheres)))
    {
      var other := spheres[i];
      if other != this {
        ghost var before := Velocities(spheres);
        ghost var p1, v1, v2 := position, velocity, other.velocity;
        CollideWith(other, sqrt);
        assert Velocities(spheres) == Step(this, spheres, Sweep(p1, v1, before), i, old(other.position), sqrt).vels;
        if Distinct(spheres) && this in spheres {
          CollideConserves(p1, v1, radius, other.position, v2, other.radius, sqrt);
          var j :| 0 <= j < |spheres| && spheres[j] == this;
          assert Velocities(spheres) == before[j := velocity][i := other.velocity];
          TotalExchange(before, j, i, velocity, other.velocity);
        }
      }
    }

    method Reset()
      modifies this
      ensures position == Zero && velocity == Zero
    {
      position := Zero;
      velocity := Zero;
    }

    /**
     * The sphere is dragged to `target` and takes the velocity that would
     * have carried it there in one step. The vertex id is unused.
     */
    method GrabInteract(dt: real, target: Vec3, id: int)
      requires dt != 0.0
      modifies this
      ensures position == target
      ensures velocity == target.Minus(old(position)).Times(1.0 / dt)
      ensures old(position).Plus(velocity.Times(dt)) == target
    {
      ghost var p := position;
      var prevPosition := position;
      position := target;
      velocity := position.Minus(prevPosition).Times(1.0 / dt);
      GrabReplays(p, target, dt);
    }

    method Move(x: real, y: real, z: real)
      modifies this
      ensures position == old(position).Plus(Vec3(x, y, z)) && velocity == old(velocity)
    {
      position := position.Plus(Vec3(x, y, z));
    }
  }

  /** The grab velocity, applied for dt, lands exactly on the target. */
  lemma GrabReplays(p: Vec3, target: Vec3, dt: real)
    requires dt != 0.0
    ensures p.Plus(target.Minus(p).Times(1.0 / dt).Times(dt)) == target
  {
    assert (1.0 / dt) * dt == 1.0;
    var d := target.Minus(p);
    assert d.x * (1.0 / dt) * dt == d.x && d.y * (1.0 / dt) * dt == d.y && d.z * (1.0 / dt) * dt == d.z;
  }
}
