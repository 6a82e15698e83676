/**
 * The flat 3-vector kernel of src/vector.ts.
 *
 * Positions and velocities live in flat numeric buffers; vector number `i`
 * occupies the three entries 3*i, 3*i+1 and 3*i+2 (a "slot"). The kernel's
 * in-place operations overwrite exactly one slot of a destination buffer.
 * Float32 values are idealised as `real`.
 */
module Vector {

  /** A 3-vector as a value. */
  datatype Vec3 = Vec3(x: real, y: real, z: real) {

    function Plus(b: Vec3): Vec3 {
      Vec3(x + b.x, y + b.y, z + b.z)
    }

    function Minus(b: Vec3): Vec3 {
      Vec3(x - b.x, y - b.y, z - b.z)
    }

    function Times(s: real): Vec3 {
      Vec3(x * s, y * s, z * s)
    }

    function Dot(b: Vec3): real {
      x * b.x + y * b.y + z * b.z
    }

    function Cross(b: Vec3): Vec3 {
      Vec3(y * b.z - z * b.y, z * b.x - x * b.z, x * b.y - y * b.x)
    }

    function NormSquare(): real {
      Dot(this)
    }
  }

  const Zero: Vec3 := Vec3(0.0, 0.0, 0.0)

  /** `sqrt` behaves as the non-negative square root on non-negative reals. */
  ghost predicate IsSqrt(sqrt: real -> real) {
    forall r :: r >= 0.0 ==> sqrt(r) >= 0.0 && sqrt(r) * sqrt(r) == r
  }

  /** Slot `i` of a flat buffer exists. */
  predicate HasSlot(a: seq<real>, i: int) {
    0 <= i && 3 * i + 2 < |a|
  }

  /** The vector stored in slot `i`. */
  function At(a: seq<real>, i: int): Vec3
    requires HasSlot(a, i)
  {
    Vec3(a[3 * i], a[3 * i + 1], a[3 * i + 2])
  }

  /** `a` with slot `i` overwritten by `v`. */
  function Put(a: seq<real>, i: int, v: Vec3): (r: seq<real>)
    requires HasSlot(a, i)
    ensures |r| == |a| && HasSlot(r, i) && At(r, i) == v
    ensures forall k :: 0 <= k < |a| && (k < 3 * i || 3 * i + 2 < k) ==> r[k] == a[k]
    ensures forall j :: HasSlot(a, j) && j != i ==> At(r, j) == At(a, j)
  {
    a[3 * i := v.x][3 * i + 1 := v.y][3 * i + 2 := v.z]
  }

  /** A sequence that agrees with `a` outside slot i and holds v in slot
      i is `Put(a, i, v)`. */
  lemma PutExtensional(a: seq<real>, b: seq<real>, i: int, v: Vec3)
    requires HasSlot(a, i) && |b| == |a|
    requires b[3 * i] == v.x && b[3 * i + 1] == v.y && b[3 * i + 2] == v.z
    requires forall k :: 0 <= k < |a| && k != 3 * i && k != 3 * i + 1 && k != 3 * i + 2 ==> b[k] == a[k]
    ensures b == Put(a, i, v)
  {
  }

  /** A second write to the same slot overrides the first. */
  lemma PutTwice(a: seq<real>, i: int, v: Vec3, w: Vec3)
    requires HasSlot(a, i)
    ensures Put(Put(a, i, v), i, w) == Put(a, i, w)
  {
  }

  // ---------------------------------------------------------------------
  // Algebra of the value-level operations
  // ---------------------------------------------------------------------

  lemma DotSymmetric(a: Vec3, b: Vec3)
    ensures a.Dot(b) == b.Dot(a)
  {
  }

  lemma NormSquareNonNegative(a: Vec3)
    ensures a.NormSquare() >= 0.0
  {
    assert a.x * a.x >= 0.0 && a.y * a.y >= 0.0 && a.z * a.z >= 0.0 by {
      Square(a.x);
      Square(a.y);
      Square(a.z);
    }
  }

  lemma Square(r: real)
    ensures r * r >= 0.0
  {
    if r < 0.0 {
      assert r * r == (-r) * (-r);
    }
  }

  /** The cross product is orthogonal to both of its operands. */
  lemma CrossOrthogonal(a: Vec3, b: Vec3)
    ensures a.Cross(b).Dot(a) == 0.0
    ensures a.Cross(b).Dot(b) == 0.0
  {
  }

  lemma CrossSelf(a: Vec3)
    ensures a.Cross(a) == Zero
  {
  }

  /** Subtracting is adding with scale -1: `subi` and `addi(.., -1)` agree. */
  lemma MinusIsPlusNegated(a: Vec3, b: Vec3)
    ensures a.Minus(b) == a.Plus(b.Times(-1.0))
  {
  }

  // ---------------------------------------------------------------------
  // Pure readers of src/vector.ts
  // ---------------------------------------------------------------------

  /** `dot`: the scalar product of slot i1 of rs1 and slot i2 of rs2. */
  function Dot(rs1: array<real>, i1: int, rs2: array<real>, i2: int): (r: real)
    reads rs1, rs2
    requires HasSlot(rs1[..], i1) && HasSlot(rs2[..], i2)
    ensures r == At(rs1[..], i1).Dot(At(rs2[..], i2))
  {
    rs1[3 * i1] * rs2[3 * i2] + rs1[3 * i1 + 1] * rs2[3 * i2 + 1] + rs1[3 * i1 + 2] * rs2[3 * i2 + 2]
  }

  /** `normSquare`: the squared length of slot i, never negative. */
  function NormSquare(rs: array<real>, i: int): (r: real)
    reads rs
    requires HasSlot(rs[..], i)
    ensures r >= 0.0
    ensures r == At(rs[..], i).NormSquare()
  {
    NormSquareNonNegative(At(rs[..], i));
    Dot(rs, i, rs, i)
  }

  /** `distSquare`: the squared distance between two slots, i.e. the squared
      norm of their difference as `sub` would store it. */
  function DistSquare(rs1: array<real>, i1: int, rs2: array<real>, i2: int): (r: real)
    reads rs1, rs2
    requires HasSlot(rs1[..], i1) && HasSlot(rs2[..], i2)
    ensures r == At(rs1[..], i1).Minus(At(rs2[..], i2)).NormSquare()
    ensures r >= 0.0
  {
    NormSquareNonNegative(At(rs1[..], i1).Minus(At(rs2[..], i2)));
    Sq(rs1[3 * i1] - rs2[3 * i2]) + Sq(rs1[3 * i1 + 1] - rs2[3 * i2 + 1]) + Sq(rs1[3 * i1 + 2] - rs2[3 * i2 + 2])
  }

  function Sq(r: real): real {
    r * r
  }

  // ---------------------------------------------------------------------
  // In-place writers of src/vector.ts: each overwrites exactly one slot.
  // Sources are read as they were before the call, which is what the
  // source computes even when `rd` is the same buffer as a source: each
  // component reads only its own offset, and two slots are either equal
  // or disjoint.
  // ---------------------------------------------------------------------

  /** `set`: slot i becomes (x, y, z). */
  method Set(rd: array<real>, i: int, x: real, y: real, z: real)
    requires HasSlot(rd[..], i)
    modifies rd
    ensures rd[..] == Put(old(rd[..]), i, Vec3(x, y, z))
  {
    ghost var want := Vec3(x, y, z);
    ghost var before := rd[..];
    rd[3 * i] := x;
    rd[3 * i + 1] := y;
    rd[3 * i + 2] := z;
    PutExtensional(before, rd[..], i, want);
  }

  /** `add`: slot i0 of rd becomes rs1[i1] + rs2[i2] * scale. */
  method Add(rd: array<real>, i0: int, rs1: array<real>, i1: int, rs2: array<real>, i2: int, scale: real := 1.0)
    requires HasSlot(rd[..], i0) && HasSlot(rs1[..], i1) && HasSlot(rs2[..], i2)
    modifies rd
    ensures rd[..] == Put(old(rd[..]), i0, At(old(rs1[..]), i1).Plus(At(old(rs2[..]), i2).Times(scale)))
  {
    ghost var want := At(rs1[..], i1).Plus(At(rs2[..], i2).Times(scale));
    ghost var before := rd[..];
    rd[3 * i0] := rs1[3 * i1] + rs2[3 * i2] * scale;
    rd[3 * i0 + 1] := rs1[3 * i1 + 1] + rs2[3 * i2 + 1] * scale;
    rd[3 * i0 + 2] := rs1[3 * i1 + 2] + rs2[3 * i2 + 2] * scale;
    PutExtensional(before, rd[..], i0, want);
  }

  /** `addi`: slot i0 of rd is incremented by rs[i1] * scale. */
  method Addi(rd: array<real>, i0: int, rs: array<real>, i1: int, scale: real := 1.0)
    requires HasSlot(rd[..], i0) && HasSlot(rs[..], i1)
    modifies rd
    ensures rd[..] == Put(old(rd[..]), i0, At(old(rd[..]), i0).Plus(At(old(rs[..]), i1).Times(scale)))
  {
    ghost var want := At(rd[..], i0).Plus(At(rs[..], i1).Times(scale));
    ghost var before := rd[..];
    rd[3 * i0] := rd[3 * i0] + rs[3 * i1] * scale;
    rd[3 * i0 + 1] := rd[3 * i0 + 1] + rs[3 * i1 + 1] * scale;
    rd[3 * i0 + 2] := rd[3 * i0 + 2] + rs[3 * i1 + 2] * scale;
    PutExtensional(before, rd[..], i0, want);
  }

  /** `sub`: slot i0 of rd becomes rs1[i1] - rs2[i2]. */
  method Sub(rd: array<real>, i0: int, rs1: array<real>, i1: int, rs2: array<real>, i2: int)
    requires HasSlot(rd[..], i0) && HasSlot(rs1[..], i1) && HasSlot(rs2[..], i2)
    modifies rd
    ensures rd[..] == Put(old(rd[..]), i0, At(old(rs1[..]), i1).Minus(At(old(rs2[..]), i2)))
  {
    ghost var want := At(rs1[..], i1).Minus(At(rs2[..], i2));
    ghost var before := rd[..];
    rd[3 * i0] := rs1[3 * i1] - rs2[3 * i2];
    rd[3 * i0 + 1] := rs1[3 * i1 + 1] - rs2[3 * i2 + 1];
    rd[3 * i0 + 2] := rs1[3 * i1 + 2] - rs2[3 * i2 + 2];
    PutExtensional(before, rd[..], i0, want);
  }

  /** `subi`: slot i0 of rd is decremented by rs[i1]; the same effect as
      `addi` with scale -1 (see MinusIsPlusNegated). */
  method Subi(rd: array<real>, i0: int, rs: array<real>, i1: int)
    requires HasSlot(rd[..], i0) && HasSlot(rs[..], i1)
    modifies rd
    ensures rd[..] == Put(old(rd[..]), i0, At(old(rd[..]), i0).Plus(At(old(rs[..]), i1).Times(-1.0)))
  {
    ghost var want := At(rd[..], i0).Plus(At(rs[..], i1).Times(-1.0));
    ghost var before := rd[..];
    rd[3 * i0] := rd[3 * i0] - rs[3 * i1];
    rd[3 * i0 + 1] := rd[3 * i0 + 1] - rs[3 * i1 + 1];
    rd[3 * i0 + 2] := rd[3 * i0 + 2] - rs[3 * i1 + 2];
    PutExtensional(before, rd[..], i0, want);
  }

  /** `mv`: slot i0 of rd becomes a copy of slot i1 of rs. */
  method Mv(rd: array<real>, i0: int, rs: array<real>, i1: int)
    requires HasSlot(rd[..], i0) && HasSlot(rs[..], i1)
    modifies rd
    ensures rd[..] == Put(old(rd[..]), i0, At(old(rs[..]), i1))
  {
    ghost var want := At(rs[..], i1);
    ghost var before := rd[..];
    rd[3 * i0] := rs[3 * i1];
    rd[3 * i0 + 1] := rs[3 * i1 + 1];
    rd[3 * i0 + 2] := rs[3 * i1 + 2];
    PutExtensional(before, rd[..], i0, want);
  }

  /** `cross`: slot i0 of rd becomes rs1[i1] x rs2[i2]. Unlike the other
      writers, component 1 and 2 read components of the sources that an
      earlier component of the destination may have overwritten, so the
      destination slot must not be a source slot. */
  method Cross(rd: array<real>, i0: int, rs1: array<real>, i1: int, rs2: array<real>, i2: int)
    requires HasSlot(rd[..], i0) && HasSlot(rs1[..], i1) && HasSlot(rs2[..], i2)
    requires rd == rs1 ==> i0 != i1
    requires rd == rs2 ==> i0 != i2
    modifies rd
    ensures rd[..] == Put(old(rd[..]), i0, At(old(rs1[..]), i1).Cross(At(old(rs2[..]), i2)))
  {
    ghost var want := At(rs1[..], i1).Cross(At(rs2[..], i2));
    ghost var before := rd[..];
    rd[3 * i0] := rs1[3 * i1 + 1] * rs2[3 * i2 + 2] - rs1[3 * i1 + 2] * rs2[3 * i2 + 1];
    rd[3 * i0 + 1] := rs1[3 * i1 + 2] * rs2[3 * i2] - rs1[3 * i1] * rs2[3 * i2 + 2];
    rd[3 * i0 + 2] := rs1[3 * i1] * rs2[3 * i2 + 1] - rs1[3 * i1 + 1] * rs2[3 * i2];
    PutExtensional(before, rd[..], i0, want);
  }

  /** `scale`: the three components of slot i are multiplied by s. */
  method Scale(rd: array<real>, i: int, s: real)
    requires HasSlot(rd[..], i)
    modifies rd
    ensures rd[..] == Put(old(rd[..]), i, At(old(rd[..]), i).Times(s))
  {
    ghost var want := At(rd[..], i).Times(s);
    ghost var before := rd[..];
    rd[3 * i] := rd[3 * i] * s;
    rd[3 * i + 1] := rd[3 * i + 1] * s;
    rd[3 * i + 2] := rd[3 * i + 2] * s;
    PutExtensional(before, rd[..], i, want);
  }
}
