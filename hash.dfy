/**
 * The uniform-grid spatial hash of src/hash.ts.
 *
 * A point's cell is the floor of each coordinate divided by `spacing`; a
 * cell is mixed into a bucket of a table of `tableSize` buckets with the
 * JavaScript int32 XOR hash. `Update` is a counting sort that groups the
 * point indices by bucket into `particleTable`, with `countTable[b]` and
 * `countTable[b + 1]` delimiting bucket b. `Query` collects every point
 * stored in a bucket of a box of cells around a query point.
 */
module SpatialHashing {
  import opened Vector
  import opened Counting

  const TwoTo31: int := 0x8000_0000
  const TwoTo32: int := 0x1_0000_0000

  /** The three multipliers of the cell hash. */
  const MulX: int := 92837111
  const MulY: int := 689287499
  const MulZ: int := 283923481

  /** An integer grid cell. */
  datatype Cell = Cell(x: int, y: int, z: int)

  /** `c` lies in the box of cells from `lo` to `hi`, bounds included. */
  predicate Within(c: Cell, lo: Cell, hi: Cell) {
    lo.x <= c.x <= hi.x && lo.y <= c.y <= hi.y && lo.z <= c.z <= hi.z
  }

  // ---------------------------------------------------------------------
  // JavaScript integer semantics used by the hash
  // ---------------------------------------------------------------------

  /** ECMAScript ToUint32 of an integral number: its residue modulo 2^32. */
  function ToUint32(n: int): (r: int)
    ensures 0 <= r < TwoTo32 && (n - r) % TwoTo32 == 0
  {
    n % TwoTo32
  }

  /** A 32-bit pattern read as a two's-complement integer. */
  function Signed(u: int): (r: int)
    requires 0 <= u < TwoTo32
    ensures -TwoTo31 <= r < TwoTo31 && ToUint32(r) == u
  {
    if u < TwoTo31 then u else u - TwoTo32
  }

  function Pow2(k: nat): (r: nat)
    ensures r >= 1
  {
    if k == 0 then 1 else 2 * Pow2(k - 1)
  }

  /** Bitwise exclusive or of the low `width` bits of a and b, bit by bit
      from the least significant one. */
  function BitXor(a: nat, b: nat, width: nat): (r: nat)
    ensures r < Pow2(width)
  {
    if width == 0 then 0
    else (if a % 2 != b % 2 then 1 else 0) + 2 * BitXor(a / 2, b / 2, width - 1)
  }

  lemma {:induction false} Pow2Add(a: nat, b: nat)
    ensures Pow2(a + b) == Pow2(a) * Pow2(b)
  {
    if a > 0 {
      Pow2Add(a - 1, b);
    }
  }

  lemma Pow2Of32()
    ensures Pow2(32) == TwoTo32
  {
    assert Pow2(2) == 4;
    Pow2Add(2, 2);
    Pow2Add(4, 4);
    Pow2Add(8, 8);
    Pow2Add(16, 16);
  }

  /** JavaScript `a ^ b` on integral operands: both operands are taken
      modulo 2^32, their bit patterns are XOR-ed, and the result is read
      back as a signed 32-bit integer. */
  function Xor(a: int, b: int): (r: int)
    ensures -TwoTo31 <= r < TwoTo31
  {
    Pow2Of32();
    Signed(BitXor(ToUint32(a), ToUint32(b), 32))
  }

  /** JavaScript `Math.abs` on an int32 value; -2^31 maps to 2^31, which a
      JavaScript number represents exactly. */
  function Abs(n: int): (r: nat)
    ensures r == n || r == -n
  {
    if n < 0 then -n else n
  }

  /** The XOR mix of a cell with the exact products of its coordinates. */
  function Mix(x: int, y: int, z: int): int {
    Xor(Xor(x * MulX, y * MulY), z * MulZ)
  }

  // ---------------------------------------------------------------------
  // Counting-sort specification
  // ---------------------------------------------------------------------

  /** Where the counting sort puts point j: after every point of a smaller
      bucket, and after every later point of its own bucket. */
  function Slot(keys: seq<int>, j: int): int
    requires 0 <= j < |keys|
  {
    Below(keys, keys[j]) + Occ(keys[j + 1..], keys[j])
  }

  /** `count` and `table` are the result of counting-sorting the point
      indices by `keys` into `t` buckets. */
  ghost predicate BucketSorted(keys: seq<int>, count: seq<int>, table: seq<int>, t: int) {
    && 0 <= t
    && |count| == t + 1
    && |table| == |keys|
    && (forall b :: 0 <= b <= t ==> count[b] == Below(keys, b))
    && (forall k :: 0 <= k < |table| ==> 0 <= table[k] < |keys| && Slot(keys, table[k]) == k)
  }

  ghost predicate KeysIn(keys: seq<int>, t: int) {
    forall j :: 0 <= j < |keys| ==> 0 <= keys[j] < t
  }

  /** Point j's slot lies inside its bucket's run. */
  lemma SlotInRun(keys: seq<int>, j: int)
    requires 0 <= j < |keys|
    ensures Below(keys, keys[j]) <= Slot(keys, j) < Below(keys, keys[j] + 1)
  {
    BelowStep(keys, keys[j]);
    OccPositive(keys, j);
  }

  /** Within one bucket a later point gets an earlier slot. */
  lemma SlotDescending(keys: seq<int>, i: int, j: int)
    requires 0 <= i < j < |keys| && keys[i] == keys[j]
    ensures Slot(keys, i) > Slot(keys, j)
  {
    var b := keys[i];
    var rest := keys[i + 1..];
    OccSplit(rest, j - i - 1, b);
    assert rest[j - i - 1..] == keys[j..];
    OccSuffix(keys, j, b);
  }

  /** Different points get different slots. */
  lemma SlotInjective(keys: seq<int>, i: int, j: int)
    requires 0 <= i < |keys| && 0 <= j < |keys| && i != j
    ensures Slot(keys, i) != Slot(keys, j)
  {
    if keys[i] == keys[j] {
      if i < j { SlotDescending(keys, i, j); } else { SlotDescending(keys, j, i); }
    } else if keys[i] < keys[j] {
      SlotInRun(keys, i);
      SlotInRun(keys, j);
      BelowMonotone(keys, keys[i] + 1, keys[j]);
    } else {
      SlotInRun(keys, i);
      SlotInRun(keys, j);
      BelowMonotone(keys, keys[j] + 1, keys[i]);
    }
  }

  /** The bucket whose run contains position k. */
  lemma FindBucket(keys: seq<int>, t: int, k: int) returns (b: int)
    requires KeysIn(keys, t) && 0 <= k < |keys|
    ensures 0 <= b < t && Below(keys, b) <= k < Below(keys, b + 1)
  {
    BelowZero(keys);
    BelowAll(keys, t);
    b := 0;
    while Below(keys, b + 1) <= k
      invariant 0 <= b < t && Below(keys, b) <= k
      decreases t - b
    {
      if b + 1 >= t {
        BelowMonotone(keys, t, b + 1);
      }
      b := b + 1;
    }
  }

  /** Among the entries from position i on that hold b, one has exactly r
      entries holding b after it, for every r below their number. */
  lemma {:induction false} FindRank(keys: seq<int>, b: int, i: int, r: nat) returns (j: int)
    requires 0 <= i <= |keys| && r < Occ(keys[i..], b)
    ensures i <= j < |keys| && keys[j] == b && Occ(keys[j + 1..], b) == r
    decreases |keys| - i
  {
    OccSuffix(keys, i, b);
    if keys[i] == b && Occ(keys[i + 1..], b) == r {
      j := i;
    } else {
      j := FindRank(keys, b, i + 1, r);
    }
  }

  /** Every position of the table is the slot of some point. */
  lemma SlotOnto(keys: seq<int>, t: int, k: int) returns (j: int)
    requires KeysIn(keys, t) && 0 <= k < |keys|
    ensures 0 <= j < |keys| && Slot(keys, j) == k
  {
    var b := FindBucket(keys, t, k);
    BelowStep(keys, b);
    assert keys[0..] == keys;
    j := FindRank(keys, b, 0, k - Below(keys, b));
  }

  /** The bucket delimiters: the first is 0, the last is the number of
      points, they never decrease, and each run is as long as its bucket
      has points. */
  lemma BucketBounds(keys: seq<int>, count: seq<int>, table: seq<int>, t: int)
    requires KeysIn(keys, t) && BucketSorted(keys, count, table, t)
    ensures count[0] == 0 && count[t] == |keys|
    ensures forall b :: 0 <= b < t ==> count[b] <= count[b + 1] && count[b + 1] - count[b] == Occ(keys, b)
  {
    BelowZero(keys);
    BelowAll(keys, t);
    forall b | 0 <= b < t
      ensures count[b] <= count[b + 1] && count[b + 1] - count[b] == Occ(keys, b)
    {
      BelowStep(keys, b);
    }
  }

  /** Each point appears in the table exactly once, at its slot. */
  lemma BucketPermutation(keys: seq<int>, count: seq<int>, table: seq<int>, t: int)
    requires KeysIn(keys, t) && BucketSorted(keys, count, table, t)
    ensures forall j :: 0 <= j < |keys| ==> 0 <= Slot(keys, j) < |keys| && table[Slot(keys, j)] == j
    ensures forall k1, k2 :: 0 <= k1 < k2 < |table| ==> table[k1] != table[k2]
  {
    forall j | 0 <= j < |keys|
      ensures 0 <= Slot(keys, j) < |keys| && table[Slot(keys, j)] == j
    {
      PointAtSlot(keys, count, table, t, j);
    }
  }

  /** Point j sits in the table at its slot. */
  lemma PointAtSlot(keys: seq<int>, count: seq<int>, table: seq<int>, t: int, j: int)
    requires KeysIn(keys, t) && BucketSorted(keys, count, table, t) && 0 <= j < |keys|
    ensures 0 <= Slot(keys, j) < |keys| && table[Slot(keys, j)] == j
  {
    SlotInRun(keys, j);
    BelowMonotone(keys, keys[j] + 1, t);
    BelowAll(keys, t);
    var k := Slot(keys, j);
    if table[k] != j {
      SlotInjective(keys, table[k], j);
    }
  }

  /** Every table position inside bucket b's run holds a point of bucket b. */
  lemma BucketRuns(keys: seq<int>, count: seq<int>, table: seq<int>, t: int)
    requires KeysIn(keys, t) && BucketSorted(keys, count, table, t)
    ensures forall b, k :: 0 <= b < t && count[b] <= k < count[b + 1] && 0 <= k < |table| ==> keys[table[k]] == b
  {
    forall b, k | 0 <= b < t && count[b] <= k < count[b + 1] && 0 <= k < |table|
      ensures keys[table[k]] == b
    {
      var j := table[k];
      SlotInRun(keys, j);
      if keys[j] < b {
        BelowMonotone(keys, keys[j] + 1, b);
      } else if keys[j] > b {
        BelowMonotone(keys, b + 1, keys[j]);
      }
    }
  }

  /** Within one bucket's run the point indices descend. */
  lemma RunDescending(keys: seq<int>, count: seq<int>, table: seq<int>, t: int)
    requires KeysIn(keys, t) && BucketSorted(keys, count, table, t)
    ensures forall b, k1, k2 :: 0 <= b < t && 0 <= count[b] <= k1 < k2 < count[b + 1] <= |table| ==> table[k1] > table[k2]
  {
    BucketRuns(keys, count, table, t);
    forall b, k1, k2 | 0 <= b < t && 0 <= count[b] <= k1 < k2 < count[b + 1] <= |table|
      ensures table[k1] > table[k2]
    {
      var j1, j2 := table[k1], table[k2];
      assert keys[j1] == b && keys[j2] == b;
      if j1 < j2 {
        SlotDescending(keys, j1, j2);
      }
    }
  }

  /** Each bucket's run is a well-formed range of table positions. */
  lemma RunBounds(keys: seq<int>, count: seq<int>, table: seq<int>, t: int, h: int)
    requires KeysIn(keys, t) && BucketSorted(keys, count, table, t) && 0 <= h < t
    ensures 0 <= count[h] <= count[h + 1] <= |table|
  {
    BucketBounds(keys, count, table, t);
    BelowMonotone(keys, h + 1, t);
  }

  /** Every point's slot lies in the run of its own bucket. */
  lemma PointInRun(keys: seq<int>, count: seq<int>, table: seq<int>, t: int, j: int)
    requires KeysIn(keys, t) && BucketSorted(keys, count, table, t) && 0 <= j < |keys|
    ensures count[keys[j]] <= Slot(keys, j) < count[keys[j] + 1]
  {
    SlotInRun(keys, j);
  }

  // ---------------------------------------------------------------------
  // Real-number helpers
  // ---------------------------------------------------------------------

  lemma MulMonotone(a: real, b: real, s: real)
    requires a <= b && s > 0.0
    ensures a * s <= b * s
  {
    assert b * s - a * s == (b - a) * s;
  }

  lemma MulStrict(a: real, b: real, s: real)
    requires a < b && s > 0.0
    ensures a * s < b * s
  {
    assert b * s - a * s == (b - a) * s;
  }

  lemma SquareBound(a: real, d: real)
    requires d >= 0.0 && a * a <= d * d
    ensures -d <= a <= d
  {
    if a > d {
      assert a * a - d * d == (a - d) * (a + d);
      MulStrict(0.0, a - d, a + d);
    } else if a < -d {
      assert a * a - d * d == (-a - d) * (-a + d);
      MulStrict(0.0, -a - d, -a + d);
    }
  }

  // ---------------------------------------------------------------------
  // The three passes of the counting sort, one step at a time
  // ---------------------------------------------------------------------

  /** After the counting pass has seen the first i points. */
  ghost predicate Counted(keys: seq<int>, c: seq<int>, t: int, i: int) {
    0 <= t && 0 <= i <= |keys| && |c| == t + 1 && forall b :: 0 <= b <= t ==> c[b] == Occ(keys[..i], b)
  }

  /** After the prefix-sum pass has added up to bucket i. */
  ghost predicate Summed(keys: seq<int>, c: seq<int>, t: int, i: int) {
    && 0 <= i <= t && |c| == t + 1
    && (forall b :: 0 <= b <= i ==> c[b] == Below(keys, b + 1))
    && (forall b :: i < b <= t ==> c[b] == Occ(keys, b))
  }

  /** After the scatter pass has placed the first i points. */
  ghost predicate Scattered(keys: seq<int>, c: seq<int>, p: seq<int>, t: int, i: int) {
    && 0 <= t && 0 <= i <= |keys| && |c| == t + 1 && |p| == |keys|
    && (forall b :: 0 <= b < t ==> c[b] == Below(keys, b + 1) - Occ(keys[..i], b))
    && c[t] == |keys|
    && (forall j :: 0 <= j < i ==> 0 <= Slot(keys, j) < |keys| && p[Slot(keys, j)] == j)
  }

  lemma CountedStart(keys: seq<int>, c: seq<int>, t: int)
    requires 0 <= t && |c| == t + 1 && forall b :: 0 <= b <= t ==> c[b] == 0
    ensures Counted(keys, c, t, 0)
  {
    assert keys[..0] == [];
  }

  lemma CountedStep(keys: seq<int>, c: seq<int>, t: int, i: int)
    requires KeysIn(keys, t) && Counted(keys, c, t, i) && i < |keys|
    ensures Counted(keys, c[keys[i] := c[keys[i]] + 1], t, i + 1)
  {
    forall b | 0 <= b <= t
      ensures Occ(keys[..i + 1], b) == Occ(keys[..i], b) + (if b == keys[i] then 1 else 0)
    {
      OccSnoc(keys, i, b);
    }
  }

  lemma SummedStart(keys: seq<int>, c: seq<int>, t: int)
    requires KeysIn(keys, t) && Counted(keys, c, t, |keys|)
    ensures Summed(keys, c, t, 0)
  {
    assert keys[..|keys|] == keys;
    OccAbsent(keys, t);
    BelowZero(keys);
    BelowStep(keys, 0);
  }

  lemma SummedStep(keys: seq<int>, c: seq<int>, t: int, i: int)
    requires Summed(keys, c, t, i) && i < t
    ensures Summed(keys, c[i + 1 := c[i + 1] + c[i]], t, i + 1)
  {
    BelowStep(keys, i + 1);
  }

  lemma ScatteredStart(keys: seq<int>, c: seq<int>, p: seq<int>, t: int)
    requires KeysIn(keys, t) && Summed(keys, c, t, t) && |p| == |keys|
    ensures Scattered(keys, c, p, t, 0)
  {
    assert keys[..0] == [];
    BelowAll(keys, t + 1);
  }

  lemma ScatteredStep(keys: seq<int>, c: seq<int>, p: seq<int>, t: int, i: int)
    requires KeysIn(keys, t) && Scattered(keys, c, p, t, i) && i < |keys|
    ensures 0 <= c[keys[i]] - 1 < |p|
    ensures Scattered(keys, c[keys[i] := c[keys[i]] - 1], p[c[keys[i]] - 1 := i], t, i + 1)
  {
    var h := keys[i];
    BelowStep(keys, h);
    OccSplit(keys, i, h);
    OccSuffix(keys, i, h);
    SlotInRun(keys, i);
    BelowMonotone(keys, h + 1, t);
    BelowAll(keys, t);
    assert c[h] - 1 == Slot(keys, i);
    forall b | 0 <= b < t
      ensures Occ(keys[..i + 1], b) == Occ(keys[..i], b) + (if b == h then 1 else 0)
    {
      OccSnoc(keys, i, b);
    }
    forall j | 0 <= j < i
      ensures Slot(keys, j) != Slot(keys, i)
    {
      SlotInjective(keys, j, i);
    }
  }

  lemma ScatteredDone(keys: seq<int>, c: seq<int>, p: seq<int>, t: int)
    requires KeysIn(keys, t) && Scattered(keys, c, p, t, |keys|)
    ensures BucketSorted(keys, c, p, t)
  {
    assert keys[..|keys|] == keys;
    BelowAll(keys, t);
    forall b | 0 <= b < t
      ensures c[b] == Below(keys, b)
    {
      BelowStep(keys, b);
    }
    forall k | 0 <= k < |keys|
      ensures 0 <= p[k] < |keys| && Slot(keys, p[k]) == k
    {
      var j := SlotOnto(keys, t, k);
    }
  }

  /** Cell c comes before (x, y, z) in the x-major order `query` visits. */
  predicate LexBefore(c: Cell, x: int, y: int, z: int) {
    c.x < x || (c.x == x && (c.y < y || (c.y == y && c.z < z)))
  }

  /** Every point whose cell is in the box from lo to hi and precedes
      (x, y, z) is in ret. */
  ghost predicate Covered(ret: seq<int>, cells: seq<Cell>, lo: Cell, hi: Cell, x: int, y: int, z: int) {
    forall j :: 0 <= j < |cells| && Within(cells[j], lo, hi) && LexBefore(cells[j], x, y, z) ==> j in ret
  }

  lemma RowDone(ret: seq<int>, cells: seq<Cell>, lo: Cell, hi: Cell, x: int, y: int, z: int)
    requires Covered(ret, cells, lo, hi, x, y, z) && z > hi.z
    ensures Covered(ret, cells, lo, hi, x, y + 1, lo.z)
  {
  }

  lemma PlaneDone(ret: seq<int>, cells: seq<Cell>, lo: Cell, hi: Cell, x: int, y: int)
    requires Covered(ret, cells, lo, hi, x, y, lo.z) && y > hi.y
    ensures Covered(ret, cells, lo, hi, x + 1, lo.y, lo.z)
  {
  }

  // ---------------------------------------------------------------------
  // The hash object
  // ---------------------------------------------------------------------

  class SpatialHash {
    /** The live position buffer of the owning body (shared, not copied). */
    const positions: array<real>
    const spacing: real
    const tableSize: int
    const particleNum: int
    const countTable: array<int>
    const particleTable: array<int>
    /** The positions as they were at the last `Update`. */
    ghost var snapshot: seq<real>

    ghost predicate Valid() {
      && spacing > 0.0
      && tableSize > 0
      && particleNum >= 0
      && positions.Length == 3 * particleNum
      && countTable.Length == tableSize + 1
      && particleTable.Length == particleNum
      && countTable != particleTable
    }

    /** The tables hold the counting sort of the snapshot's buckets. */
    ghost predicate Indexed()
      reads this, countTable, particleTable
    {
      && Valid()
      && |snapshot| == 3 * particleNum
      && KeysIn(Keys(snapshot), tableSize)
      && BucketSorted(Keys(snapshot), countTable[..], particleTable[..], tableSize)
    }

    constructor (positions: array<real>, spacing: real, tableSize: int)
      requires spacing > 0.0 && tableSize > 0 && positions.Length % 3 == 0
      ensures Valid() && fresh(countTable) && fresh(particleTable)
      ensures this.positions == positions && this.spacing == spacing && this.tableSize == tableSize
      ensures particleNum == positions.Length / 3
    {
      this.positions := positions;
      this.spacing := spacing;
      this.tableSize := tableSize;
      this.particleNum := positions.Length / 3;
      this.countTable := new int[tableSize + 1];
      this.particleTable := new int[positions.Length / 3];
      this.snapshot := [];
    }

    /** `index`: the cell coordinate of x, the floor of x / spacing. */
    function Index(x: real): int
      requires spacing > 0.0
    {
      (x / spacing).Floor
    }

    /** Cell k along an axis is the interval [k * spacing, (k + 1) * spacing). */
    lemma IndexBounds(x: real)
      requires spacing > 0.0
      ensures Index(x) as real * spacing <= x < (Index(x) + 1) as real * spacing
    {
      var q := x / spacing;
      var r := q.Floor;
      assert r == Index(x);
      assert q * spacing == x;
      assert r as real <= q < (r + 1) as real;
      MulMonotone(r as real, q, spacing);
      MulStrict(q, (r + 1) as real, spacing);
      assert r as real * spacing <= x;
      assert x < (r + 1) as real * spacing;
    }

    /** `hash`: the bucket of a cell, always a valid table index; the
        int32 minimum -2^31 included, whose absolute value JavaScript
        represents exactly. */
    function Hash(x: int, y: int, z: int): (r: int)
      requires tableSize > 0
      ensures 0 <= r < tableSize
    {
      Abs(Mix(x, y, z)) % tableSize
    }

    /** `hashOf`: the bucket of point i of v, the bucket of its cell. */
    function HashOf(v: seq<real>, i: int): (r: int)
      requires spacing > 0.0 && tableSize > 0 && HasSlot(v, i)
      ensures r == Hash(Index(v[3 * i]), Index(v[3 * i + 1]), Index(v[3 * i + 2]))
      ensures 0 <= r < tableSize
    {
      var h := Xor(Xor(Index(v[3 * i]) * MulX, Index(v[3 * i + 1]) * MulY), Index(v[3 * i + 2]) * MulZ);
      Abs(h) % tableSize
    }

    /** The cell of point j of s. */
    function CellOf(s: seq<real>, j: int): Cell
      requires spacing > 0.0 && HasSlot(s, j)
    {
      Cell(Index(s[3 * j]), Index(s[3 * j + 1]), Index(s[3 * j + 2]))
    }

    /** The bucket of every point of s. */
    ghost function Keys(s: seq<real>): (keys: seq<int>)
      requires Valid() && |s| == 3 * particleNum
      ensures |keys| == particleNum
      ensures forall j :: 0 <= j < particleNum ==> keys[j] == HashOf(s, j)
    {
      seq(particleNum, j requires 0 <= j < particleNum => HashOf(s, j))
    }

    /** Some cell of the box from lo to hi hashes to bucket h. */
    ghost predicate HashedFrom(h: int, lo: Cell, hi: Cell)
      requires tableSize > 0
    {
      exists c :: Within(c, lo, hi) && Hash(c.x, c.y, c.z) == h
    }

    lemma IndexMonotone(a: real, b: real)
      requires spacing > 0.0 && a <= b
      ensures Index(a) <= Index(b)
    {
      var qa, qb := a / spacing, b / spacing;
      assert qb - qa == (b - a) / spacing;
      assert qa <= qb;
    }

    /** A point whose every coordinate is within d of q's lies in the box
        of cells that `Query(q, d)` enumerates. */
    lemma NearPointInBox(p: Vec3, q: Vec3, d: real)
      requires spacing > 0.0
      requires q.x - d <= p.x <= q.x + d && q.y - d <= p.y <= q.y + d && q.z - d <= p.z <= q.z + d
      ensures Within(Cell(Index(p.x), Index(p.y), Index(p.z)),
                     Cell(Index(q.x - d), Index(q.y - d), Index(q.z - d)),
                     Cell(Index(q.x + d), Index(q.y + d), Index(q.z + d)))
    {
      IndexMonotone(q.x - d, p.x);
      IndexMonotone(p.x, q.x + d);
      IndexMonotone(q.y - d, p.y);
      IndexMonotone(p.y, q.y + d);
      IndexMonotone(q.z - d, p.z);
      IndexMonotone(p.z, q.z + d);
    }

    /** A point at Euclidean distance at most d from q lies in that box. */
    lemma ClosePointInBox(p: Vec3, q: Vec3, d: real)
      requires spacing > 0.0 && d >= 0.0
      requires p.Minus(q).NormSquare() <= d * d
      ensures Within(Cell(Index(p.x), Index(p.y), Index(p.z)),
                     Cell(Index(q.x - d), Index(q.y - d), Index(q.z - d)),
                     Cell(Index(q.x + d), Index(q.y + d), Index(q.z + d)))
    {
      var e := p.Minus(q);
      Square(e.x);
      Square(e.y);
      Square(e.z);
      SquareBound(e.x, d);
      SquareBound(e.y, d);
      SquareBound(e.z, d);
      NearPointInBox(p, q, d);
    }

    /** `update`: rebuilds both tables from the current positions by a
        counting sort: count per bucket, prefix sums, then scatter each
        point, in index order, to the position just below its bucket's
        running end. */
    method Update()
      requires Valid()
      modifies this`snapshot, countTable, particleTable
      ensures snapshot == positions[..]
      ensures Indexed()
    {
      snapshot := positions[..];
      ghost var keys := Keys(snapshot);
      CountBuckets(keys);
      SumCounts(keys);
      Scatter(keys);
      ScatteredDone(keys, countTable[..], particleTable[..], tableSize);
    }

    /** The first two passes of `update`: zero the counts, then count the
        points of every bucket. */
    method CountBuckets(ghost keys: seq<int>)
      requires Valid() && keys == Keys(positions[..])
      modifies countTable
      ensures positions[..] == old(positions[..])
      ensures KeysIn(keys, tableSize) && Counted(keys, countTable[..], tableSize, particleNum)
    {
      for b := 0 to countTable.Length
        invariant positions[..] == old(positions[..])
        invariant forall c :: 0 <= c < b ==> countTable[c] == 0
      {
        countTable[b] := 0;
      }
      CountedStart(keys, countTable[..], tableSize);
      for i := 0 to particleNum
        invariant positions[..] == old(positions[..])
        invariant Counted(keys, countTable[..], tableSize, i)
      {
        var h := HashOf(positions[..], i);
        ghost var c := countTable[..];
        CountedStep(keys, c, tableSize, i);
        countTable[h] := countTable[h] + 1;
        assert countTable[..] == c[h := c[h] + 1];
      }
    }

    /** The prefix-sum pass of `update`: afterwards countTable[b] counts
        the points of buckets 0 to b. */
    method SumCounts(ghost keys: seq<int>)
      requires Valid() && KeysIn(keys, tableSize) && Counted(keys, countTable[..], tableSize, |keys|)
      modifies countTable
      ensures positions[..] == old(positions[..])
      ensures Summed(keys, countTable[..], tableSize, tableSize)
    {
      SummedStart(keys, countTable[..], tableSize);
      for i := 0 to tableSize
        invariant positions[..] == old(positions[..])
        invariant Summed(keys, countTable[..], tableSize, i)
      {
        ghost var c := countTable[..];
        SummedStep(keys, c, tableSize, i);
        countTable[i + 1] := countTable[i + 1] + countTable[i];
        assert countTable[..] == c[i + 1 := c[i + 1] + c[i]];
      }
    }

    /** The scatter pass of `update`: each point, in index order, goes just
        below its bucket's running end, which then moves down by one. */
    method Scatter(ghost keys: seq<int>)
      requires Valid() && keys == Keys(positions[..]) && KeysIn(keys, tableSize)
      requires Summed(keys, countTable[..], tableSize, tableSize)
      modifies countTable, particleTable
      ensures positions[..] == old(positions[..])
      ensures Scattered(keys, countTable[..], particleTable[..], tableSize, particleNum)
    {
      ScatteredStart(keys, countTable[..], particleTable[..], tableSize);
      for i := 0 to particleNum
        invariant positions[..] == old(positions[..])
        invariant Scattered(keys, countTable[..], particleTable[..], tableSize, i)
      {
        var h := HashOf(positions[..], i);
        ghost var c, p := countTable[..], particleTable[..];
        ScatteredStep(keys, c, p, tableSize, i);
        countTable[h] := countTable[h] - 1;
        particleTable[countTable[h]] := i;
        assert countTable[..] == c[h := c[h] - 1];
        assert particleTable[..] == p[c[h] - 1 := i];
      }
    }

    /** The cell of every point of s; each point's bucket is its cell's. */
    ghost function Cells(s: seq<real>): (cells: seq<Cell>)
      requires Valid() && |s| == 3 * particleNum
      ensures |cells| == particleNum
      ensures forall j :: 0 <= j < particleNum ==>
        cells[j] == CellOf(s, j) && Keys(s)[j] == Hash(cells[j].x, cells[j].y, cells[j].z)
    {
      seq(particleNum, j requires 0 <= j < particleNum => CellOf(s, j))
    }

    /** The lowest cell of the box `query` scans around point i of v. */
    function Low(v: seq<real>, i: int, dist: real): Cell
      requires spacing > 0.0 && HasSlot(v, i)
    {
      Cell(Index(v[3 * i] - dist), Index(v[3 * i + 1] - dist), Index(v[3 * i + 2] - dist))
    }

    /** The highest cell of that box. */
    function High(v: seq<real>, i: int, dist: real): Cell
      requires spacing > 0.0 && HasSlot(v, i)
    {
      Cell(Index(v[3 * i] + dist), Index(v[3 * i + 1] + dist), Index(v[3 * i + 2] + dist))
    }

    /** Every entry of ret is a point whose bucket is that of a cell of the
        box from lo to hi. */
    ghost predicate Sound(ret: seq<int>, keys: seq<int>, lo: Cell, hi: Cell)
      requires tableSize > 0
    {
      forall t :: 0 <= t < |ret| ==> 0 <= ret[t] < |keys| && HashedFrom(keys[ret[t]], lo, hi)
    }

    /** Appending the run of bucket h, the hash of a cell of the box, adds
        only points of that bucket. */
    lemma RunSound(ret: seq<int>, keys: seq<int>, count: seq<int>, table: seq<int>,
                   lo: Cell, hi: Cell, x: int, y: int, z: int, h: int)
      requires tableSize > 0 && KeysIn(keys, tableSize) && BucketSorted(keys, count, table, tableSize)
      requires Within(Cell(x, y, z), lo, hi) && h == Hash(x, y, z)
      requires Sound(ret, keys, lo, hi)
      requires 0 <= count[h] <= count[h + 1] <= |table|
      ensures Sound(ret + table[count[h]..count[h + 1]], keys, lo, hi)
    {
      BucketRuns(keys, count, table, tableSize);
      var ret' := ret + table[count[h]..count[h + 1]];
      forall t | 0 <= t < |ret'|
        ensures 0 <= ret'[t] < |keys| && HashedFrom(keys[ret'[t]], lo, hi)
      {
        if t < |ret| {
          assert ret'[t] == ret[t];
        } else {
          var k := count[h] + t - |ret|;
          assert ret'[t] == table[k];
          assert keys[table[k]] == h;
        }
      }
    }

    /** Appending the run of bucket h, the hash of cell (x, y, z), adds
        every point of that cell. */
    lemma RunCovers(ret: seq<int>, keys: seq<int>, cells: seq<Cell>, count: seq<int>, table: seq<int>,
                    lo: Cell, hi: Cell, x: int, y: int, z: int, h: int)
      requires tableSize > 0 && KeysIn(keys, tableSize) && BucketSorted(keys, count, table, tableSize)
      requires 0 <= h < tableSize
      requires |cells| == |keys| && forall j :: 0 <= j < |keys| && cells[j] == Cell(x, y, z) ==> keys[j] == h
      requires Covered(ret, cells, lo, hi, x, y, z)
      requires 0 <= count[h] <= count[h + 1] <= |table|
      ensures Covered(ret + table[count[h]..count[h + 1]], cells, lo, hi, x, y, z + 1)
    {
      var run := table[count[h]..count[h + 1]];
      var ret' := ret + run;
      forall j | 0 <= j < |keys| && Within(cells[j], lo, hi) && LexBefore(cells[j], x, y, z + 1)
        ensures j in ret'
      {
        if cells[j] == Cell(x, y, z) {
          assert keys[j] == h;
          PointInRun(keys, count, table, tableSize, j);
          PointAtSlot(keys, count, table, tableSize, j);
          var k := Slot(keys, j);
          assert run[k - count[h]] == j;
          assert ret'[|ret| + k - count[h]] == j;
        } else {
          assert j in ret;
        }
      }
    }

    /** The innermost loop of `query`: appends the run of bucket h. */
    method AppendRun(ret: seq<int>, h: int) returns (ret': seq<int>)
      requires 0 <= h < countTable.Length - 1
      requires 0 <= countTable[h] <= countTable[h + 1] <= particleTable.Length
      ensures ret' == ret + particleTable[countTable[h]..countTable[h + 1]]
    {
      ret' := ret;
      for k := countTable[h] to countTable[h + 1]
        invariant ret' == ret + particleTable[countTable[h]..k]
      {
        assert particleTable[countTable[h]..k + 1] == particleTable[countTable[h]..k] + [particleTable[k]];
        ret' := ret' + [particleTable[k]];
      }
    }

    /** `query`: the points stored in the buckets of every cell of the box
        from index(v[i] - dist) to index(v[i] + dist) on each axis. Reads
        only. Every result is a point index whose bucket is that of some
        cell in the box, and every point whose cell (at the last update)
        lies in the box is returned: no false negatives. Points of other
        cells sharing a bucket may also be returned. */
    method Query(v: array<real>, i: int, dist: real) returns (ret: seq<int>)
      requires Indexed()
      requires HasSlot(v[..], i)
      ensures Sound(ret, Keys(snapshot), Low(v[..], i, dist), High(v[..], i, dist))
      ensures forall j :: 0 <= j < particleNum ==>
                (Within(CellOf(snapshot, j), Low(v[..], i, dist), High(v[..], i, dist)) ==> j in ret)
    {
      var xMin := Index(v[3 * i] - dist);
      var yMin := Index(v[3 * i + 1] - dist);
      var zMin := Index(v[3 * i + 2] - dist);
      var xMax := Index(v[3 * i] + dist);
      var yMax := Index(v[3 * i + 1] + dist);
      var zMax := Index(v[3 * i + 2] + dist);
      ghost var keys, cells := Keys(snapshot), Cells(snapshot);
      assert Cell(xMin, yMin, zMin) == Low(v[..], i, dist) && Cell(xMax, yMax, zMax) == High(v[..], i, dist);
      ret := ScanBox(Cell(xMin, yMin, zMin), Cell(xMax, yMax, zMax), keys, cells);
    }

    /** The three nested cell loops of `query`, over the box from lo to hi,
        x outermost; `keys` and `cells` are the buckets and cells of the
        indexed points. */
    method ScanBox(lo: Cell, hi: Cell, ghost keys: seq<int>, ghost cells: seq<Cell>) returns (ret: seq<int>)
      requires Valid() && KeysIn(keys, tableSize) && BucketSorted(keys, countTable[..], particleTable[..], tableSize)
      requires |cells| == |keys| && forall j :: 0 <= j < |keys| ==> keys[j] == Hash(cells[j].x, cells[j].y, cells[j].z)
      ensures Sound(ret, keys, lo, hi)
      ensures forall j :: 0 <= j < |cells| ==> (Within(cells[j], lo, hi) ==> j in ret)
    {
      ghost var count, table := countTable[..], particleTable[..];
      ret := [];
      var x := lo.x;
      while x <= hi.x
        invariant lo.x <= x && (lo.x <= hi.x + 1 ==> x <= hi.x + 1)
        invariant Sound(ret, keys, lo, hi) && Covered(ret, cells, lo, hi, x, lo.y, lo.z)
        decreases hi.x - x
      {
        var y := lo.y;
        while y <= hi.y
          invariant lo.y <= y && (lo.y <= hi.y + 1 ==> y <= hi.y + 1)
          invariant Sound(ret, keys, lo, hi) && Covered(ret, cells, lo, hi, x, y, lo.z)
          decreases hi.y - y
        {
          var z := lo.z;
          while z <= hi.z
            invariant lo.z <= z && (lo.z <= hi.z + 1 ==> z <= hi.z + 1)
            invariant Sound(ret, keys, lo, hi) && Covered(ret, cells, lo, hi, x, y, z)
            decreases hi.z - z
          {
            var h := Hash(x, y, z);
            RunBounds(keys, count, table, tableSize, h);
            RunSound(ret, keys, count, table, lo, hi, x, y, z, h);
            RunCovers(ret, keys, cells, count, table, lo, hi, x, y, z, h);
            ret := AppendRun(ret, h);
            z := z + 1;
          }
          RowDone(ret, cells, lo, hi, x, y, z);
          y := y + 1;
        }
        PlaneDone(ret, cells, lo, hi, x, y);
        x := x + 1;
      }
    }
  }
}
