# PBD-Simulation core, modelled in Dafny

PBD-Simulation is a browser demo of position-based dynamics. It simulates:

- tetrahedral soft bodies, whose vertex positions and velocities live in flat `Float32Array` buffers (three numbers per vertex);
- rigid spheres;
- five boundary planes: the ground and four walls at ±5 on the x and z axes.

A spatial hash finds which vertices are close to a point. A collision layer routes each pair of bodies to a checker and a solver. A Python script turns a tetrahedral mesh into the JSON the simulation loads.

This project models that core:

- the flat-buffer vector kernel (`vector.ts`), as module `Vector`;
- the spatial hash (`hash.ts`), as class `SpatialHashing.SpatialHash`. It covers the 32-bit hash arithmetic, the counting-sort `update` and the box `query`;
- the boundary planes shared by all bodies, as `Boundary`;
- the mesh bookkeeping done by the soft-body constructors, as `Topology`. This covers the tetrahedra around each vertex, surface tetrahedra, signed rest volumes and quarter-volume masses;
- the soft body of `softBody.ts`, as class `SoftBodies.SoftBodyObject`;
- the rigid sphere of `rigidSphere.ts`, as class `RigidSpheres.RigidSphere`;
- the collision dispatch, checks and solvers of `collision.ts`, as `Collisions`;
- three pieces of `main.ts`, as `Legacy`:
  - the older soft body class (`Legacy.LegacySoftBody`);
  - the candidate filter of `solveCollision1`;
  - the order of calls in the simulation tick;
- the edge extraction of `converter.py`, as `Converter`.

Modelling conventions:

- **Numbers.** `Float32Array` entries and JavaScript numbers are modelled as `real`, so rounding is not modelled. Integer arithmetic in the hash is modelled exactly, including JavaScript's 32-bit `^`, `Math.abs` and `%`.
- **Buffers.** Flat buffers are `array<real>`. Slot `i` of a buffer is its entries `3i`, `3i+1`, `3i+2`. The functions `At` and `Put` read and write one slot of the buffer's contents.
- **Square root.** It is a parameter, a function `sqrt` with `IsSqrt(sqrt)`, meaning non-negative and squaring back. `Math.PI` is a parameter too.
- **Objects.** Classes keep the source's mutable fields (positions, velocities, tables). Data the source fills once in a constructor and never changes are `const` sequences.

## Model

| member | source | states |
|---|---|---|
| Vector.Put | src/vector.ts:6-10 | writing slot i of a flat xyz buffer sets exactly that slot to v; every other entry and slot keeps its value |
| Vector.PutTwice | src/vector.ts:6-10 | writing a slot twice leaves only the second value, so repeated in-place updates compose into one write |
| Vector.Set | src/vector.ts:6-10 | `set` leaves the buffer equal to the old buffer with slot i replaced by (x, y, z) |
| Vector.Add | src/vector.ts:12-16 | slot i0 becomes rs1[i1] + scale·rs2[i2], read before the write, so a destination aliasing a source is covered; nothing else changes |
| Vector.Addi | src/vector.ts:17-21 | slot i0 becomes its old value plus scale·rs[i1]; nothing else changes |
| Vector.Sub | src/vector.ts:23-27 | slot i0 becomes rs1[i1] − rs2[i2]; nothing else changes |
| Vector.Subi | src/vector.ts:28-32 | slot i0 becomes its old value minus rs[i1]; nothing else changes |
| Vector.MinusIsPlusNegated | src/vector.ts:28-32 | subtracting equals adding the operand scaled by −1, which ties `subi` to `addi` with scale −1 |
| Vector.Mv | src/vector.ts:34-38 | slot i0 becomes a copy of rs[i1]; nothing else changes |
| Vector.Cross | src/vector.ts:40-44 | slot i0 becomes the cross product of the two source slots, when it is not one of them; nothing else changes |
| Vector.CrossOrthogonal | src/vector.ts:40-44 | the cross product is orthogonal to both of its arguments |
| Vector.CrossSelf | src/vector.ts:40-44 | the cross product of a vector with itself is zero |
| Vector.DistSquare | src/vector.ts:51-53 | the squared distance between two slots is the squared norm of their difference, and is never negative |
| Vector.Dot | src/vector.ts:58-60 | the dot of two buffer slots is the dot product of the vectors stored there |
| Vector.DotSymmetric | src/vector.ts:58-60 | the dot product is symmetric |
| Vector.NormSquare | src/vector.ts:62-64 | the squared norm of a slot is the vector's self dot product and is never negative |
| Vector.NormSquareNonNegative | src/vector.ts:62-64 | a squared norm is never negative |
| Vector.Scale | src/vector.ts:69-73 | slot i becomes its old value times s; nothing else changes |
| SpatialHashing.ToUint32 | src/hash.ts:22-25 | the 32-bit word JavaScript takes from an integer lies in [0, 2^32) and is congruent to it modulo 2^32 |
| SpatialHashing.Signed | src/hash.ts:22-25 | reading a 32-bit word as a signed int32 gives a value in [−2^31, 2^31) whose word is the original |
| SpatialHashing.BitXor | src/hash.ts:22-25 | the bitwise exclusive or of two numbers over `width` bits fits in `width` bits |
| SpatialHashing.Xor | src/hash.ts:22-25 | JavaScript's `^` on two numbers yields a signed 32-bit integer |
| SpatialHashing.Abs | src/hash.ts:20 | `Math.abs` returns n or −n, never negative |
| SpatialHashing.SpatialHash.constructor | src/hash.ts:9-16 | the hash keeps the shared position buffer, spacing and table size; particleNum is a third of the buffer; the count table has tableSize+1 entries and the particle table has one entry per particle |
| SpatialHashing.SpatialHash.IndexBounds | src/hash.ts:27-29 | `index` is the floor of x/spacing: Index(x)·spacing ≤ x < (Index(x)+1)·spacing |
| SpatialHashing.SpatialHash.IndexMonotone | src/hash.ts:27-29 | `index` is monotone: a ≤ b implies Index(a) ≤ Index(b) |
| SpatialHashing.SpatialHash.Hash | src/hash.ts:22-25 | the cell hash lies in [0, tableSize) for every integer cell, negative coordinates and int32 overflow of the products included |
| SpatialHashing.SpatialHash.HashOf | src/hash.ts:18-21 | the hash of buffer slot i is the cell hash of the cell that contains the slot's point, so it lies in [0, tableSize) |
| SpatialHashing.SpatialHash.Keys | src/hash.ts:18-21 | the bucket key of every particle is the hash of its current position |
| SpatialHashing.SlotInRun | src/hash.ts:40-42 | the counting sort places particle j inside the run of slots that belongs to its bucket |
| SpatialHashing.SlotDescending | src/hash.ts:40-42 | within one bucket, a later particle gets an earlier slot, because each write pre-decrements the bucket end |
| SpatialHashing.SlotInjective | src/hash.ts:40-42 | two different particles never receive the same slot |
| SpatialHashing.SlotOnto | src/hash.ts:40-42 | every slot of the particle table is the slot of some particle |
| SpatialHashing.CountedStep | src/hash.ts:34-36 | each pass of the counting loop adds exactly the current particle to its bucket count |
| SpatialHashing.SummedStep | src/hash.ts:37-39 | each pass of the prefix-sum loop turns one more count into a running bucket end |
| SpatialHashing.ScatteredStep | src/hash.ts:40-42 | each scatter pass writes particle i into a free slot inside the table and keeps the invariant that placed particles sit at their final slots |
| SpatialHashing.ScatteredDone | src/hash.ts:40-43 | after the third loop the count table holds the bucket starts and the particle table is the counting-sorted order |
| SpatialHashing.BucketBounds | src/hash.ts:31-43 | after `update`, countTable[0] = 0, countTable[tableSize] = particle count, and each bucket's run length is the number of particles with that hash |
| SpatialHashing.BucketPermutation | src/hash.ts:31-43 | after `update` the particle table is a permutation of the particle ids: each particle appears exactly once |
| SpatialHashing.BucketRuns | src/hash.ts:31-43 | every id in bucket b's run [count[b], count[b+1]) is a particle whose hash is b |
| SpatialHashing.RunDescending | src/hash.ts:31-43 | within a bucket's run, particle ids appear in decreasing order |
| SpatialHashing.PointInRun | src/hash.ts:31-43 | each particle sits inside the run of its own bucket |
| SpatialHashing.SpatialHash.CountBuckets | src/hash.ts:32-36 | the count table, zeroed and then counted, holds the number of particles hashed to each bucket |
| SpatialHashing.SpatialHash.SumCounts | src/hash.ts:37-39 | the count table becomes the running bucket ends |
| SpatialHashing.SpatialHash.Scatter | src/hash.ts:40-42 | the particle table holds the counting-sorted ids and the count table holds the bucket starts |
| SpatialHashing.SpatialHash.Update | src/hash.ts:31-43 | after `update`, the tables index a snapshot equal to the current positions: bucket runs as above, the table a permutation of the ids |
| SpatialHashing.SpatialHash.NearPointInBox | src/hash.ts:46-53 | a point within dist of the query point on every axis lies in a cell of the query box |
| SpatialHashing.SpatialHash.ClosePointInBox | src/hash.ts:46-53 | a point within Euclidean distance dist of the query point lies in a cell of the query box |
| SpatialHashing.RowDone | src/hash.ts:57-64 | finishing the z loop of one row moves coverage on to the next row |
| SpatialHashing.PlaneDone | src/hash.ts:56-65 | finishing the y loop of one plane moves coverage on to the next plane |
| SpatialHashing.SpatialHash.RunSound | src/hash.ts:58-63 | appending the run of the hash of a box cell keeps every returned id hashing to some cell of the box |
| SpatialHashing.SpatialHash.RunCovers | src/hash.ts:58-63 | appending a cell's run adds every particle that lies in that cell |
| SpatialHashing.SpatialHash.AppendRun | src/hash.ts:59-63 | the inner loop appends exactly the run [count[h], count[h+1]) of the particle table |
| SpatialHashing.SpatialHash.ScanBox | src/hash.ts:54-67 | scanning the cell box returns only ids whose hash is that of some box cell, and every particle whose cell is in the box |
| SpatialHashing.SpatialHash.Query | src/hash.ts:46-68 | every returned id hashes like some cell of the box around v[i]. Every indexed particle within dist on each axis is returned; collisions of the hash may add others |
| Boundary.GapIsDot | src/softBody.ts:18-35 | the per-plane gap is (p − anchor_k)·normal_k for the five anchors and normals of the boundary tables |
| Boundary.UnitNormals | src/softBody.ts:29-35 | each boundary normal has unit length |
| Boundary.AlongIsNormal | src/softBody.ts:29-35 | moving along a plane is moving by a multiple of its normal |
| Boundary.GapAlongNormal | src/softBody.ts:233-237 | moving s along the normal of plane k raises that plane's gap by exactly s |
| Boundary.GapAxes | src/softBody.ts:18-35 | the five gaps are y, 5 − x, x + 5, 5 − z and z + 5 |
| Boundary.PushOnto | src/softBody.ts:233-237 | pushing a point out along plane k leaves its gap max(gap, 0): a point behind the plane lands on it, one in front stays |
| Boundary.PushAxes | src/softBody.ts:233-237 | pushing clamps one coordinate per plane: y ≥ 0, x ≤ 5, x ≥ −5, z ≤ 5, z ≥ −5 |
| Boundary.ProjectClamps | src/main.ts:289-297 | projecting onto all five planes in order clamps x and z to [−5, 5] and y to ≥ 0 |
| Boundary.ProjectInside | src/main.ts:289-297 | after the projection every gap is non-negative |
| Boundary.ProjectKeepsInside | src/main.ts:289-297 | a point already inside the box is not moved |
| Topology.IncidentSnoc | src/softBody.ts:119-121 | visiting corner m appends tet m/4 to the list of that corner's vertex and to no other list |
| Topology.IncidentSorted | src/softBody.ts:116-123 | each vertex's tet list holds valid tet ids in non-decreasing order |
| Topology.IncidentMembers | src/softBody.ts:116-123 | t is in vertex v's tet list iff one of t's four corners is v |
| Topology.IncidentLength | src/softBody.ts:116-123 | a vertex's tet list is as long as the number of corners naming that vertex |
| Topology.SlotCount | src/softBody.ts:118-123 | the surface-corner count after j corners is at most j |
| Topology.SurfaceTetIff | src/softBody.ts:122-124 | a tet counts exactly three surface corners iff exactly one of its corners is not a surface vertex |
| Topology.SegmentVolumeIsSigned | src/softBody.ts:126-131 | the volume from consecutive edge segments equals the signed volume (p1−p0)×(p2−p0)·(p3−p0)/6 |
| Topology.CrossSubtract | src/softBody.ts:126-131 | a × (b − a) = a × b, the step that makes the segment form the signed volume |
| Topology.DotSubtract | src/softBody.ts:126-131 | the dot product distributes over subtraction |
| Topology.MassSnoc | src/softBody.ts:133-135 | visiting corner m adds a quarter of tet m/4's volume to that corner's vertex and to no other |
| Topology.MassPrefix | src/softBody.ts:133-135 | volumes of tets not yet visited do not affect the accumulated masses |
| Topology.MassAbsent | src/softBody.ts:133-135 | a vertex that no tet names keeps mass 0 |
| Topology.SumZero | src/softBody.ts:105 | a freshly zeroed mass buffer sums to 0 |
| Topology.SumUpdate | src/softBody.ts:134 | adding d to one entry adds d to the total |
| Topology.Masses | src/softBody.ts:133-135 | the accumulated mass buffer has one entry per vertex, each the sum of the quarter volumes of its incident corners |
| Topology.MassesQuarters | src/softBody.ts:116-136 | the masses over all vertices sum to a quarter volume per visited corner |
| Topology.QuartersWhole | src/softBody.ts:116-136 | four quarters per tet give back each tet's whole volume |
| Topology.MassTotal | src/softBody.ts:116-136 | the vertex masses add up to the total rest volume of the mesh: mass is conserved |
| SoftBodies.CornersInRange | src/softBody.ts:119-122 | corner ids below the vertex count index the surface flags |
| SoftBodies.Uint16s | src/softBody.ts:76-78 | copying ids into a Uint16 array keeps their number and wraps each id into [0, 65536), congruent to it modulo 2^16; ids already in range are kept |
| SoftBodies.MarkSurface | src/softBody.ts:109-111 | a vertex is flagged as surface iff the surface triangle list names it. An id that names no vertex flags none of them |
| SoftBodies.LinkStep | src/softBody.ts:119-121 | pushing the current tet onto its corner's list keeps every list equal to the incidence of the corners visited so far |
| SoftBodies.LinkTet | src/softBody.ts:117-124 | one tet's pass extends every vertex's tet list to the incidence after this tet and counts its surface corners |
| SoftBodies.RestVolume | src/softBody.ts:126-131 | the rest volume of tet i is the signed volume of its four corners |
| SoftBodies.SpreadMass | src/softBody.ts:133-135 | one tet's pass gives each corner's vertex a quarter of its volume |
| SoftBodies.ScanTets | src/softBody.ts:116-136 | the tet loop builds each vertex's incidence list, flags exactly the tets with three surface corners, records each rest volume and accumulates the quarter-volume masses |
| SoftBodies.TetVolumeIsSigned | src/softBody.ts:126-131 | the stored rest volume is the signed volume of the corner positions |
| SoftBodies.SoftBodyObject.constructor | src/softBody.ts:69-150 | positions, previous positions and the initial copy equal the file's verts, and velocities are zero. The stored surface ids are the Uint16 copy of the file's. The surface vertex flags, vertex tet lists, surface tet flags, rest volumes and vertex masses are as above. The spatial hash uses spacing 0.05 and 5000 buckets |
| SoftBodies.CopyBuffer | src/softBody.ts:163-165 | previous positions become a copy of the positions |
| SoftBodies.Lower | src/softBody.ts:166-168 | gravity lowers every y velocity by gravity·dt; x and z are untouched |
| SoftBodies.Advance | src/softBody.ts:169-171 | each position moves by its velocity times dt |
| SoftBodies.SoftBodyObject.ApplyStates | src/softBody.ts:162-172 | prev = old positions, velocities lose gravity·dt in y only, positions advance by the new velocities times dt |
| SoftBodies.SoftBodyObject.GrabInteract | src/softBody.ts:173-175 | the grabbed vertex's slot becomes the target and nothing else changes; an id outside the vertex range writes nothing |
| SoftBodies.BounceVertical | src/softBody.ts:238-242 | a bounce scales velocity component j by −0.5·normal[j] of the first normal row, i.e. it becomes (0, −0.5·vy, 0) whatever plane is touched |
| SoftBodies.BouncedIsPower | src/softBody.ts:238-242 | m bounces multiply the y velocity by (−1/2)^m |
| SoftBodies.PlanesPosition | src/softBody.ts:231-237 | the boundary pass moves a vertex exactly as projecting onto the five planes in order does |
| SoftBodies.PlanesVelocity | src/softBody.ts:238-242 | an untouched vertex keeps its velocity. A vertex closer than 0.01 to m planes ends with velocity (0, (−1/2)^m·vy, 0) |
| SoftBodies.PlanesBounce | src/softBody.ts:238-242 | the velocity after the pass is the m-fold bounce of the original, where m is the number of touched planes |
| SoftBodies.BoundaryPassInside | src/softBody.ts:230-245 | after the pass every vertex is inside all five planes, and a vertex already inside does not move |
| SoftBodies.SoftBodyObject.HandlePlane | src/softBody.ts:233-242 | one plane step: slot i's position and velocity become the plane step of the old ones; other slots are unchanged |
| SoftBodies.SoftBodyObject.HandleVertex | src/softBody.ts:232-243 | vertex i's position and velocity become the five-plane pass of the old ones; other vertices are unchanged |
| SoftBodies.SoftBodyObject.HandleBoundaries | src/softBody.ts:230-245 | every vertex's position and velocity become the five-plane pass of the old ones, which by `SoftBodies.BoundaryPassInside` is inside the box |
| SoftBodies.Rederive | src/softBody.ts:248-251 | each velocity slot becomes (position − previous position)/dt |
| SoftBodies.VelocityRecovered | src/softBody.ts:247-252 | rederiving the velocity after an unconstrained step p + v·dt gives v back |
| SoftBodies.SoftBodyObject.UpdateStates | src/softBody.ts:247-252 | every vertex's velocity becomes its displacement since `applyStates` divided by dt; positions are unchanged |
| SoftBodies.SoftBodyObject.InitLocation | src/softBody.ts:254-260 | every vertex is placed at its initial position plus (x, y, z) |
| RigidSpheres.RigidSphere.constructor | src/rigidSphere.ts:32-45 | a new sphere is at rest at the origin with inverse mass 4π/r³ |
| RigidSpheres.EulerDisplacement | src/rigidSphere.ts:51-54 | a step lowers vy by gravity·dt and moves the sphere by v·dt − gravity·dt²·ŷ |
| RigidSpheres.RigidSphere.ApplyStates | src/rigidSphere.ts:51-54 | the sphere's state becomes the Euler step of its old state |
| RigidSpheres.NormalPartIsDot | src/rigidSphere.ts:76 | the normal component used for plane k is v·normal_k |
| RigidSpheres.ReflectVelocity | src/rigidSphere.ts:75-79 | a plane step keeps the tangential velocity. An approaching sphere closer than 0.01 gets normal velocity −0.5·proj; otherwise the normal velocity is unchanged |
| RigidSpheres.ReflectPosition | src/rigidSphere.ts:75-82 | after a plane step the sphere's gap minus its radius is max(gap − r, 0), and it moves iff it penetrated |
| RigidSpheres.ReflectAxes | src/rigidSphere.ts:72-84 | per plane, the step clamps one centre coordinate: y ≥ r, x ≤ 5 − r, x ≥ r − 5, z ≤ 5 − r, z ≥ r − 5 |
| RigidSpheres.ReflectedClamps | src/rigidSphere.ts:72-84 | the five plane steps clamp the centre into the box shrunk by the radius |
| RigidSpheres.ReflectedInside | src/rigidSphere.ts:72-84 | a sphere no larger than the box ends at distance ≥ r from every plane |
| RigidSpheres.RigidSphere.FacePlane | src/rigidSphere.ts:75-82 | one loop pass updates the sphere by the plane step for plane k |
| RigidSpheres.RigidSphere.HandleBoundaries | src/rigidSphere.ts:72-84 | the sphere's state becomes the five plane steps of its old state, and ends at distance ≥ r from every plane |
| RigidSpheres.NormalizeUnit | src/rigidSphere.ts:62 | normalizing a non-zero vector gives a unit vector along it; a zero vector is left as is |
| RigidSpheres.LengthOfScaled | src/rigidSphere.ts:68 | scaling a unit vector by s gives length \|s\| |
| RigidSpheres.CollideConserves | src/rigidSphere.ts:59-69 | the sphere-sphere response keeps the sum of the two velocities |
| RigidSpheres.CollideSeparates | src/rigidSphere.ts:59-69 | after an overlapping pair is resolved, the centres are exactly r1 + r2 apart |
| RigidSpheres.RigidSphere.CollideWith | src/rigidSphere.ts:59-69 | the pair's new state is the collision response of the old one, and the other sphere does not move |
| RigidSpheres.TotalUpdate | src/rigidSphere.ts:64-65 | replacing one velocity changes the total by the difference |
| RigidSpheres.TotalExchange | src/rigidSphere.ts:64-65 | an exchange that keeps a pair's velocity sum keeps the total over all spheres |
| RigidSpheres.RigidSphere.Respond | src/rigidSphere.ts:57-70 | one pass over entry i. If the entry is this sphere, nothing changes. Otherwise this sphere's position and velocity and every listed velocity become one `Step` of the sweep, the other sphere keeps its position, and the total velocity of all spheres is kept |
| RigidSpheres.RigidSphere.HandleCollision | src/rigidSphere.ts:55-71 | this sphere's position and velocity and all listed velocities after the loop are the `Swept` fold of the pairwise collision over the list, from the old state and the spheres' old positions. Only this sphere moves, and the total velocity of a list of distinct spheres containing it is conserved |
| RigidSpheres.StepConserves | src/rigidSphere.ts:56-69 | one step of the sweep keeps the total of the listed velocities, and keeps this sphere's listed velocity equal to its own |
| RigidSpheres.SweptConserves | src/rigidSphere.ts:56-69 | any prefix of the sweep keeps the total of the listed velocities, so the whole loop conserves momentum of equal-mass spheres |
| RigidSpheres.RigidSphere.Reset | src/rigidSphere.ts:86-90 | the sphere is back at rest at the origin |
| RigidSpheres.RigidSphere.GrabInteract | src/rigidSphere.ts:92-101 | the sphere jumps to the target with the velocity that would have carried it there in dt |
| RigidSpheres.GrabReplays | src/rigidSphere.ts:92-101 | moving from the old position at the grab velocity for dt lands on the target |
| RigidSpheres.RigidSphere.Move | src/rigidSphere.ts:103-106 | the sphere is shifted by (x, y, z) and keeps its velocity |
| Collisions.Dispatch | src/collision.ts:8-37 | a pair goes nowhere iff both sides are the same object. Two soft bodies go to soft-soft; a mixed pair goes to soft-rigid with the soft body first, in either order; two spheres keep their order |
| Collisions.DispatchMixed | src/collision.ts:12-15 | a soft body and a sphere are routed identically in both argument orders |
| Collisions.RootBelow | src/collision.ts:42-44 | comparing a distance with a bound is comparing squares: √d < s iff s > 0 and d < s² |
| Collisions.CheckRigidToRigid | src/collision.ts:41-45 | two spheres collide iff the distance between their centres is below the sum of their radii |
| Collisions.CheckRigidSymmetric | src/collision.ts:41-45 | the sphere-sphere check does not depend on argument order |
| Collisions.CheckSoftToRigid | src/collision.ts:47-55 | the check is true iff some vertex of the soft body lies strictly inside the sphere |
| Collisions.SettleOnSurface | src/collision.ts:156-161 | a vertex inside the sphere is moved onto its surface; one outside is not moved |
| Collisions.KickDepth | src/collision.ts:158-162 | the displacement of a settled vertex has length r minus its old distance to the centre, the penetration depth |
| Collisions.SettledFrame | src/collision.ts:153-167 | vertices not yet visited are unchanged |
| Collisions.SettledSlots | src/collision.ts:153-167 | each visited vertex is settled independently of the others |
| Collisions.SettleVertex | src/collision.ts:154-166 | one pass settles vertex i and lowers the sphere's velocity by that vertex's impulse |
| Collisions.SolveSoftToRigid | src/collision.ts:152-168 | every vertex is settled onto the sphere surface and the sphere's velocity loses the sum of the vertex impulses; the sphere's position does not change |
| Collisions.RespondConserves | src/collision.ts:178-184 | the response changes the two velocities by opposite impulses, so w2·v1 + w1·v2 is conserved, which is momentum when both inverse masses are non-zero |
| Collisions.OpposedKicks | src/collision.ts:179-180 | kicks of k·w1·n and −k·w2·n keep w2·v1 + w1·v2 |
| Collisions.ResolveSeparates | src/collision.ts:171-184 | after an overlapping pair is resolved, the second centre is exactly r1 + r2 from the first |
| Collisions.SolveRigidToRigid | src/collision.ts:170-185 | the pair's new velocities and second position are the response to the old state; the first sphere does not move |
| Collisions.CheckCollision | src/collision.ts:8-20 | a self pair is never a hit. Soft-rigid pairs in either order and rigid pairs give their checker's answer; soft-soft pairs give the answer passed in |
| Collisions.SolveCollision | src/collision.ts:22-37 | a self pair changes nothing. Soft-rigid pairs in either order, with the soft body first, and rigid pairs are solved by their solvers. A soft-soft pair only writes the two bodies' positions |
| Legacy.FallenSlots | src/main.ts:217-219 | lowering every y entry by dv lowers every vertex's velocity by dv in y |
| Legacy.RubbedIsPower | src/main.ts:220-228 | friction scales a vertex's velocity by (1 − friction)^m, where m is the number of planes it is behind |
| Legacy.UnderAll | src/main.ts:220-228 | the friction count m is the number of the five planes, ground and four walls, that the vertex is behind |
| Legacy.UnderAtMostThree | src/main.ts:220-228 | friction applies at most three times per step, since a vertex cannot be behind two opposite walls |
| Legacy.InsideNoFriction | src/main.ts:220-228 | a vertex inside every plane keeps its velocity |
| Legacy.LegacySoftBody.constructor | src/main.ts:128-201 | the older body holds the file's buffers, with the surface ids as their Uint16 copy, zero velocities, surface flags iff listed, the rest volumes and masses, and a spatial hash of 5000 buckets |
| Legacy.LegacySoftBody.ApplyStates | src/main.ts:213-232 | prev = old positions. Velocities lose gravity·dt in y and are damped by (1 − friction) per plane the vertex is behind. Positions advance by the new velocities |
| Legacy.LegacySoftBody.RubVertex | src/main.ts:221-227 | vertex i's velocity is damped by the friction of all planes it is behind; others are unchanged |
| Legacy.LegacySoftBody.RubAll | src/main.ts:220-228 | every vertex's velocity is damped by the friction of the planes it is behind |
| Legacy.LegacySoftBody.GrabInteract | src/main.ts:233-235 | the grabbed vertex moves to the cursor; an id outside the vertex range writes nothing |
| Legacy.LegacySoftBody.ProjectVertex | src/main.ts:290-296 | vertex i is projected onto the five planes in order; others are unchanged |
| Legacy.LegacySoftBody.ProjectBoundary | src/main.ts:289-297 | every vertex is projected into the box and so ends inside all five planes |
| Legacy.LegacySoftBody.UpdateStates | src/main.ts:300-305 | every velocity becomes (position − previous position)/dt |
| Legacy.LegacySoftBody.Move | src/main.ts:307-313 | every vertex is shifted by (x, y, z), so distances between vertices are kept |
| Legacy.SurfaceTetAt | src/main.ts:427-431 | a candidate tet passes iff exactly three of its corners are surface vertices |
| Legacy.CountSurfaceCorners | src/main.ts:427-430 | the counting loop returns the number of surface corners, 0 to 4 |
| Legacy.ExaminedAt | src/main.ts:413-431 | a surface tet incident to a bucketed vertex near an interior vertex i is a pair the filter examines |
| Legacy.PairedKept | src/main.ts:418-431 | appending candidates never loses a pair already found |
| Legacy.SurfaceTetsAt | src/main.ts:419-431 | a vertex's surviving tets are exactly its incident tets with three surface corners |
| Legacy.AddHits | src/main.ts:418-431 | one close vertex adds exactly its surface tets as candidates with vertex i, and only examined pairs |
| Legacy.VisitVertex | src/main.ts:414-431 | for an interior vertex i, every surface tet of every close vertex of obj1 is paired with i. Earlier pairs are kept and only examined pairs are added |
| Legacy.Collision1Candidates | src/main.ts:411-431 | a body against itself gives nothing. Every pair is an interior vertex of obj2 with a surface tet of obj1 reached through the hash query; for every interior vertex i and every vertex of obj1 whose cell at the last rehash lies in the query box around i, each of its surface tets is paired with i |
| Legacy.Tick | src/main.ts:562-585 | the tick issues exactly the call sequence of the schedule |
| Legacy.RoundCalls | src/main.ts:568-576 | one sub-step visits each body: solve its tets and edges, then (if enabled) rehash it and run the filter against every body |
| Legacy.CollideCalls | src/main.ts:573 | one body's collision pass pairs it with every body in order |
| Legacy.ScheduleStaged | src/main.ts:562-585 | the calls come in four stages, never interleaved: apply/grab, then sub-steps, then update, then spheres |
| Legacy.ScheduleMembers | src/main.ts:562-585 | every body and no other is applied, and only the grabbed body is grabbed. Rehash and collision calls occur iff collisions are on and there is at least one sub-step; then they cover every ordered pair of bodies, a body with itself included |
| Legacy.ScheduleLength | src/main.ts:562-585 | a tick makes 2·count calls for apply and update, plus one for a grabbed body, plus steps·count·(calls per body turn), plus one per sphere |
| Converter.FlattenLength | src/models/converter.py:28-29 | concatenating rows of width w gives w·(number of rows) ids |
| Converter.FlattenEntry | src/models/converter.py:28-29 | entry w·t + j of the flat list is entry j of row t |
| Converter.PairElems | src/models/converter.py:49-54 | the tuple built from a two-element set holds exactly the two ids, once each |
| Converter.SortedSymmetric | src/models/converter.py:49-54 | with a canonical order, an edge is listed the same whichever tet corner order produced it |
| Converter.AsWrittenDependsOnOrder | src/models/converter.py:49-54 | CPython's set order makes tuple(set([0, 8])) = (0, 8) but tuple(set([8, 0])) = (8, 0) |
| Converter.TetPairs | src/models/converter.py:49-54 | each tet contributes six pairs |
| Converter.TetPairsCover | src/models/converter.py:49-54 | every corner pair p < q of a tet is among its six pairs |
| Converter.AppendTet | src/models/converter.py:49-54 | one pass of the loop appends that tet's six pairs |
| Converter.ExtractPairs | src/models/converter.py:46-54 | the loop lists the six pairs of every tet, in tet order |
| Converter.PairsCovered | src/models/converter.py:46-54 | every edge of every tet is in the list |
| Converter.PairsFromTets | src/models/converter.py:46-54 | every listed pair is a corner pair of some tet |
| Converter.EdgesShareTet | src/models/converter.py:46-54 | both ends of a listed edge belong to one tet |
| Converter.Dedup | src/models/converter.py:55 | the deduplicated list has the same members and no repeats |
| Converter.SortedEdgesUnique | src/models/converter.py:46-55 | with canonical pairs, no undirected edge is listed twice |
| Converter.AsWrittenDuplicateEdge | src/models/converter.py:46-55 | with CPython's set order, edge {0, 8} is listed twice, as (0, 8) and (8, 0) |
| Converter.ListedWidths | src/models/converter.py:49-55 | in either pair order, every listed edge has one or two entries |
| Converter.EdgeIds | src/models/converter.py:56-59 | the loop fails iff some edge has a single entry; otherwise it lists both ends of every edge in order |
| Converter.SingleIffRepeat | src/models/converter.py:49-59 | in either pair order, an edge with a single entry exists iff some tet repeats a vertex |
| Converter.Convert | src/models/converter.py:28-61 | the converter fails with a value error iff the tet table or the face table has no rows. For pairs as written and for sorted pairs alike, it otherwise fails with an index error iff some tet repeats a vertex. Otherwise it outputs the flat tet and surface lists and both ends of each deduplicated edge, in list order |

## Left out

- The constraint solvers (`solveTetConstraints` and `solveEdgeConstraints` in src/softBody.ts:176-228 and src/main.ts:236-288, apart from the boundary projection at the end of the latter) are not modelled: they are floating-point relaxation with square roots and gradients. The simulation tick records them as calls.
- Inverse masses: `1 / val` at src/softBody.ts:137-139 and src/main.ts:189-191 is not taken. The model keeps the accumulated quarter-volume masses, and impulses are written as a multiplication by mass, which is what division by the inverse mass gives.
- `init_edge_lengths` (src/softBody.ts:141-148, src/main.ts:193-200) needs a square root per edge and only feeds the solvers.
- `checkSoftToSoftCollision` and `solveSoftToSoftCollision` (src/collision.ts:57-150) are not modelled. The soft-soft check result is a parameter of `Collisions.CheckCollision`, and `Collisions.SolveCollision` promises nothing on that route beyond its frame.
- The barycentric response of `solveCollision1` after src/main.ts:431 is not modelled. Only the candidate filter is.
- `crossi`, `norm`, `dist`, `normalize`, `printPoint`, `toArr`, `toVec` and `setByVec` of src/vector.ts are not modelled as members. Norms and normalisation appear through the `sqrt` parameter where the bodies use them.
- `vec.setVec`, called by the soft bodies and collision.ts, is not defined in src/vector.ts. It is taken to write one slot.
- Rendering, scene setup, random colours, the GUI, mouse picking, recording and debug drawing (`renderUpdate`, index.ts, interaction.ts, util/record.ts, debug.ts) are outside the core.
- converter.py's argument handling, mesh loading, vertex centring and scaling, and file output (src/models/converter.py:1-27, 30-44, 63-65) are I/O and floating point.
- Floating-point rounding is not modelled: `Float32Array` entries are reals.
- SpatialHashing.SpatialHash.Index: the floor is exact. The source's `Math.floor` of a double and its later int32 truncation beyond 2^53 are not modelled.
- Converter.Dedup: the order of `list(set(edgeList))` is modelled as first occurrence. CPython's order is a property of the hash table, so the edge order that `Converter.Convert` states for `tetEdgeIds` is the order of this model, not CPython's; the set of edges and their uniqueness do not depend on it.
- Converter.AsWrittenDependsOnOrder: CPython's small-integer hash is taken as the integer itself and a new set as eight slots.
- Collisions.SolveSoftToRigid: a vertex exactly at the sphere's centre is left in place. The source normalises a zero vector and produces NaN there.
- Collisions.SolveRigidToRigid requires the two inverse masses not to sum to 0 and the two spheres to be distinct; the source divides by the sum and is only called on distinct objects.
- Collisions.SolveRigidToRigid: momentum is stated for the response as `Collisions.RespondConserves`, for every direction, gap and impulse, rather than over the whole derived response.
- SoftBodies.SoftBodyObject.UpdateStates, Legacy.LegacySoftBody.UpdateStates and RigidSpheres.RigidSphere.GrabInteract require dt ≠ 0; the source would divide by zero and store infinities.
- Collisions.SolveSoftToRigid, Collisions.SettleVertex, Collisions.Kick and Collisions.KickSum require dt ≠ 0, and Collisions.SolveCollision requires it on the soft-rigid route only; the sphere's impulse divides by dt and would be infinite. src/main.ts passes a time step of 1 to 100 ms wherever it divides by one (src/main.ts:555, 591, 671); the driver that calls `solveCollision` of src/collision.ts is not part of this model.
- SoftBodies.SoftBodyObject.constructor requires every tet id to name a vertex. The source throws a TypeError at src/softBody.ts:121 when a tet id is at least the vertex count, and that error path is not modelled.
- SoftBodies.SoftBodyObject.constructor requires a vertex buffer of whole vertices and a tet buffer of whole tets. The source stops with a RangeError at `new Array(vert_num)` (src/softBody.ts:104) or `new Array(tet_num)` (src/softBody.ts:114) on a fractional count, and those error paths are not modelled.
- SoftBodies.SoftBodyObject.constructor requires an even edge buffer. The source accepts an odd one: `edge_num` is fractional (src/softBody.ts:80), `new Float32Array` truncates it, and the extra pass of src/softBody.ts:141-148 writes past the end, which the typed array ignores. The model's `edgeNum` is the whole number of edges.
- SoftBodies.SoftBodyObject.constructor requires tet and edge ids in [0, 65536). The source copies them into `Uint16Array`s (src/softBody.ts:76-78), which wrap any id modulo 2^16 without error. The surface ids are not restricted: the stored copy is `SoftBodies.Uint16s` of them, and the surface flags read the unwrapped list as src/softBody.ts:111 does.
- Legacy.LegacySoftBody.constructor requires every tet id to name a vertex. The source throws a TypeError at src/main.ts:175 when a tet id is at least the vertex count, and that error path is not modelled.
- Legacy.LegacySoftBody.constructor requires a vertex buffer of whole vertices and a tet buffer of whole tets. On a fractional vertex count the source stops with a RangeError at `Array(particle_num)` (src/hash.ts:15, reached from src/main.ts:140) or `new Array(vert_num)` (src/main.ts:162). On a fractional tet count its tet loop reads past the buffer and throws a TypeError at src/main.ts:175. Those error paths are not modelled.
- Legacy.LegacySoftBody.constructor requires an even edge buffer. The source accepts an odd one: `edge_num` is fractional (src/main.ts:138), and the extra pass of src/main.ts:193-200 writes past the end of a typed array, which ignores it. The model's `edgeNum` is the whole number of edges.
- Legacy.LegacySoftBody.constructor requires tet and edge ids in [0, 65536). The source's `Uint16Array` copies (src/main.ts:134-136) wrap any id modulo 2^16 without error. The surface ids are not restricted: the stored copy is `SoftBodies.Uint16s` of them, and the surface flags read the unwrapped list as src/main.ts:163 does.
- SoftBodies.MarkSurface: a surface id that names no vertex grows the source's plain `Array` past the vertex count. The model keeps exactly one flag per vertex, and the source never reads the extra entries.
- RigidSpheres.RigidSphere.constructor requires a non-zero radius; with radius 0 the source stores an infinite inverse mass.
- The legacy rigid sphere of src/main.ts:318-407 is not modelled. It appears in the tick only as one call per sphere.
- Legacy.Tick returns the sequence of calls the tick makes instead of performing them. The bodies' own methods are modelled separately.
- Legacy.Collision1Candidates reads the positions at the call; the hash query is modelled by `SpatialHashing.SpatialHash.Query`.
- `grabbedMesh`, `grabbedVertId`, `cursorPoint` and the `controls` values (gravity, friction, sub-steps, collision switch) are parameters.
- The shared scratch buffers `vec.tmp` and `vec.seg` are local values.
- collision.ts names the sphere's inverse mass `inv_mass` and its class `RigidSphereObject`. These are taken to be the `invMass` of `RigidSphere`.

## Findings

| source | as written | input that shows it | evidently intended | confidence | as-written member | corrected member |
|---|---|---|---|---|---|---|
| src/models/converter.py:49-55 | each edge is stored as `tuple(set([a, b]))`, whose order is CPython's set layout, so the same undirected edge can be stored as two different tuples that `set` does not merge | tets [[0, 8, 1, 2], [8, 0, 3, 4]]: the first gives (0, 8), the second gives (8, 0), and `tetEdgeIds` lists edge {0, 8} twice | each undirected edge listed once, in a canonical (sorted) order | not executed; relies on CPython's set layout for small integers | Converter.AsWrittenDuplicateEdge | Converter.SortedEdgesUnique |
