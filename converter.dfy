/**
 * The mesh converter of src/models/converter.py, lines 28-29 and 46-61: the
 * tet and surface-triangle index buffers are the row-major flattenings of
 * the mesh's tet and face tables, and the edge index buffer lists every
 * pair of vertices that share a tet, one pair per edge, two entries per
 * pair.
 *
 * A pair is built as tuple(set([a, b])): a Python set of two ints, turned
 * into a tuple in the set's iteration order. For the non-negative vertex ids
 * of a mesh that order is the slot order of CPython's 8-slot table, which
 * depends on which id was inserted first when both ids want the same slot.
 * `AsWritten` models that; `Sorted` is the canonical order the edge list
 * evidently intends (see Findings in README.md).
 */
module Converter {

  // ---------------------------------------------------------------------
  // Flattening (np.concatenate of the rows)
  // ---------------------------------------------------------------------

  /** The rows laid end to end. */
  function Flatten(rows: seq<seq<nat>>): seq<nat> {
    if rows == [] then [] else Flatten(rows[..|rows| - 1]) + rows[|rows| - 1]
  }

  /** Rows of width w flatten to w entries per row. */
  lemma {:induction false} FlattenLength(rows: seq<seq<nat>>, w: nat)
    requires forall t :: 0 <= t < |rows| ==> |rows[t]| == w
    ensures |Flatten(rows)| == w * |rows|
  {
    if rows != [] {
      var n := |rows| - 1;
      FlattenLength(rows[..n], w);
      assert w * |rows| == w * n + w;
    }
  }

  /** Rows of width w are laid out row-major: entry j of row t lands at w*t + j. */
  lemma {:induction false} FlattenEntry(rows: seq<seq<nat>>, w: nat, t: nat, j: nat)
    requires forall t :: 0 <= t < |rows| ==> |rows[t]| == w
    requires t < |rows| && j < w
    ensures w * t + j < |Flatten(rows)| && Flatten(rows)[w * t + j] == rows[t][j]
  {
    var n := |rows| - 1;
    var pre := rows[..n];
    FlattenLength(pre, w);
    var k := w * t + j;
    if t < n {
      FlattenEntry(pre, w, t, j);
      RowBound(w, t, j, n);
      assert pre[t] == rows[t];
    } else {
      assert k == w * n + j;
    }
  }

  /** Entry j of row t < n lies before the end of n rows of width w. */
  lemma RowBound(w: nat, t: nat, j: nat, n: nat)
    requires t < n && j < w
    ensures w * t + j < w * n
  {
    assert w * t + w == w * (t + 1);
    assert w * (t + 1) <= w * n;
  }

  // ---------------------------------------------------------------------
  // tuple(set([a, b]))
  // ---------------------------------------------------------------------

  /** How many 5-bit right shifts bring n to zero. */
  function Shifts(n: nat): nat {
    if n == 0 then 0 else 1 + Shifts(n / 32)
  }

  /**
   * CPython's open addressing in an 8-slot set table, for a key whose slot
   * i is `taken`: the perturbation (initially the key's hash, which is the
   * id itself) is shifted right by 5 and the next slot is (5 i + 1 + perturb)
   * mod 8, until a slot other than `taken` comes up.
   */
  function Probe(i: nat, perturb: nat, taken: nat, fuel: nat): nat
    decreases fuel
  {
    if i != taken || fuel == 0 then i
    else
      var p := perturb / 32;
      Probe((5 * i + 1 + p) % 8, p, taken, fuel - 1)
  }

  /** A taken slot moves the key along the probe sequence. */
  lemma ProbeStep(i: nat, perturb: nat, taken: nat, fuel: nat)
    requires i == taken && fuel > 0
    ensures Probe(i, perturb, taken, fuel) == Probe((5 * i + 1 + perturb / 32) % 8, perturb / 32, taken, fuel - 1)
  {
  }

  /** A free slot takes the key. */
  lemma ProbeFree(i: nat, perturb: nat, taken: nat, fuel: nat)
    requires i != taken
    ensures Probe(i, perturb, taken, fuel) == i
  {
  }

  /** Which order a vertex pair is written in. */
  datatype Order = AsWritten | Sorted

  /**
   * The tuple for vertices a and b. As written: a 1-tuple when a == b;
   * otherwise the two ids in the slot order of the set that received a
   * first, then b. Sorted: the smaller id first.
   */
  function Pair(a: nat, b: nat, order: Order): seq<nat> {
    if a == b then [a]
    else if order == Sorted then (if a < b then [a, b] else [b, a])
    else
      var sa := a % 8;
      var sb := Probe(b % 8, b, sa, Shifts(b) + 8);
      if sa < sb then [a, b] else [b, a]
  }

  /** The elements of a tuple. */
  function Elems(e: seq<nat>): set<nat> {
    set x | x in e
  }

  /** The tuple holds exactly a and b; it is a 1-tuple exactly when they are equal. */
  lemma PairElems(a: nat, b: nat, order: Order)
    ensures Elems(Pair(a, b, order)) == {a, b}
    ensures |Pair(a, b, order)| == (if a == b then 1 else 2)
  {
  }

  /** The sorted tuple depends only on the set {a, b}. */
  lemma SortedSymmetric(a: nat, b: nat)
    ensures Pair(a, b, Sorted) == Pair(b, a, Sorted)
  {
  }

  /**
   * The tuple as written depends on the insertion order: ids 0 and 8 both
   * hash to slot 0, so whichever comes second moves to slot 1 and is listed
   * second.
   */
  lemma AsWrittenDependsOnOrder()
    ensures Pair(0, 8, AsWritten) == [0, 8]
    ensures Pair(8, 0, AsWritten) == [8, 0]
  {
    assert Shifts(8) == 1 by {
      assert Shifts(0) == 0;
    }
    assert 8 % 8 == 0 && 0 % 8 == 0 && 8 / 32 == 0 && 0 / 32 == 0;
    assert (5 * 0 + 1 + 0) % 8 == 1;
    ProbeStep(0, 8, 0, 9);
    ProbeFree(1, 0, 0, 8);
    ProbeStep(0, 0, 0, 8);
    ProbeFree(1, 0, 0, 7);
  }

  // ---------------------------------------------------------------------
  // The edge list
  // ---------------------------------------------------------------------

  /** The six corner pairs of a tet, in the order the loop appends them. */
  const Slots: seq<(nat, nat)> := [(0, 1), (0, 2), (0, 3), (1, 2), (1, 3), (2, 3)]

  /** Every tet has four corners. */
  predicate Tets(tets: seq<seq<nat>>) {
    forall t :: 0 <= t < |tets| ==> |tets[t]| == 4
  }

  /** The six tuples of one tet. */
  function TetPairs(ids: seq<nat>, order: Order): (r: seq<seq<nat>>)
    requires |ids| == 4
    ensures |r| == 6
  {
    seq(6, k requires 0 <= k < 6 => Pair(ids[Slots[k].0], ids[Slots[k].1], order))
  }

  /** The tuples of the whole table, tet by tet. */
  function AllPairs(tets: seq<seq<nat>>, order: Order): (r: seq<seq<nat>>)
    requires Tets(tets)
  {
    if tets == [] then [] else AllPairs(tets[..|tets| - 1], order) + TetPairs(tets[|tets| - 1], order)
  }

  /** The appending loop over the tets. */
  method ExtractPairs(tets: seq<seq<nat>>, order: Order) returns (edgeList: seq<seq<nat>>)
    requires Tets(tets)
    ensures edgeList == AllPairs(tets, order)
  {
    edgeList := [];
    for t := 0 to |tets|
      invariant edgeList == AllPairs(tets[..t], order)
    {
      edgeList := AppendTet(edgeList, tets[t], order);
      assert tets[..t + 1][..t] == tets[..t];
    }
    assert tets[..|tets|] == tets;
  }

  /** The six appends of one tet's corner pairs. */
  method AppendTet(edgeList: seq<seq<nat>>, ids: seq<nat>, order: Order) returns (r: seq<seq<nat>>)
    requires |ids| == 4
    ensures r == edgeList + TetPairs(ids, order)
  {
    r := edgeList + [Pair(ids[0], ids[1], order)];
    r := r + [Pair(ids[0], ids[2], order)];
    r := r + [Pair(ids[0], ids[3], order)];
    r := r + [Pair(ids[1], ids[2], order)];
    r := r + [Pair(ids[1], ids[3], order)];
    r := r + [Pair(ids[2], ids[3], order)];
    assert r[|edgeList|..] == TetPairs(ids, order);
    assert r == edgeList + r[|edgeList|..];
  }

  /** Slot p, q of the six is the pair of corners p and q. */
  lemma TetPairsCover(ids: seq<nat>, order: Order, p: int, q: int)
    requires |ids| == 4 && 0 <= p < q < 4
    ensures Pair(ids[p], ids[q], order) in TetPairs(ids, order)
  {
    var k := if p == 0 then q - 1 else if p == 1 then q + 1 else 5;
    assert Slots[k] == (p, q);
    assert TetPairs(ids, order)[k] == Pair(ids[p], ids[q], order);
  }

  /** Every one of the six corner pairs of every tet is in the list. */
  lemma {:induction false} PairsCovered(tets: seq<seq<nat>>, order: Order)
    requires Tets(tets)
    ensures forall t, p, q :: 0 <= t < |tets| && 0 <= p < q < 4 ==> Pair(tets[t][p], tets[t][q], order) in AllPairs(tets, order)
  {
    if tets != [] {
      var n := |tets| - 1;
      PairsCovered(tets[..n], order);
      forall t, p, q | 0 <= t < |tets| && 0 <= p < q < 4
        ensures Pair(tets[t][p], tets[t][q], order) in AllPairs(tets, order)
      {
        if t < n {
          assert tets[..n][t] == tets[t];
        } else {
          TetPairsCover(tets[t], order, p, q);
        }
      }
    }
  }

  /** Every tuple in the list is a corner pair of some tet. */
  lemma {:induction false} PairsFromTets(tets: seq<seq<nat>>, order: Order)
    requires Tets(tets)
    ensures forall e :: e in AllPairs(tets, order) ==>
      exists t, p, q :: 0 <= t < |tets| && 0 <= p < q < 4 && e == Pair(tets[t][p], tets[t][q], order)
  {
    if tets != [] {
      var n := |tets| - 1;
      PairsFromTets(tets[..n], order);
      forall e | e in AllPairs(tets, order)
        ensures exists t, p, q :: 0 <= t < |tets| && 0 <= p < q < 4 && e == Pair(tets[t][p], tets[t][q], order)
      {
        if e in AllPairs(tets[..n], order) {
          var t, p, q :| 0 <= t < n && 0 <= p < q < 4 && e == Pair(tets[..n][t][p], tets[..n][t][q], order);
          assert tets[..n][t] == tets[t];
        } else {
          var k :| 0 <= k < 6 && TetPairs(tets[n], order)[k] == e;
          assert e == Pair(tets[n][Slots[k].0], tets[n][Slots[k].1], order);
        }
      }
    }
  }

  /** Both ends of every edge in the list are corners of one tet. */
  lemma EdgesShareTet(tets: seq<seq<nat>>, order: Order)
    requires Tets(tets)
    ensures forall e :: e in AllPairs(tets, order) ==>
      exists t :: 0 <= t < |tets| && Elems(e) <= Elems(tets[t])
  {
    PairsFromTets(tets, order);
    forall e | e in AllPairs(tets, order)
      ensures exists t :: 0 <= t < |tets| && Elems(e) <= Elems(tets[t])
    {
      var t, p, q :| 0 <= t < |tets| && 0 <= p < q < 4 && e == Pair(tets[t][p], tets[t][q], order);
      PairElems(tets[t][p], tets[t][q], order);
    }
  }

  // ---------------------------------------------------------------------
  // list(set(edgeList))
  // ---------------------------------------------------------------------

  /** The distinct tuples of xs, each kept where it first occurs. */
  function Dedup(xs: seq<seq<nat>>): (r: seq<seq<nat>>)
    ensures forall x :: x in r <==> x in xs
    ensures forall i, j :: 0 <= i < j < |r| ==> r[i] != r[j]
  {
    if xs == [] then []
    else
      var r0 := Dedup(xs[..|xs| - 1]);
      var x := xs[|xs| - 1];
      if x in r0 then r0 else r0 + [x]
  }

  /**
   * With sorted tuples no undirected edge is listed twice: two entries of
   * the de-duplicated list never hold the same two vertices.
   */
  lemma SortedEdgesUnique(tets: seq<seq<nat>>)
    requires Tets(tets)
    ensures forall i, j :: 0 <= i < j < |Dedup(AllPairs(tets, Sorted))| ==>
      Elems(Dedup(AllPairs(tets, Sorted))[i]) != Elems(Dedup(AllPairs(tets, Sorted))[j])
  {
    var r := Dedup(AllPairs(tets, Sorted));
    PairsFromTets(tets, Sorted);
    forall i, j | 0 <= i < j < |r|
      ensures Elems(r[i]) != Elems(r[j])
    {
      assert r[i] in AllPairs(tets, Sorted) && r[j] in AllPairs(tets, Sorted);
      var t, p, q :| 0 <= t < |tets| && 0 <= p < q < 4 && r[i] == Pair(tets[t][p], tets[t][q], Sorted);
      var t', p', q' :| 0 <= t' < |tets| && 0 <= p' < q' < 4 && r[j] == Pair(tets[t'][p'], tets[t'][q'], Sorted);
      SortedDistinct(tets[t][p], tets[t][q], tets[t'][p'], tets[t'][q']);
    }
  }

  /** Different sorted tuples hold different sets of vertices. */
  lemma SortedDistinct(a: nat, b: nat, c: nat, d: nat)
    requires Pair(a, b, Sorted) != Pair(c, d, Sorted)
    ensures Elems(Pair(a, b, Sorted)) != Elems(Pair(c, d, Sorted))
  {
    PairElems(a, b, Sorted);
    PairElems(c, d, Sorted);
  }

  /**
   * As written, one undirected edge can be listed twice: two tets listing
   * the ids 0 and 8 in opposite orders leave both (0, 8) and (8, 0) in the
   * de-duplicated list.
   */
  lemma AsWrittenDuplicateEdge()
    ensures Tets([[0, 8, 1, 2], [8, 0, 3, 4]])
    ensures [0, 8] in Dedup(AllPairs([[0, 8, 1, 2], [8, 0, 3, 4]], AsWritten))
    ensures [8, 0] in Dedup(AllPairs([[0, 8, 1, 2], [8, 0, 3, 4]], AsWritten))
    ensures Elems([0, 8]) == Elems([8, 0])
  {
    var tets: seq<seq<nat>> := [[0, 8, 1, 2], [8, 0, 3, 4]];
    AsWrittenDependsOnOrder();
    PairsCovered(tets, AsWritten);
    assert Pair(tets[0][0], tets[0][1], AsWritten) == [0, 8];
    assert Pair(tets[1][0], tets[1][1], AsWritten) == [8, 0];
  }

  // ---------------------------------------------------------------------
  // edgeIds
  // ---------------------------------------------------------------------

  /**
   * The converter writes its index buffers, or stops with a ValueError when
   * a table it concatenates has no rows, or with an IndexError at a 1-tuple.
   */
  datatype Converted =
    | Converted(tetIds: seq<nat>, tetSurfaceTriIds: seq<nat>, tetEdgeIds: seq<nat>)
    | ValueError
    | IndexError

  /** Some tuple of the list is a 1-tuple. */
  predicate HasSingle(edges: seq<seq<nat>>) {
    exists k :: 0 <= k < |edges| && |edges[k]| < 2
  }

  /**
   * Both ids of every edge in list order, or IndexError at the first
   * 1-tuple, whose second entry does not exist.
   */
  method EdgeIds(edges: seq<seq<nat>>) returns (ids: seq<nat>, failed: bool)
    requires forall k :: 0 <= k < |edges| ==> 1 <= |edges[k]|
    ensures failed <==> HasSingle(edges)
    ensures !failed ==> |ids| == 2 * |edges|
    ensures !failed ==> forall k :: 0 <= k < |edges| ==> ids[2 * k] == edges[k][0] && ids[2 * k + 1] == edges[k][1]
  {
    ids := [];
    for k := 0 to |edges|
      invariant |ids| == 2 * k
      invariant forall m :: 0 <= m < k ==> |edges[m]| >= 2 && ids[2 * m] == edges[m][0] && ids[2 * m + 1] == edges[m][1]
    {
      var edge := edges[k];
      ids := ids + [edge[0]];
      if |edge| < 2 {
        return ids, true;
      }
      ids := ids + [edge[1]];
    }
    failed := false;
  }

  /** Every listed tuple is a corner pair of a tet, so it has one or two entries. */
  lemma ListedWidths(tets: seq<seq<nat>>, order: Order)
    requires Tets(tets)
    ensures forall k :: 0 <= k < |Dedup(AllPairs(tets, order))| ==> 1 <= |Dedup(AllPairs(tets, order))[k]| <= 2
  {
    var edges := Dedup(AllPairs(tets, order));
    PairsFromTets(tets, order);
    forall k | 0 <= k < |edges|
      ensures 1 <= |edges[k]| <= 2
    {
      assert edges[k] in AllPairs(tets, order);
      var t, p, q :| 0 <= t < |tets| && 0 <= p < q < 4 && edges[k] == Pair(tets[t][p], tets[t][q], order);
      PairElems(tets[t][p], tets[t][q], order);
    }
  }

  /** Some tet lists a vertex twice. */
  predicate Repeats(tets: seq<seq<nat>>)
    requires Tets(tets)
  {
    exists t, p, q :: 0 <= t < |tets| && 0 <= p < q < 4 && tets[t][p] == tets[t][q]
  }

  /** A 1-tuple is listed exactly when some tet repeats a vertex. */
  lemma SingleIffRepeat(tets: seq<seq<nat>>, order: Order)
    requires Tets(tets)
    ensures HasSingle(Dedup(AllPairs(tets, order))) <==> Repeats(tets)
  {
    if HasSingle(Dedup(AllPairs(tets, order))) {
      SingleFromRepeat(tets, order);
    }
    if Repeats(tets) {
      RepeatGivesSingle(tets, order);
    }
  }

  lemma SingleFromRepeat(tets: seq<seq<nat>>, order: Order)
    requires Tets(tets) && HasSingle(Dedup(AllPairs(tets, order)))
    ensures Repeats(tets)
  {
    var edges := Dedup(AllPairs(tets, order));
    PairsFromTets(tets, order);
    var k :| 0 <= k < |edges| && |edges[k]| < 2;
    assert edges[k] in AllPairs(tets, order);
    var t, p, q :| 0 <= t < |tets| && 0 <= p < q < 4 && edges[k] == Pair(tets[t][p], tets[t][q], order);
    PairElems(tets[t][p], tets[t][q], order);
  }

  lemma RepeatGivesSingle(tets: seq<seq<nat>>, order: Order)
    requires Tets(tets) && Repeats(tets)
    ensures HasSingle(Dedup(AllPairs(tets, order)))
  {
    var edges := Dedup(AllPairs(tets, order));
    PairsCovered(tets, order);
    var t, p, q :| 0 <= t < |tets| && 0 <= p < q < 4 && tets[t][p] == tets[t][q];
    var e := Pair(tets[t][p], tets[t][q], order);
    assert e in edges;
    var k :| 0 <= k < |edges| && edges[k] == e;
    assert |edges[k]| < 2;
  }

  /**
   * The index buffers of a tet mesh with tets `voxels` and surface triangles
   * `faces`, with vertex pairs written in `order`: `AsWritten` is the
   * converter as it stands, `Sorted` the converter with canonical pairs.
   * np.concatenate of a table with no rows raises before any edge is built.
   */
  method Convert(voxels: seq<seq<nat>>, faces: seq<seq<nat>>, order: Order) returns (out: Converted)
    requires Tets(voxels)
    ensures out.ValueError? <==> voxels == [] || faces == []
    ensures out.IndexError? <==> voxels != [] && faces != [] && Repeats(voxels)
    ensures out.Converted? ==> out.tetIds == Flatten(voxels) && out.tetSurfaceTriIds == Flatten(faces)
    ensures out.Converted? ==>
      var edges := Dedup(AllPairs(voxels, order));
      && |out.tetEdgeIds| == 2 * |edges|
      && forall k :: 0 <= k < |edges| ==>
           |edges[k]| == 2 && out.tetEdgeIds[2 * k] == edges[k][0] && out.tetEdgeIds[2 * k + 1] == edges[k][1]
  {
    if voxels == [] || faces == [] {
      return ValueError;
    }
    var tetIds := Flatten(voxels);
    var triIds := Flatten(faces);
    var edgeList := ExtractPairs(voxels, order);
    edgeList := Dedup(edgeList);
    ListedWidths(voxels, order);
    SingleIffRepeat(voxels, order);
    var edgeIds, failed := EdgeIds(edgeList);
    if failed {
      out := IndexError;
    } else {
      out := Converted(tetIds, triIds, edgeIds);
    }
  }
}
