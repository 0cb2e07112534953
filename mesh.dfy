/** The mesh overload: pick a vertex by folding over the vertex list, scan the index
 *  list for the position equal to that vertex's index, and hand the triangle whose
 *  index block covers that position to the triangle routine. */
module MeshClosestPoint {
  import opened Vectors
  import opened TriangleGeometry
  import opened TriangleClosestPoint
  import opened VertexTestFinding

  /** The two arrays of the mesh that the routine reads: vertex positions, and vertex
   *  indices taken three at a time as triangles. */
  datatype Mesh = Mesh(vertices: seq<Vector3>, triangles: seq<int>)

  /** Why the routine produces no point. */
  datatype MeshError =
    | NoVertices         // the fold has no element to start from
    | NoCandidate        // no position of the index list matched, and `.Value` fails
    | IndexOutOfRange    // the index block or a vertex index lies outside its array
    | DegenerateTriangle // two corners of the examined triangle coincide

  datatype Outcome = Found(point: Vector3) | Failed(error: MeshError)

  /** The routine's nullable accumulator. */
  datatype Option<T> = None | Some(value: T)

  // ---------------------------------------------------------------------------
  // The vertex fold

  /** The fold over the vertices: the accumulator is replaced by the current vertex
   *  exactly when the accumulator is strictly closer to `p`.  The result is the
   *  farthest vertex, the earliest of several equally far ones. */
  function FarthestIndex(p: Vector3, vs: seq<Vector3>): (k: nat)
    requires |vs| > 0
    ensures k < |vs|
    ensures forall j :: 0 <= j < |vs| ==> SqrDistance(p, vs[j]) <= SqrDistance(p, vs[k])
    ensures forall j :: 0 <= j < k ==> SqrDistance(p, vs[j]) < SqrDistance(p, vs[k])
  {
    if |vs| == 1 then 0
    else
      var k := FarthestIndex(p, vs[..|vs| - 1]);
      if SqrDistance(p, vs[k]) < SqrDistance(p, vs[|vs| - 1]) then |vs| - 1 else k
  }

  /** The two properties single out the fold's index: no other index is at least as
   *  far as every vertex and strictly farther than every earlier one. */
  lemma FarthestIndexUnique(p: Vector3, vs: seq<Vector3>, j: nat)
    requires j < |vs|
    requires forall i :: 0 <= i < |vs| ==> SqrDistance(p, vs[i]) <= SqrDistance(p, vs[j])
    requires forall i :: 0 <= i < j ==> SqrDistance(p, vs[i]) < SqrDistance(p, vs[j])
    ensures j == FarthestIndex(p, vs)
  {
  }

  // ---------------------------------------------------------------------------
  // The examined triangle

  /** First position of the index block that covers position `i`. */
  function BlockStart(i: nat): (f: nat)
    ensures f % 3 == 0 && f <= i < f + 3
  {
    i - i % 3
  }

  predicate ValidIndex(vs: seq<Vector3>, index: int) {
    0 <= index < |vs|
  }

  /** The block starting at `f` lies inside the index list and names three vertices. */
  predicate BlockInRange(m: Mesh, f: nat) {
    f + 2 < |m.triangles| &&
    ValidIndex(m.vertices, m.triangles[f]) &&
    ValidIndex(m.vertices, m.triangles[f + 1]) &&
    ValidIndex(m.vertices, m.triangles[f + 2])
  }

  /** Corners of the triangle whose indices start at position `f`. */
  function CornerA(m: Mesh, f: nat): Vector3
    requires BlockInRange(m, f)
  {
    m.vertices[m.triangles[f]]
  }

  function CornerB(m: Mesh, f: nat): Vector3
    requires BlockInRange(m, f)
  {
    m.vertices[m.triangles[f + 1]]
  }

  function CornerC(m: Mesh, f: nat): Vector3
    requires BlockInRange(m, f)
  {
    m.vertices[m.triangles[f + 2]]
  }

  predicate BlockDistinct(m: Mesh, f: nat)
    requires BlockInRange(m, f)
  {
    Distinct(CornerA(m, f), CornerB(m, f), CornerC(m, f))
  }

  /** What the loop body computes on the one position it does not skip. */
  function Candidate(p: Vector3, m: Mesh, i: nat): Outcome {
    var f := BlockStart(i);
    if !BlockInRange(m, f) then Failed(IndexOutOfRange)
    else if !BlockDistinct(m, f) then Failed(DegenerateTriangle)
    else Found(ClosestPointAsWritten(p, CornerA(m, f), CornerB(m, f), CornerC(m, f)))
  }

  /** The routine as a value: the farthest vertex's index `k`, then the triangle whose
   *  index block covers position `k` of the index list, if there is such a position. */
  function MeshClosestPoint(p: Vector3, m: Mesh): Outcome {
    if |m.vertices| == 0 then Failed(NoVertices)
    else
      var k := FarthestIndex(p, m.vertices);
      if k < |m.triangles| then Candidate(p, m, k) else Failed(NoCandidate)
  }

  // ---------------------------------------------------------------------------
  // The loop

  /** The loop of the routine: every position other than `k` is skipped; at `k` the
   *  triangle routine runs on the covering block and its point is kept when nothing is
   *  recorded yet or it is strictly closer than the recorded one. */
  method ClosestPointOnMesh(p: Vector3, m: Mesh) returns (r: Outcome)
    ensures r == MeshClosestPoint(p, m)
  {
    if |m.vertices| == 0 {
      return Failed(NoVertices);
    }
    var k := FarthestIndex(p, m.vertices);
    var nearest: Option<Vector3> := None;
    for i := 0 to |m.triangles|
      invariant i <= k ==> nearest == None
      invariant k < i ==> nearest.Some? && Candidate(p, m, k) == Found(nearest.value)
    {
      if i != k {
        continue;
      }
      var f := BlockStart(i);
      if !BlockInRange(m, f) {
        return Failed(IndexOutOfRange);
      }
      if !BlockDistinct(m, f) {
        return Failed(DegenerateTriangle);
      }
      var closest := ClosestPointAsWritten(p, CornerA(m, f), CornerB(m, f), CornerC(m, f));
      if Replaces(p, closest, nearest) {
        nearest := Some(closest);
      }
    }
    if nearest.None? {
      return Failed(NoCandidate);
    }
    r := Found(nearest.value);
  }

  /** The comparison of the loop body: a new point is recorded when none is recorded
   *  yet or when it is strictly closer to `p` than the recorded one. */
  predicate Replaces(p: Vector3, closest: Vector3, nearest: Option<Vector3>) {
    nearest.None? || SqrDistance(p, closest) < SqrDistance(p, nearest.value)
  }

  // ---------------------------------------------------------------------------
  // What the routine promises

  /** Without vertices the fold fails; with vertices, the routine fails at `.Value`
   *  exactly when the fold's index is not a position of the index list. */
  lemma FailureCases(p: Vector3, m: Mesh)
    ensures MeshClosestPoint(p, m) == Failed(NoVertices) <==> |m.vertices| == 0
    ensures |m.vertices| > 0 ==>
      (MeshClosestPoint(p, m) == Failed(NoCandidate) <==> FarthestIndex(p, m.vertices) >= |m.triangles|)
  {
    if |m.vertices| > 0 {
      var k := FarthestIndex(p, m.vertices);
      if k < |m.triangles| {
        assert Candidate(p, m, k) != Failed(NoCandidate) && Candidate(p, m, k) != Failed(NoVertices);
      }
    }
  }

  /** A point found by the routine is the triangle routine's result on the block that
   *  covers the farthest vertex's index; it is as close to `p` as every point of that
   *  triangle and lies in its plane. */
  lemma FoundOnCoveringTriangle(p: Vector3, m: Mesh)
    requires MeshClosestPoint(p, m).Found?
    ensures |m.vertices| > 0
    ensures FarthestIndex(p, m.vertices) < |m.triangles|
    ensures BlockInRange(m, BlockStart(FarthestIndex(p, m.vertices)))
    ensures BlockDistinct(m, BlockStart(FarthestIndex(p, m.vertices)))
    ensures
      var f := BlockStart(FarthestIndex(p, m.vertices));
      var q := MeshClosestPoint(p, m).point;
      q == ClosestPointAsWritten(p, CornerA(m, f), CornerB(m, f), CornerC(m, f)) &&
      Minimal(p, q, CornerA(m, f), CornerB(m, f), CornerC(m, f)) &&
      InPlane(CornerA(m, f), CornerB(m, f), CornerC(m, f), q)
  {
    var f := BlockStart(FarthestIndex(p, m.vertices));
    var a, b, c := CornerA(m, f), CornerB(m, f), CornerC(m, f);
    AsWrittenMinimal(p, a, b, c);
    AsWrittenInPlane(p, a, b, c);
  }

  /** For a nondegenerate covering triangle, the point found lies on that triangle
   *  whenever none of the query's three line parameters on it is exactly 0 or 1; there
   *  the strict vertex tests agree with the non-strict ones. */
  lemma FoundInTriangle(p: Vector3, m: Mesh)
    requires |m.vertices| > 0
    requires FarthestIndex(p, m.vertices) < |m.triangles|
    requires BlockInRange(m, BlockStart(FarthestIndex(p, m.vertices)))
    requires
      var f := BlockStart(FarthestIndex(p, m.vertices));
      Nondegenerate(CornerA(m, f), CornerB(m, f), CornerC(m, f))
    requires
      var f := BlockStart(FarthestIndex(p, m.vertices));
      OffBoundaryValues(p, CornerA(m, f), CornerB(m, f), CornerC(m, f))
    ensures MeshClosestPoint(p, m).Found?
    ensures
      var f := BlockStart(FarthestIndex(p, m.vertices));
      InTriangle(CornerA(m, f), CornerB(m, f), CornerC(m, f), MeshClosestPoint(p, m).point)
  {
    var f := BlockStart(FarthestIndex(p, m.vertices));
    var a, b, c := CornerA(m, f), CornerB(m, f), CornerC(m, f);
    ClosestPointInTriangle(p, a, b, c);
    VersionsAgree(p, a, b, c);
  }

  /** The strict vertex tests carry over to the mesh: when the query is level with the
   *  covering triangle's corners as in `MissedQuery`, the routine returns the query
   *  itself, which is not on that triangle. */
  lemma FoundOffTriangle(p: Vector3, m: Mesh)
    requires |m.vertices| > 0
    requires FarthestIndex(p, m.vertices) < |m.triangles|
    requires BlockInRange(m, BlockStart(FarthestIndex(p, m.vertices)))
    requires
      var f := BlockStart(FarthestIndex(p, m.vertices));
      MissedQuery(p, CornerA(m, f), CornerB(m, f), CornerC(m, f))
    ensures MeshClosestPoint(p, m) == Found(p)
    ensures
      var f := BlockStart(FarthestIndex(p, m.vertices));
      !InTriangle(CornerA(m, f), CornerB(m, f), CornerC(m, f), p)
  {
    var f := BlockStart(FarthestIndex(p, m.vertices));
    MissedQueryLeavesTriangle(p, CornerA(m, f), CornerB(m, f), CornerC(m, f));
  }

  /** Only one triangle is examined: two meshes with the same vertices and index lists
   *  of the same length that agree on the block covering the farthest vertex's index
   *  give the same outcome, whatever their other triangles are. */
  lemma OnlyCoveringBlockMatters(p: Vector3, m: Mesh, m': Mesh)
    requires m.vertices == m'.vertices && |m.triangles| == |m'.triangles| && |m.vertices| > 0
    requires
      var f := BlockStart(FarthestIndex(p, m.vertices));
      forall j :: f <= j < f + 3 && j < |m.triangles| ==> m.triangles[j] == m'.triangles[j]
    ensures MeshClosestPoint(p, m) == MeshClosestPoint(p, m')
  {
    var k := FarthestIndex(p, m.vertices);
    var f := BlockStart(k);
    if k < |m.triangles| && BlockInRange(m, f) {
      assert m.triangles[f] == m'.triangles[f];
      assert m.triangles[f + 1] == m'.triangles[f + 1];
      assert m.triangles[f + 2] == m'.triangles[f + 2];
    }
  }
}
