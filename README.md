# Closest point on a triangle and on a mesh

This project models the two `Extensions.ClosestPoint` routines of `ClosestPoint.cs` over
exact real arithmetic and proves what they compute.

- **The triangle routine** (`ClosestPoint(Vector3, Vector3[])`) takes a query `p` and
  the corners `a, b, c`. It runs an ordered, loop-free case analysis on three line
  parameters. It tests the vertex regions of `a`, `b` and `c`, then the edge regions
  of `ab`, `bc` and `ca`. Otherwise it projects `p` onto the plane through the
  centroid.
  - Module `TriangleClosestPoint` models this as pure functions, one per local helper
    (`Delta`, `PointAt`, `Project`, `IsAbove`) plus the routine itself.
  - `ClosestPointAsWritten` keeps the code's strict vertex tests.
  - `ClosestPoint` makes them non-strict (see "## Findings"). The containment
    property is proved for this version; the mesh routine calls the strict one, as the
    code does.
- **The mesh routine** (`ClosestPoint(Vector3, Mesh)`) first folds over the vertex
  list. It then scans the index list for the one position equal to the chosen
  vertex's index. Module `MeshClosestPoint` models it as:
  - a recursive function for the fold (`FarthestIndex`);
  - a method with a `for` loop and a `nearest` accumulator for the scan
    (`ClosestPointOnMesh`);
  - the function `MeshClosestPoint`, which the method is proved equal to.

Supporting modules:

| module | contents |
|---|---|
| `Scalars` | facts about real products and quotients |
| `Vectors` | `Vector3` with `Add`, `Sub`, `Scale`, `Dot`, `Cross`, `SqrMagnitude`, the engine's `ProjectOnPlane`, and their identities |
| `TriangleGeometry` | the plane, the sides and the closed triangle of three points, and nearness to a triangle |
| `Regions` | the scalar argument that the vertex and edge tests cover the outside of the triangle |
| `VertexTestFinding` | the boundary query that the strict vertex tests miss |
| `RightTriangle` | the routine on the triangle (0,0,0), (1,0,0), (0,1,0) for a corner query, an edge query and a face query |

Vocabulary used below:
- `Reach(a, b, p)` is `(p - a) · (b - a)`.
- `Side(a, b, c, p)` is the signed distance-like value `(n × (b - a)) · (p - a)`, with
  `n = (a - b) × (a - c)`. It is positive on the side of edge `ab` towards `c`.
- `InTriangle` means: in the plane, with all three side values non-negative.
- `Minimal(p, r, a, b, c)` means: `r` is at least as close to `p` as every point
  `a + s(b - a) + t(c - a)` with `s, t >= 0` and `s + t <= 1`.

The mesh routine's doc comment (ClosestPoint.cs:8-9) promises the point of the surface
nearest to the query, and its variable names (`nearestVertex`, `nearestClosestPoint`)
speak of nearest points. The code does less, and the model follows the code:
- The fold at line 16 keeps the accumulator unless it is strictly closer than the
  current vertex. It therefore picks the **farthest** vertex, the earliest of several
  equally far ones, although the variable is named `nearestVertex`.
- The loop compares the **position** `i` in the index list with that vertex's index.
  So only the one triangle whose index block covers that position is examined, not
  every triangle containing the vertex.
- No point is returned when no position matches. With a single triangle examined,
  the comparison against `nearestClosestPoint` never sees a second candidate, so there
  is no minimum over the surface.
- The triangle routine it calls keeps its strict vertex tests, so the boundary queries
  of "## Findings" can get a point off the examined triangle (`FoundOffTriangle`).
- The code does not check that the index count is a multiple of 3.

## Model

| member | source | states |
|---|---|---|
| Vectors.ProjectOnPlane | ClosestPoint.cs:96 | For a zero normal the vector comes back unchanged. Otherwise the result is orthogonal to the normal. In both cases the removed part `v - r` is parallel to the normal (its cross product with the normal is zero), so the result is `v` minus its component along the normal. |
| TriangleClosestPoint.Delta | ClosestPoint.cs:51 | Adding the step to `point1` gives `point2`. |
| TriangleClosestPoint.PointAt | ClosestPoint.cs:52 | Parameter 0 gives `point1` and parameter 1 gives `point2`. |
| TriangleClosestPoint.Project | ClosestPoint.cs:53 | Needs distinct endpoints (the code divides by the squared edge length). The step from `p` to `PointAt` at the result is orthogonal to the edge, so the result is the parameter of the foot of `p`. |
| TriangleClosestPoint.ProjectPointAt | ClosestPoint.cs:52-53 | Round trip: projecting `PointAt(t)` gives back `t`. |
| TriangleClosestPoint.ProjectOffset | ClosestPoint.cs:52-53 | Moving `PointAt(t)` by an offset orthogonal to the edge leaves the parameter `t`. |
| TriangleClosestPoint.ProjectEndpoints | ClosestPoint.cs:53 | `Project(a, b, a) == 0` and `Project(a, b, b) == 1`. |
| TriangleClosestPoint.PointAtOnTriangle | ClosestPoint.cs:52 | Points on `ab`, `bc` and `ca` are triangle points with coefficients `(u, 0)`, `(1 - u, u)` and `(0, 1 - u)`. |
| TriangleClosestPoint.EdgePointInTriangle | ClosestPoint.cs:79-92 | For `0 < u < 1`, the point at `u` on each edge lies in the closed triangle. |
| TriangleClosestPoint.VerticesInTriangle | ClosestPoint.cs:61-74 | Each returned vertex lies in the closed triangle. |
| TriangleClosestPoint.CentroidIsTrianglePoint | ClosestPoint.cs:95 | `center` is the triangle point with coefficients 1/3, 1/3. |
| TriangleClosestPoint.FacePoint | ClosestPoint.cs:95-96 | The result lies in the plane through `center` orthogonal to `n`. A zero `n` returns the query. |
| TriangleClosestPoint.FacePointOnNormalLine | ClosestPoint.cs:95-96 | The face result is `p + k n`: it differs from the query only along the normal. |
| TriangleClosestPoint.FacePointInPlane | ClosestPoint.cs:95-96 | With the triangle's normal, the face result lies in the triangle's plane. |
| TriangleClosestPoint.FacePointFixesPlanePoints | ClosestPoint.cs:95-96 | A query already in the triangle's plane comes back unchanged from the face fallback. |
| TriangleClosestPoint.FacePointMinimal | ClosestPoint.cs:95-96 | The face result is at least as close to the query as every point of the triangle. |
| TriangleClosestPoint.VertexTestMeaning | ClosestPoint.cs:57-74 | The non-strict vertex-`a` test holds iff `Reach(a, b, p) <= 0` and `Reach(a, c, p) <= 0`. The strict test holds iff both are `< 0`. |
| TriangleClosestPoint.VertexRegionReturnsVertex | ClosestPoint.cs:61-64 | When `p` is at an obtuse or right angle to both edges at `a`, the routine returns exactly `a`. |
| TriangleClosestPoint.AsWrittenVertexRegion | ClosestPoint.cs:61-64 | With the strict tests, `a` is returned when both angles are strictly obtuse. |
| TriangleClosestPoint.VertexRegionReturnsB | ClosestPoint.cs:61-69 | The test at `a` cannot hold when `p` is at an obtuse or right angle to both edges at `b`, so the routine returns exactly `b`. The strict version also returns `b` when both angles are strictly obtuse. |
| TriangleClosestPoint.VertexRegionReturnsC | ClosestPoint.cs:61-74 | The same holds at `c`: neither earlier vertex test holds in its region, and `c` is returned exactly. |
| TriangleClosestPoint.EdgeRegionReturnsFoot | ClosestPoint.cs:79-82 | Suppose `Reach(a, b, p)` lies strictly between 0 and `SqrDistance(a, b)`, `p` is ahead of `c` along `ca`, and `p` is not inside `ab`. Then both versions return `PointAt(a, b, uab)`. |
| TriangleClosestPoint.EdgeBCReturnsFoot | ClosestPoint.cs:61-87 | Suppose `Reach(b, c, p)` lies strictly between 0 and `SqrDistance(b, c)`, `p` is ahead of `a` along `ab`, strictly inside `ab` and not inside `bc`. Then both versions return `PointAt(b, c, ubc)`. |
| TriangleClosestPoint.EdgeCAReturnsFoot | ClosestPoint.cs:61-92 | Suppose `Reach(c, a, p)` lies strictly between 0 and `SqrDistance(c, a)`, `p` is ahead of `b` along `bc`, strictly inside `ab` and `bc` and not inside `ca`. Then both versions return `PointAt(c, a, uca)`. |
| TriangleClosestPoint.InteriorReturnsFacePoint | ClosestPoint.cs:94-96 | Suppose `p` is ahead along every edge and strictly inside every edge. Then no vertex test and no edge test fires, and both versions return the face point. |
| TriangleClosestPoint.VertexTestRegion | ClosestPoint.cs:61-64 | For a nondegenerate triangle, the vertex-`a` test holds iff the scalar vertex condition on the three side values holds. |
| TriangleClosestPoint.EdgeTestRegion | ClosestPoint.cs:79-82 | For a nondegenerate triangle, the edge-`ab` test holds iff the scalar edge condition on the three side values holds. |
| Regions.Cover | ClosestPoint.cs:61-92 | When no vertex condition and no edge condition holds, all three side values are non-negative. |
| TriangleClosestPoint.FacePointInTriangle | ClosestPoint.cs:94-96 | When none of the six tests fires on a nondegenerate triangle, the face result lies in the closed triangle. |
| TriangleClosestPoint.ClosestPointInPlane | ClosestPoint.cs:49-97 | Whichever branch returns, the result lies in the plane of the three corners. |
| TriangleClosestPoint.AsWrittenInPlane | ClosestPoint.cs:49-97 | The same for the strict vertex tests. |
| TriangleClosestPoint.ClosestPointMinimal | ClosestPoint.cs:49-97 | The result is at least as close to `p` as every point of the closed triangle. |
| TriangleClosestPoint.AsWrittenMinimal | ClosestPoint.cs:49-97 | The same for the strict vertex tests. |
| TriangleClosestPoint.ClosestPointInTriangle | ClosestPoint.cs:49-97 | For a nondegenerate triangle, the corners are distinct and the result lies in the closed triangle. Here "in the triangle" is `InTriangle` (in the plane, all side values non-negative), while `ClosestPointMinimal` compares against points with simplex coefficients; the two forms are linked in one direction only (see "## Left out"). |
| TriangleClosestPoint.TrianglePointsFixed | ClosestPoint.cs:49-97 | Idempotence: every point of the closed triangle (simplex coefficients `s, t`) is returned unchanged, by both versions. |
| TriangleGeometry.VertexMinimal | ClosestPoint.cs:61-64 | A query at an obtuse or right angle to both edges at `a` is nearest to `a` among all triangle points. |
| TriangleGeometry.EdgeMinimal | ClosestPoint.cs:79-82 | A query outside edge `ab` (or on its line) is nearest to its foot on that line among all triangle points. |
| TriangleGeometry.FaceMinimal | ClosestPoint.cs:94-96 | A point of the plane reached from the query along the normal is nearest to the query among all triangle points. |
| TriangleClosestPoint.EdgeTestRescaled | ClosestPoint.cs:79-92 | Scaling the normal by a positive factor does not change any edge test. |
| TriangleClosestPoint.FacePointRescaled | ClosestPoint.cs:96 | Scaling the normal by a positive factor does not change the face result. |
| TriangleClosestPoint.NormalScaleInvariant | ClosestPoint.cs:77-96 | Edge tests and face fallback give the same point for `k n` as for `n`, for every `k > 0`. So using the raw cross product in place of `.normalized` changes no result. |
| TriangleClosestPoint.VersionsAgree | ClosestPoint.cs:61-74 | When the corners are distinct and no line parameter is exactly 0 or 1 (`OffBoundaryValues`), the strict and non-strict versions return the same point. |
| VertexTestFinding.AsWrittenLeavesTriangle | ClosestPoint.cs:57-96 | Take `uab == 0`, `ubc == 0`, `uca > 1` and a query in the plane outside `ab`. The strict version returns the query itself, which is not in the triangle. The non-strict version returns `a`. |
| VertexTestFinding.MissedQueryLeavesTriangle | ClosestPoint.cs:57-96 | The same, stated on the dot products the parameters are computed from. |
| VertexTestFinding.AsWrittenMissesCorner | ClosestPoint.cs:61-96 | For the triangle (0,0,0), (1,0,0), (0,1,0) and the query (0,-1,0), the strict version returns (0,-1,0), which is outside the triangle. The non-strict version returns (0,0,0). |
| RightTriangle.CornerCaseReturnsCorner | ClosestPoint.cs:61-64 | Behind `a` along both edges at `a`, both versions return `a`. |
| RightTriangle.CornerScenario | ClosestPoint.cs:61-64 | For the triangle (0,0,0), (1,0,0), (0,1,0), the query (-1,-1,0) gives (0,0,0) in both versions. |
| RightTriangle.EdgeCaseReturnsFoot | ClosestPoint.cs:79-82 | In the edge-`ab` region with `u * SqrDistance(a, b) == Reach(a, b, p)`, both versions return `PointAt(a, b, u)`. |
| RightTriangle.EdgeScenario | ClosestPoint.cs:79-82 | The query (0.5,-1,0) gives (0.5,0,0) in both versions. |
| RightTriangle.FaceCaseReturnsProjection | ClosestPoint.cs:94-96 | Inside all edges and ahead along all of them, both versions return `p + k n`, where `k` takes `p` onto the plane through the centroid. |
| RightTriangle.FaceScenario | ClosestPoint.cs:94-96 | The query (0.2,0.2,5) gives (0.2,0.2,0) in both versions. |
| MeshClosestPoint.FarthestIndex | ClosestPoint.cs:16 | The fold returns a valid index whose vertex is at least as far from `p` as every vertex, and strictly farther than every earlier one. |
| MeshClosestPoint.FarthestIndexUnique | ClosestPoint.cs:16 | Those two properties single out the fold's index: any index with both is the fold's. |
| MeshClosestPoint.BlockStart | ClosestPoint.cs:25 | `i - i % 3` is a multiple of 3 and covers `i` within the next three positions. |
| MeshClosestPoint.ClosestPointOnMesh | ClosestPoint.cs:14-41 | The loop, which skips every position but `k` and keeps a point when none is recorded or when it is strictly closer, returns exactly `MeshClosestPoint`. That is: no vertices is an error; with `k` the fold's index, `k` below the index count gives the strict triangle routine's result (`ClosestPointAsWritten`) on the block starting at `k - k % 3` (or an index or degeneracy error); otherwise it is the `.Value` failure. |
| MeshClosestPoint.FailureCases | ClosestPoint.cs:16-40 | The routine fails for lack of vertices iff the vertex list is empty. With vertices, it fails at `.Value` iff the fold's index is not a position of the index list. |
| MeshClosestPoint.FoundOnCoveringTriangle | ClosestPoint.cs:18-36 | A point found comes from the block covering the fold's index. That block is in range with distinct corners, and the point is the strict triangle routine's result on it, lies in its plane, and is at least as close to `p` as every point of that triangle. |
| MeshClosestPoint.FoundInTriangle | ClosestPoint.cs:25-31 | If the covering block is in range, its triangle is nondegenerate and none of the query's three line parameters on it is exactly 0 or 1, a point is found and it lies on that triangle. |
| MeshClosestPoint.FoundOffTriangle | ClosestPoint.cs:25-31 | If the query is level with the covering triangle's corners as in `MissedQuery` (`uab == 0`, `ubc == 0`, `uca > 1`, in the plane outside `ab`), the routine returns the query itself, which is not on that triangle. |
| MeshClosestPoint.OnlyCoveringBlockMatters | ClosestPoint.cs:18-31 | Two meshes with the same vertices and index lists of equal length that agree on the covering block give the same outcome, whatever their other triangles are. |

## Left out

- Floating point: the model computes over exact reals. The code's rounding, the NaN or
  Infinity produced by a zero-length edge at line 53, and the epsilon cut-offs inside
  `.normalized` and `Vector3.ProjectOnPlane` are not modelled. `ProjectOnPlane`
  returns its vector unchanged exactly when the normal is zero.
- `.normalized` (lines 77 and 96) needs a square root. The model uses the raw cross
  product `(a - b) × (a - c)` instead. `NormalScaleInvariant` proves that every use
  of the normal gives the same result for every positive scaling of it.
- TriangleClosestPoint.ClosestPoint: requires distinct corners, because `Project`
  divides by the squared edge length. Results for coincident corners come from float
  behaviour in the code.
- TriangleClosestPoint.ClosestPointInTriangle: requires a nondegenerate triangle.
  Collinear corners make the normal zero, and the code's result then depends on Unity's
  epsilon behaviour.
- MeshClosestPoint.ClosestPointOnMesh: returns `Failed(DegenerateTriangle)` where the
  examined triangle has coincident corners. In that case the code goes on with NaN
  values.
- MeshClosestPoint.ClosestPointOnMesh: returns `Failed(IndexOutOfRange)` where the code
  throws on an out-of-range array access.
- MeshClosestPoint.FoundInTriangle: requires that no line parameter of the query on the
  covering triangle is exactly 0 or 1, because the strict vertex tests the code calls
  can leave the triangle there (`FoundOffTriangle`).
- The Unity `Mesh` object is not modelled. Only its `vertices` and `triangles` arrays
  are, as sequences. The routine receives them as values, so it cannot change them.
  The array copies its getters make are left out.
- The triangle array is passed as three points `a`, `b`, `c`.
- No property of a global minimum over all triangles of the mesh is stated. The code
  examines one triangle only.
- `InTriangle` is stated through the side values. The converse of
  `TrianglePointInTriangle` (every such point has simplex coefficients) is not proved.
  Nearness (`Minimal`) is therefore stated over simplex coefficients.

## Findings

| source | as written | input that shows it | evidently intended | confidence | as-written member | corrected member |
|---|---|---|---|---|---|---|
| ClosestPoint.cs:61-74 | The vertex tests compare strictly (`uca > 1 && uab < 0`, and rotations). A query with `uab == 0`, `ubc == 0` and `uca > 1` fails every vertex test and every edge test (those need `0 < u < 1`). It then falls through to the face projection, which returns a point outside the triangle. | Triangle (0,0,0), (1,0,0), (0,1,0) and query (0,-1,0): the routine returns (0,-1,0). | Non-strict vertex tests (`uca >= 1 && uab <= 0`, and rotations), which return the corner (0,0,0). | not executed | VertexTestFinding.AsWrittenMissesCorner | TriangleClosestPoint.ClosestPointInTriangle |
