# PSLG assembly of pdepy, in Dafny

pdepy meshes 2-D domains with Shewchuk's Triangle library. Before Triangle
can run, a domain has to become a *planar straight-line graph* (PSLG):
- a vertex list;
- a segment list, where every segment is a pair of indices into the vertex list;
- optionally a list of hole seed points, one point inside each hole.

pdepy has two independent builders for this PSLG, and this project models both.

- `pdekit/mesh/generator.py` is the live pipeline, modelled in module
  `MeshGenerator` (generator.dfy). `generate_mesh` takes a shapely Polygon
  or MultiPolygon and does the following:
  - repairs invalid components with `buffer(0)`;
  - skips empty components;
  - turns every ring into a closed loop (dropping the repeated closing
    coordinate), with one segment per edge including the wrap-around edge;
  - adds one `representative_point` seed per interior ring;
  - builds the switch string `p[q][a<area>][Q]`;
  - calls Triangle and rejects a result that lacks a "vertices" or a
    "triangles" entry (an empty array is accepted).

  `TriMesh.elements` turns the returned triangles into closed 4-point polylines.
- `mesh.py` is the older standalone class `Mesh`, modelled in module
  `StandaloneMesh` (mesh.dfy). Its constructor checks a domain dictionary:
  an outer polygon or circle, plus optional polygon or circle holes.
  `generate` then does the following:
  - discretises circles into `segments` points (64 by default);
  - normalises polygon closure and rejects polygons with fewer than three points;
  - appends each loop through its `add_loop` closure;
  - seeds polygon holes with the mean of their points and circle holes with
    their centre;
  - builds the switch string `p[a<area>]q`;
  - stores Triangle's vertices and triangles in the mesh.

Module `PslgCore` (pslg.dfy) holds what both builders share:
- the error kinds of Python that the code raises;
- the loop layout: the segments of a closed loop, and of several loops laid
  end to end;
- the `PslgBuilder` class: the three growing lists, and `AddLoop`, which
  appends a loop to them;
- the input record handed to Triangle;
- an independent reader of switch strings: the letters `p`, `q` and `Q`,
  and `a` followed by a number made of decimal digits and the decimal point
  (Triangle reads no exponent there). The round-trip lemmas use this reader.

Coordinates are an abstract type `P`, and the index reasoning never looks
inside a point. The following are parameters, not definitions:
- the shapely operations;
- numpy's `allclose`, mean and circle sampling;
- the text of a float;
- `triangle.triangulate` itself.

## Model

| member | source | states |
|---|---|---|
| MeshGenerator.RingPoints | pdekit/mesh/generator.py:181-184 | A ring keeps its coordinates as given, except that a repeated closing coordinate is dropped. It is dropped exactly when there are at least two coordinates and the first equals the last. Putting the first point back at the end then gives the ring again. |
| MeshGenerator.AddRing | pdekit/mesh/generator.py:178-189 | `_ring_to_vertices_and_segments` only appends. It adds the ring's points to the vertices and the ring's loop segments, numbered from the old vertex count, to the segments. It keeps the invariant that there is one segment per vertex and every index is valid. |
| PslgCore.PslgBuilder.AddLoop | pdekit/mesh/generator.py:185-189 | The loop that appends one vertex per point and one segment `(start+i, start+(i+1) mod n)` per point. Earlier entries stay unchanged, and the "segments = vertices, all indices valid" invariant is preserved. The same loop is `add_loop` at mesh.py:81-87. |
| PslgCore.PslgBuilder.constructor | pdekit/mesh/generator.py:218-220 | The three lists start empty, which satisfies the builder's invariant. |
| PslgCore.LoopSegmentsShape | pdekit/mesh/generator.py:185-189 | A loop of n points numbered from `start` has exactly n segments. Consecutive points are joined and the last point is joined back to the first. Every index lies in `[start, start+n)`. |
| PslgCore.LoopPrefixSegmentsAt | pdekit/mesh/generator.py:188-189 | Segment i of the loop is `(start+i, start+i+1)`, or `(start+i, start)` for the last point. |
| PslgCore.LoopKeepsIndices | pdekit/mesh/generator.py:185-189 | Appending a loop to a well-formed PSLG keeps segment count equal to vertex count and every index valid. |
| PslgCore.LoopsSegmentsWithin | pdekit/mesh/generator.py:222-225 | Loops laid end to end from `start` give exactly one segment per vertex, and every index stays inside the combined vertex range. |
| PslgCore.LoopsVerticesAppend | pdekit/mesh/generator.py:222-225 | The vertices of two runs of loops are the vertices of the first run followed by those of the second. |
| PslgCore.LoopsSegmentsAppend | pdekit/mesh/generator.py:222-225 | The segments of two runs of loops are those of the first run followed by those of the second, renumbered from where the first run's vertices end. |
| PslgCore.LoopsVerticesSnoc | pdekit/mesh/generator.py:199-200 | Appending one loop at the end appends its points. |
| PslgCore.LoopsSegmentsSnoc | pdekit/mesh/generator.py:199-200 | Appending one loop at the end appends its segments, numbered from the old vertex count. |
| PslgCore.LoopsVerticesEmpty | pdekit/mesh/generator.py:227-228 | The loops give no vertex exactly when every loop is empty. |
| PslgCore.InputOf | pdekit/mesh/generator.py:230-235 | The input record carries the vertices and the segments, and carries a "holes" entry exactly when there is at least one seed. |
| PslgCore.PslgBuilder.Input | pdekit/mesh/generator.py:230-236 | The Triangle input carries the builder's vertices and segments unchanged, and a "holes" entry, holding exactly the seeds, exactly when at least one seed exists. |
| MeshGenerator.HoleLoops | pdekit/mesh/generator.py:199-200 | One loop per interior ring. |
| MeshGenerator.HoleSeeds | pdekit/mesh/generator.py:201-203 | One seed per interior ring. |
| MeshGenerator.HolePrefixStep | pdekit/mesh/generator.py:199-203 | Handling one more interior ring adds its loop and its representative point at the end. |
| MeshGenerator.AddHole | pdekit/mesh/generator.py:200-203 | One interior ring appends its loop and exactly one seed, its representative point, and preserves the builder's invariant. |
| MeshGenerator.RingsAppendedStart | pdekit/mesh/generator.py:196-199 | After the exterior ring, the lists hold the exterior loop and no hole. |
| MeshGenerator.RingsAppendedStep | pdekit/mesh/generator.py:199-203 | After interior ring i, the lists hold the exterior loop and the first i+1 hole loops and seeds. |
| MeshGenerator.AddPolygon | pdekit/mesh/generator.py:192-203 | `_polygon_to_pslg` appends the exterior loop, then each interior loop in order, numbered from the old vertex count. It appends exactly one seed per interior ring and preserves the builder's invariant. |
| MeshGenerator.Components | pdekit/mesh/generator.py:208-213 | A Polygon is its own single component and a MultiPolygon has its parts. Anything else is the TypeError with its message, and only anything else is. |
| MeshGenerator.Repaired | pdekit/mesh/generator.py:216 | Repair (`buffer(0)` on an invalid component, a shapely parameter) gives exactly one component for each component in. |
| MeshGenerator.NonEmpty | pdekit/mesh/generator.py:222-224 | There are no more kept components than components, and none of them is empty; NonEmptyStep says which are kept. |
| MeshGenerator.NonEmptyStep | pdekit/mesh/generator.py:222-225 | One more component is kept exactly when it is not empty. |
| MeshGenerator.KeptSnoc | pdekit/mesh/generator.py:222-225 | One more kept component adds its loops and its seeds at the end. |
| MeshGenerator.KeptAppendedStep | pdekit/mesh/generator.py:222-225 | After component i, the lists hold exactly the kept components among the first i+1. |
| MeshGenerator.PslgOf | pdekit/mesh/generator.py:206-236 | The specification of `_geom_to_pslg`: a geometry that is not a (Multi)Polygon gives the TypeError; the only errors are that TypeError and the "Empty PSLG" ValueError; an accepted PSLG has at least one vertex and exactly one segment per vertex. |
| MeshGenerator.GeomToPslg | pdekit/mesh/generator.py:206-236 | The imperative `_geom_to_pslg` computes exactly the PSLG specification `PslgOf`, errors included. |
| MeshGenerator.PolygonHasVertices | pdekit/mesh/generator.py:223-225 | A non-empty polygon contributes at least one vertex. |
| MeshGenerator.AllLoopsEmpty | pdekit/mesh/generator.py:227-228 | Non-empty components give no vertex only when there are none of them. |
| MeshGenerator.NonEmptyNone | pdekit/mesh/generator.py:222-224 | Nothing is kept exactly when every component is empty. |
| MeshGenerator.EmptyPslgExactly | pdekit/mesh/generator.py:222-228 | The "Empty PSLG" ValueError is raised exactly for a (Multi)Polygon whose repaired components are all empty. |
| MeshGenerator.PslgOfWellFormed | pdekit/mesh/generator.py:206-236 | A TypeError happens exactly for a non-(Multi)Polygon. Every accepted PSLG has at least one vertex and exactly one segment per vertex, every segment index is a valid vertex index, and a "holes" entry is never empty. |
| MeshGenerator.AllSeedsNone | pdekit/mesh/generator.py:199-203 | There is no seed exactly when no component has an interior ring. |
| MeshGenerator.HolesEntryExactly | pdekit/mesh/generator.py:234-235 | The "holes" entry is present exactly when some kept component has an interior ring. |
| MeshGenerator.SquareWithOneHole | pdekit/mesh/generator.py:181-203 | A closed 5-coordinate square with one closed 65-coordinate hole ring gives 68 vertices, 68 segments and one seed. |
| MeshGenerator.TriangleSwitches | pdekit/mesh/generator.py:264-270 | The switch string starts with `p`. It has `q` in second place exactly when quality is asked for, ends in `Q` when quiet, and its length counts each optional part. |
| MeshGenerator.TriangleSwitchesRoundTrip | pdekit/mesh/generator.py:264-270 | Reading the switch string back gives exactly the options it was built from: polygon mode, quality, the area text and quiet, in that order. This holds whenever the area's text is a plain numeral. |
| MeshGenerator.ReadAreaQuiet | pdekit/mesh/generator.py:267-270 | Reading the tail after `p[q]` recovers the area text and the quiet flag. |
| MeshGenerator.BuildSwitches | pdekit/mesh/generator.py:264-270 | The `+=` steps build exactly the specified switch string. |
| MeshGenerator.GenerateMesh | pdekit/mesh/generator.py:239-285 | The options default as in the source: no maximum area, quality and quiet on. A PSLG error is raised unchanged. Otherwise Triangle is called once on the PSLG and the switch string; a result lacking vertices or triangles is the RuntimeError, and otherwise the mesh holds exactly the returned vertices and triangles. |
| MeshGenerator.VertexAt | pdekit/mesh/generator.py:167-170 | numpy row indexing: an index in `[-n, n)` names a vertex, with a negative index counted from the end; any other index is an error. |
| MeshGenerator.Elements | pdekit/mesh/generator.py:162-171 | One polyline per triangle, with exactly 4 points: its three corners, then the first corner again. An IndexError occurs exactly when some triangle names a missing vertex. |
| StandaloneMesh.CheckSpec | mesh.py:45-51 | A missing "outer" entry, or an outer type other than "polygon" or "circle", is the corresponding ValueError, and only those. Otherwise the outer primitive is kept, and "holes" defaults to the empty list. |
| StandaloneMesh.Mesh.constructor | mesh.py:45-55 | A checked domain gives a mesh over its outer primitive and holes, with no points and no triangles yet. |
| StandaloneMesh.NewMesh | mesh.py:45-55 | The constructor as a caller sees it: the validation error exactly when `CheckSpec` rejects the spec, and otherwise a fresh, empty mesh over the checked domain. |
| StandaloneMesh.DiscretizeCircle | mesh.py:57-60 | A circle gives exactly `segments` points, point k at angle 2πk/segments, so no endpoint is repeated. A negative count is an error. |
| StandaloneMesh.PolygonLoop | mesh.py:95-97 | Closure normalisation: points that do not close up are the loop as given, points that do close up lose their last point; either way the loop is a prefix of the points, with at least two points, starting at the first point. The same normalisation is applied to holes at mesh.py:112-116. |
| StandaloneMesh.CircleLoop | mesh.py:99-102 | A circle needs a "center" and a "radius" (KeyError otherwise, center looked up first). It gives exactly `segments` points, 64 when the entry is absent. |
| StandaloneMesh.OuterLoop | mesh.py:89-103 | A polygon outer boundary fails exactly when "points" is missing or has fewer than three points, and has the "at least 3 points" ValueError in the latter case. Otherwise its loop is the closure-normalised points. Any other type is read as a circle. |
| StandaloneMesh.HoleOf | mesh.py:106-125 | A polygon hole fails exactly when "points" is missing or has fewer than three points; otherwise it gives its normalised loop and seeds with the loop's mean. A circle hole gives the circle's loop and seeds with its centre. Any other type is "Unknown hole type". |
| StandaloneMesh.HolesOf | mesh.py:106-125 | Accepted holes give one part per hole. |
| StandaloneMesh.HolesOfFirstError | mesh.py:106-125 | The holes are accepted exactly when every hole is. Otherwise the error raised is that of the first failing hole. |
| StandaloneMesh.HolesOfParts | mesh.py:106-123 | Hole j contributes exactly its own loop and seed, in the order given. |
| StandaloneMesh.DomainPslgShape | mesh.py:77-132 | The assembled PSLG has exactly one segment per vertex, and every segment index is a valid vertex index. It has one seed per hole, and a "holes" entry exactly when the domain has holes. |
| StandaloneMesh.DomainPslgOuterFirst | mesh.py:89-103 | The outer loop's vertices and segments come first, numbered from 0. |
| StandaloneMesh.SquareWithCircleHole | mesh.py:57-60 | A 4-point square outer boundary with one 64-segment circular hole gives 68 vertices, 68 segments and the circle's centre as the only seed. |
| StandaloneMesh.HolesAppendedStart | mesh.py:97-106 | After the outer loop, no hole has been appended yet. |
| StandaloneMesh.PartsSnoc | mesh.py:114-123 | One more hole adds its loop and its seed at the end. |
| StandaloneMesh.HolesOfSnoc | mesh.py:106-125 | An accepted hole after accepted ones extends the accepted list by its parts. |
| StandaloneMesh.HolesAppendedStep | mesh.py:106-123 | After hole i, the lists hold the outer loop and the first i+1 hole loops and seeds. |
| StandaloneMesh.HolesFailAt | mesh.py:106-125 | A failing hole after accepted ones makes its error the error of the whole domain. |
| StandaloneMesh.HolesOfPrefixError | mesh.py:106-125 | Once a prefix of the holes fails, the whole hole list fails with the same error. |
| StandaloneMesh.AddHole | mesh.py:114-123 | One hole appends exactly one seed and its loop, and preserves the builder's invariant. |
| StandaloneMesh.DomainPslg | mesh.py:77-132 | The specification of the assembly in `generate`: it fails exactly when the outer loop or some hole fails, the outer boundary's error taking precedence; an accepted PSLG has exactly one segment per vertex. |
| StandaloneMesh.Mesh.AssemblePslg | mesh.py:76-132 | The imperative assembly in `generate` computes exactly the PSLG specification `DomainPslg`, errors included. |
| StandaloneMesh.MeshSwitches | mesh.py:134-138 | The switch string starts with `p` and ends with `q`. It has `a` followed by the area's text in between exactly when a maximum area is given. |
| StandaloneMesh.MeshSwitchesRoundTrip | mesh.py:134-138 | Reading the switch string back gives polygon mode, quality, the area text when given, and no quiet switch. |
| StandaloneMesh.BuildMeshSwitches | mesh.py:134-138 | The `+=` steps build exactly the specified switch string. |
| StandaloneMesh.Mesh.Generate | mesh.py:62-143 | The maximum area defaults to none, as in the source. A PSLG error leaves the mesh unchanged. Otherwise Triangle is called once. A result without "vertices" is a KeyError that leaves the mesh unchanged. A result with vertices but without "triangles" stores the vertices and then raises a KeyError. Otherwise both are stored and returned. |
| MeshGenerator.ExponentAreaUnread | pdekit/mesh/generator.py:267-268 | A maximum area that Python writes in exponent form (`5e-05`) gives the switch string `pqa5e-05Q`, which does not read back: the number stops at the `e`. |
| PslgCore.ReadFlag | pdekit/mesh/generator.py:264-270 | The reader takes a single-letter switch (`p`, `q`, `Q`) off the front of the string. |
| PslgCore.NumeralRunOf | pdekit/mesh/generator.py:267-268 | The area text is read up to the first character that cannot belong to a numeral. |
| PslgCore.ReadAreaSwitch | pdekit/mesh/generator.py:267-268 | `a` followed by a numeral is read as exactly that area text. |

## Left out

- `triangle.triangulate` is foreign C code. It is a function parameter
  that returns an input record's optional vertices and triangles, so
  nothing is said about the triangles it produces.
- The "segments" entry of Triangle's result (generator.py:276) is read but
  never used. `TriMesh.segments` is always left at its default. Neither is
  modelled.
- The shapely calls (`is_valid`, `buffer(0)`, `representative_point`,
  `is_empty`) are parameters.
  - `is_empty` is modelled as "the exterior ring has no coordinates".
  - `buffer(0)` is assumed to return a Polygon. Shapely can return a
    MultiPolygon there, and that is not modelled.
  - Nothing is assumed about where a representative point lies.
- Float arithmetic is left to parameters: the cos/sin circle positions,
  `np.allclose`, the mean of points and the text of `max_area`.
  - The conversions to float64 and int32 arrays are not modelled.
  - `int()` truncation of a non-integer "segments" entry is not modelled.
  - The other float conversions are not modelled either: `float()` of a
    non-numeric radius, and `tuple()` of the centre.
- TriangleSwitchesRoundTrip: covers only a `max_area` whose text is made
  of decimal digits and the decimal point. Python's `f"a{max_area}"` writes
  areas below 0.0001 and from 1e16 up in exponent form (`5e-05`, `1e+16`),
  and infinity and NaN as `inf` and `nan`; Triangle does not read such text
  as the area (ExponentAreaUnread shows one such string), so the round trip
  does not hold for them.
- MeshSwitchesRoundTrip: has the same restriction, for the same reason:
  `f'a{max_area}'` at mesh.py:137 formats the area the same way.
- Triangle's own command-line parser is not part of this model; the reader
  in pslg.dfy stands in for it and rejects letters other than `p`, `q`,
  `a` and `Q`.
- `Mesh.plot` (mesh.py:145-159) is not modelled, because it is plotting.
- `TriMesh.points` is not modelled: it is a plain alias of `vertices`.
- The commented-out code at generator.py:1-134 is not modelled. That code
  is a rounding and merging PSLG builder and the old `MeshGenerator`
  class. The live builder modelled here never merges coincident vertices.
- The `type` entry of a primitive and the text of a float are plain
  values, so a non-string type cannot arise.
- In `mesh.py`, `generate` looks up `self.outer['type']` again after the
  constructor has checked it. The model keeps the missing-type KeyError
  branch of `OuterLoop`, which a checked mesh never reaches.
- The canvas, Qt dialogs, entry scripts and examples are not part of this
  model.
