/** The live meshing pipeline of pdekit: a shapely Polygon or MultiPolygon is
    turned into the vertex, segment and hole-seed lists Triangle takes, the
    switch string is assembled, and the triangulator's answer is checked and
    wrapped as a TriMesh. */
module MeshGenerator {
  import opened PslgCore

  /** A shapely polygon: the coordinate sequence of its exterior ring and of
      each interior ring, as shapely gives them (a ring repeats its first
      coordinate at the end). A polygon is empty when its exterior is. */
  datatype Polygon<P> = Polygon(exterior: seq<P>, interiors: seq<seq<P>>) {
    predicate IsEmpty() {
      exterior == []
    }
  }

  /** What `generate_mesh` may be handed. */
  datatype Geometry<P> =
    | PolygonGeometry(polygon: Polygon<P>)
    | MultiPolygonGeometry(parts: seq<Polygon<P>>)
    | OtherGeometry

  /** The shapely operations the assembler calls and does not define:
      `is_valid`, `buffer(0)` and the representative point of the polygon
      bounded by a ring. */
  datatype Shapely<!P> = Shapely(
    isValid: Polygon<P> -> bool,
    buffer0: Polygon<P> -> Polygon<P>,
    representativePoint: seq<P> -> P)

  const TypeErrorMessage := "generate_mesh expects a shapely Polygon or MultiPolygon."
  const EmptyPslgMessage := "Empty PSLG – the geometry has no boundary to mesh."
  const TriangleFailedMessage := "Triangle failed to return vertices/triangles."

  // ---------------------------------------------------------------------
  // Specification of the assembled PSLG
  // ---------------------------------------------------------------------

  /** The points of a ring without its closing duplicate: the last coordinate
      is dropped exactly when there are several and the last equals the first;
      putting the first point back at the end then gives the ring again. */
  function RingPoints<P(==)>(coords: seq<P>): (pts: seq<P>)
    ensures pts <= coords && |coords| - 1 <= |pts|
    ensures |pts| < |coords| <==> |coords| > 1 && coords[0] == coords[|coords| - 1]
    ensures |pts| < |coords| ==> pts + [pts[0]] == coords
  {
    if |coords| > 1 && coords[0] == coords[|coords| - 1] then
      var pts := coords[..|coords| - 1];
      assert pts + [pts[0]] == coords;
      pts
    else coords
  }

  /** The loops of a list of interior rings, in order. */
  function HoleLoops<P(==)>(rings: seq<seq<P>>): (loops: seq<seq<P>>)
    ensures |loops| == |rings|
  {
    if rings == [] then []
    else HoleLoops(rings[..|rings| - 1]) + [RingPoints(rings[|rings| - 1])]
  }

  /** The loops a polygon contributes: its exterior first, then its holes in order. */
  function PolygonLoops<P(==)>(poly: Polygon<P>): seq<seq<P>>
  {
    [RingPoints(poly.exterior)] + HoleLoops(poly.interiors)
  }

  /** One seed per interior ring, in order. */
  function HoleSeeds<P>(rings: seq<seq<P>>, shapely: Shapely<P>): (seeds: seq<P>)
    ensures |seeds| == |rings|
  {
    if rings == [] then []
    else HoleSeeds(rings[..|rings| - 1], shapely) + [shapely.representativePoint(rings[|rings| - 1])]
  }

  /** The components of the geometry, or the TypeError for anything that is
      neither a Polygon nor a MultiPolygon. */
  function Components<P>(geom: Geometry<P>): (r: Result<seq<Polygon<P>>>)
    ensures r.Err? <==> geom.OtherGeometry?
    ensures r.Err? ==> r.error == TypeError(TypeErrorMessage)
    ensures geom.PolygonGeometry? ==> r == Ok([geom.polygon])
    ensures geom.MultiPolygonGeometry? ==> r == Ok(geom.parts)
  {
    match geom
    case MultiPolygonGeometry(parts) => Ok(parts)
    case PolygonGeometry(p) => Ok([p])
    case OtherGeometry => Err(TypeError(TypeErrorMessage))
  }

  /** Each component as is when valid, repaired by `buffer(0)` otherwise. */
  function Repaired<P>(polys: seq<Polygon<P>>, shapely: Shapely<P>): (r: seq<Polygon<P>>)
    ensures |r| == |polys|
  {
    seq(|polys|, i requires 0 <= i < |polys| =>
      if shapely.isValid(polys[i]) then polys[i] else shapely.buffer0(polys[i]))
  }

  /** The non-empty components, in order. */
  function NonEmpty<P>(polys: seq<Polygon<P>>): (kept: seq<Polygon<P>>)
    ensures |kept| <= |polys|
    ensures forall i :: 0 <= i < |kept| ==> !kept[i].IsEmpty()
  {
    if polys == [] then []
    else
      var last := polys[|polys| - 1];
      NonEmpty(polys[..|polys| - 1]) + if last.IsEmpty() then [] else [last]
  }

  /** The loops of several polygons, polygon after polygon. */
  function AllLoops<P(==)>(polys: seq<Polygon<P>>): seq<seq<P>>
  {
    if polys == [] then []
    else AllLoops(polys[..|polys| - 1]) + PolygonLoops(polys[|polys| - 1])
  }

  /** The hole seeds of several polygons, polygon after polygon. */
  function AllSeeds<P>(polys: seq<Polygon<P>>, shapely: Shapely<P>): seq<P>
  {
    if polys == [] then []
    else AllSeeds(polys[..|polys| - 1], shapely) + HoleSeeds(polys[|polys| - 1].interiors, shapely)
  }

  /** The components the PSLG is built from: repaired, empty ones skipped. */
  function Kept<P>(polys: seq<Polygon<P>>, shapely: Shapely<P>): seq<Polygon<P>>
  {
    NonEmpty(Repaired(polys, shapely))
  }

  /** The triangulator input the assembler produces for a geometry, or the
      error it raises: the TypeError for a geometry that is not a
      (Multi)Polygon, the "Empty PSLG" ValueError, and nothing else. */
  function PslgOf<P(==)>(geom: Geometry<P>, shapely: Shapely<P>): (r: Result<TriangleInput<P>>)
    ensures geom.OtherGeometry? ==> r == Err(TypeError(TypeErrorMessage))
    ensures r.Err? ==> r.error == TypeError(TypeErrorMessage) || r.error == ValueError(EmptyPslgMessage)
    ensures r.Ok? ==> |r.value.segments| == |r.value.vertices| > 0
  {
    match Components(geom)
    case Err(e) => Err(e)
    case Ok(polys) =>
      var kept := Kept(polys, shapely);
      var loops := AllLoops(kept);
      var vertices := LoopsVertices(loops);
      var segments := LoopsSegments(0, loops);
      if vertices == [] || segments == [] then Err(ValueError(EmptyPslgMessage))
      else Ok(InputOf(vertices, segments, AllSeeds(kept, shapely)))
  }

  // ---------------------------------------------------------------------
  // The assembler
  // ---------------------------------------------------------------------

  /** Appends one ring: its points without the closing duplicate become new
      vertices and each of them starts one new segment, the last one wrapping
      around to the ring's first vertex. Hole seeds are not touched. */
  method AddRing<P(==)>(b: PslgBuilder<P>, coords: seq<P>)
    modifies b`vertices, b`segments
    ensures b.vertices == old(b.vertices) + RingPoints(coords)
    ensures b.segments == old(b.segments) + LoopSegments(|old(b.vertices)|, |RingPoints(coords)|)
    ensures old(b.Valid()) ==> b.Valid()
  {
    var pts := coords;
    if |pts| > 1 && pts[0] == pts[|pts| - 1] {
      pts := pts[..|pts| - 1];
    }
    b.AddLoop(pts);
  }

  /** Appends one interior ring and then its seed. */
  method AddHole<P(==)>(b: PslgBuilder<P>, ring: seq<P>, shapely: Shapely<P>)
    modifies b
    ensures b.vertices == old(b.vertices) + RingPoints(ring)
    ensures b.segments == old(b.segments) + LoopSegments(|old(b.vertices)|, |RingPoints(ring)|)
    ensures b.holes == old(b.holes) + [shapely.representativePoint(ring)]
    ensures old(b.Valid()) ==> b.Valid()
  {
    AddRing(b, ring);
    b.holes := b.holes + [shapely.representativePoint(ring)];
  }

  /** Taking one more interior ring adds its loop and its seed at the end. */
  lemma HolePrefixStep<P>(rings: seq<seq<P>>, i: nat, shapely: Shapely<P>)
    requires i < |rings|
    ensures HoleLoops(rings[..i + 1]) == HoleLoops(rings[..i]) + [RingPoints(rings[i])]
    ensures HoleSeeds(rings[..i + 1], shapely) == HoleSeeds(rings[..i], shapely) + [shapely.representativePoint(rings[i])]
  {
    assert rings[..i + 1][..i] == rings[..i];
  }

  /** The three lists after a polygon's exterior loop `ext` and its first `i`
      interior rings were appended to `v0`, `s0` and `h0`. */
  ghost predicate RingsAppended<P>(v0: seq<P>, s0: seq<Segment>, h0: seq<P>, ext: seq<P>,
                                   rings: seq<seq<P>>, i: nat, shapely: Shapely<P>,
                                   vs: seq<P>, ss: seq<Segment>, hs: seq<P>)
    requires i <= |rings|
  {
    var loops := [ext] + HoleLoops(rings[..i]);
    vs == v0 + LoopsVertices(loops)
    && ss == s0 + LoopsSegments(|v0|, loops)
    && hs == h0 + HoleSeeds(rings[..i], shapely)
  }

  /** After the exterior ring, no interior ring has been appended yet. */
  lemma RingsAppendedStart<P>(v0: seq<P>, s0: seq<Segment>, h0: seq<P>, ext: seq<P>,
                              rings: seq<seq<P>>, shapely: Shapely<P>)
    ensures RingsAppended(v0, s0, h0, ext, rings, 0, shapely,
                          v0 + ext, s0 + LoopSegments(|v0|, |ext|), h0)
  {
  }

  /** Appending interior ring `i` and its seed extends the lists to `i + 1` rings. */
  lemma RingsAppendedStep<P>(v0: seq<P>, s0: seq<Segment>, h0: seq<P>, ext: seq<P>,
                             rings: seq<seq<P>>, i: nat, shapely: Shapely<P>,
                             vs: seq<P>, ss: seq<Segment>, hs: seq<P>)
    requires i < |rings|
    requires RingsAppended(v0, s0, h0, ext, rings, i, shapely, vs, ss, hs)
    ensures RingsAppended(v0, s0, h0, ext, rings, i + 1, shapely,
                          vs + RingPoints(rings[i]),
                          ss + LoopSegments(|vs|, |RingPoints(rings[i])|),
                          hs + [shapely.representativePoint(rings[i])])
  {
    var done := [ext] + HoleLoops(rings[..i]);
    var ring := RingPoints(rings[i]);
    HolePrefixStep(rings, i, shapely);
    assert [ext] + HoleLoops(rings[..i + 1]) == done + [ring];
    LoopsVerticesSnoc(done, ring);
    LoopsSegmentsSnoc(|v0|, done, ring);
  }

  /** Appends a polygon: the exterior ring, then each interior ring followed
      by one seed for it. */
  method AddPolygon<P(==)>(b: PslgBuilder<P>, poly: Polygon<P>, shapely: Shapely<P>)
    modifies b
    ensures b.vertices == old(b.vertices) + LoopsVertices(PolygonLoops(poly))
    ensures b.segments == old(b.segments) + LoopsSegments(|old(b.vertices)|, PolygonLoops(poly))
    ensures b.holes == old(b.holes) + HoleSeeds(poly.interiors, shapely)
    ensures old(b.Valid()) ==> b.Valid()
  {
    ghost var v0, s0, h0 := b.vertices, b.segments, b.holes;
    ghost var ext := RingPoints(poly.exterior);
    AddRing(b, poly.exterior);
    RingsAppendedStart(v0, s0, h0, ext, poly.interiors, shapely);
    for i := 0 to |poly.interiors|
      invariant RingsAppended(v0, s0, h0, ext, poly.interiors, i, shapely, b.vertices, b.segments, b.holes)
      invariant old(b.Valid()) ==> b.Valid()
    {
      ghost var vs, ss, hs := b.vertices, b.segments, b.holes;
      AddHole(b, poly.interiors[i], shapely);
      RingsAppendedStep(v0, s0, h0, ext, poly.interiors, i, shapely, vs, ss, hs);
    }
    assert poly.interiors[..|poly.interiors|] == poly.interiors;
  }

  /** The three lists after the non-empty ones among the first `i`
      components were appended to empty lists. */
  ghost predicate KeptAppended<P>(polys: seq<Polygon<P>>, i: nat, shapely: Shapely<P>,
                                  vs: seq<P>, ss: seq<Segment>, hs: seq<P>)
    requires i <= |polys|
  {
    var kept := NonEmpty(polys[..i]);
    vs == LoopsVertices(AllLoops(kept))
    && ss == LoopsSegments(0, AllLoops(kept))
    && hs == AllSeeds(kept, shapely)
  }

  /** Taking one more component keeps it exactly when it is not empty. */
  lemma NonEmptyStep<P>(polys: seq<Polygon<P>>, i: nat)
    requires i < |polys|
    ensures NonEmpty(polys[..i + 1]) == NonEmpty(polys[..i]) + if polys[i].IsEmpty() then [] else [polys[i]]
  {
    assert polys[..i + 1][..i] == polys[..i];
  }

  /** One more kept component adds its loops and its seeds at the end. */
  lemma KeptSnoc<P>(kept: seq<Polygon<P>>, poly: Polygon<P>, shapely: Shapely<P>)
    ensures AllLoops(kept + [poly]) == AllLoops(kept) + PolygonLoops(poly)
    ensures AllSeeds(kept + [poly], shapely) == AllSeeds(kept, shapely) + HoleSeeds(poly.interiors, shapely)
  {
  }

  /** Looking at component `i` extends the lists to `i + 1` components. */
  lemma KeptAppendedStep<P>(polys: seq<Polygon<P>>, i: nat, shapely: Shapely<P>,
                            vs: seq<P>, ss: seq<Segment>, hs: seq<P>)
    requires i < |polys|
    requires KeptAppended(polys, i, shapely, vs, ss, hs)
    ensures polys[i].IsEmpty() ==> KeptAppended(polys, i + 1, shapely, vs, ss, hs)
    ensures !polys[i].IsEmpty() ==>
              KeptAppended(polys, i + 1, shapely,
                           vs + LoopsVertices(PolygonLoops(polys[i])),
                           ss + LoopsSegments(|vs|, PolygonLoops(polys[i])),
                           hs + HoleSeeds(polys[i].interiors, shapely))
  {
    var before := NonEmpty(polys[..i]);
    NonEmptyStep(polys, i);
    if polys[i].IsEmpty() {
      assert NonEmpty(polys[..i + 1]) == before;
    } else {
      var poly := polys[i];
      assert NonEmpty(polys[..i + 1]) == before + [poly];
      KeptSnoc(before, poly, shapely);
      LoopsVerticesAppend(AllLoops(before), PolygonLoops(poly));
      LoopsSegmentsAppend(0, AllLoops(before), PolygonLoops(poly));
    }
  }

  /** `_geom_to_pslg`: splits the geometry into components, repairs invalid
      ones, skips empty ones and appends the rest; fails when nothing is left
      to mesh. What the result then satisfies is `PslgOfWellFormed`. */
  method GeomToPslg<P(==)>(geom: Geometry<P>, shapely: Shapely<P>) returns (r: Result<TriangleInput<P>>)
    ensures r == PslgOf(geom, shapely)
  {
    var polys: seq<Polygon<P>>;
    match geom {
      case MultiPolygonGeometry(parts) => polys := parts;
      case PolygonGeometry(p) => polys := [p];
      case OtherGeometry => return Err(TypeError(TypeErrorMessage));
    }
    polys := Repaired(polys, shapely);
    var b := new PslgBuilder<P>();
    assert polys[..0] == [];
    for i := 0 to |polys|
      invariant KeptAppended(polys, i, shapely, b.vertices, b.segments, b.holes)
    {
      ghost var vs, ss, hs := b.vertices, b.segments, b.holes;
      KeptAppendedStep(polys, i, shapely, vs, ss, hs);
      if !polys[i].IsEmpty() {
        AddPolygon(b, polys[i], shapely);
      }
    }
    assert polys[..|polys|] == polys;
    if b.vertices == [] || b.segments == [] {
      return Err(ValueError(EmptyPslgMessage));
    }
    r := Ok(b.Input());
  }

  // ---------------------------------------------------------------------
  // Properties of the specification
  // ---------------------------------------------------------------------

  /** A non-empty polygon contributes at least one vertex (its exterior ring). */
  lemma PolygonHasVertices<P>(poly: Polygon<P>)
    requires !poly.IsEmpty()
    ensures LoopsVertices(PolygonLoops(poly)) != []
  {
  }

  /** The kept components yield no vertex exactly when there are none. */
  lemma {:induction false} AllLoopsEmpty<P>(polys: seq<Polygon<P>>)
    requires forall i :: 0 <= i < |polys| ==> !polys[i].IsEmpty()
    ensures LoopsVertices(AllLoops(polys)) == [] <==> polys == []
    decreases |polys|
  {
    if polys != [] {
      var init, last := polys[..|polys| - 1], polys[|polys| - 1];
      LoopsVerticesAppend(AllLoops(init), PolygonLoops(last));
      PolygonHasVertices(last);
    }
  }

  /** No component is kept exactly when every repaired component is empty. */
  lemma {:induction false} NonEmptyNone<P>(polys: seq<Polygon<P>>)
    ensures NonEmpty(polys) == [] <==> forall i :: 0 <= i < |polys| ==> polys[i].IsEmpty()
    decreases |polys|
  {
    if polys != [] {
      var init := polys[..|polys| - 1];
      NonEmptyNone(init);
      assert forall i :: 0 <= i < |init| ==> init[i] == polys[i];
    }
  }

  /** `_geom_to_pslg` raises the empty-PSLG ValueError exactly when the
      geometry is a Polygon or MultiPolygon all of whose components are empty
      once repaired. */
  lemma EmptyPslgExactly<P>(geom: Geometry<P>, shapely: Shapely<P>)
    ensures PslgOf(geom, shapely) == Err(ValueError(EmptyPslgMessage))
        <==> !geom.OtherGeometry?
             && forall i :: 0 <= i < |Repaired(Components(geom).value, shapely)|
                  ==> Repaired(Components(geom).value, shapely)[i].IsEmpty()
  {
    if !geom.OtherGeometry? {
      var polys := Repaired(Components(geom).value, shapely);
      var kept := NonEmpty(polys);
      NonEmptyNone(polys);
      AllLoopsEmpty(kept);
    }
  }

  /** What `_geom_to_pslg` returns: a TypeError exactly for a geometry that
      is neither a Polygon nor a MultiPolygon; otherwise, on success, one
      segment per vertex, at least one vertex, every segment joining two
      existing vertices, and a "holes" entry only with at least one seed. */
  lemma PslgOfWellFormed<P>(geom: Geometry<P>, shapely: Shapely<P>)
    ensures PslgOf(geom, shapely).Err? && PslgOf(geom, shapely).error.TypeError? <==> geom.OtherGeometry?
    ensures PslgOf(geom, shapely).Ok? ==>
              var a := PslgOf(geom, shapely).value;
              |a.segments| == |a.vertices| > 0
              && IndicesIn(a.segments, 0, |a.vertices|)
              && (a.holes.Some? ==> a.holes.value != [])
  {
    if !geom.OtherGeometry? {
      LoopsSegmentsWithin(0, AllLoops(Kept(Components(geom).value, shapely)));
    }
  }

  /** The hole seeds of the kept components are empty exactly when none of
      them has an interior ring. */
  lemma {:induction false} AllSeedsNone<P>(polys: seq<Polygon<P>>, shapely: Shapely<P>)
    ensures AllSeeds(polys, shapely) == [] <==> forall i :: 0 <= i < |polys| ==> polys[i].interiors == []
    decreases |polys|
  {
    if polys != [] {
      var init := polys[..|polys| - 1];
      AllSeedsNone(init, shapely);
      assert forall i :: 0 <= i < |init| ==> init[i] == polys[i];
    }
  }

  /** The input carries a "holes" entry exactly when some kept component has
      an interior ring, and then one seed per interior ring. */
  lemma HolesEntryExactly<P>(geom: Geometry<P>, shapely: Shapely<P>)
    requires PslgOf(geom, shapely).Ok?
    ensures var kept := Kept(Components(geom).value, shapely);
            (PslgOf(geom, shapely).value.holes.Some?
             <==> exists i :: 0 <= i < |kept| && kept[i].interiors != [])
  {
    AllSeedsNone(Kept(Components(geom).value, shapely), shapely);
  }

  /** A square ring (five coordinates, closed) with one closed 64-sided hole
      ring (sixty-five coordinates) gives 68 vertices, 68 segments and one
      hole seed. */
  lemma SquareWithOneHole<P>(square: seq<P>, hole: seq<P>, shapely: Shapely<P>)
    requires |square| == 5 && square[0] == square[4]
    requires |hole| == 65 && hole[0] == hole[64]
    requires shapely.isValid(Polygon(square, [hole]))
    ensures PslgOf(PolygonGeometry(Polygon(square, [hole])), shapely).Ok?
    ensures var a := PslgOf(PolygonGeometry(Polygon(square, [hole])), shapely).value;
            |a.vertices| == 68 && |a.segments| == 68 && a.holes.Some? && |a.holes.value| == 1
  {
    var poly := Polygon(square, [hole]);
    var ext, h := RingPoints(square), RingPoints(hole);
    assert Kept([poly], shapely) == [poly] by {
      assert Repaired([poly], shapely) == [poly];
      assert [poly][..0] == [];
    }
    assert AllLoops([poly]) == [ext, h] by {
      assert [poly][..0] == [] && [hole][..0] == [];
      assert HoleLoops([hole]) == [h];
    }
    assert LoopsVertices([ext, h]) == ext + h by {
      assert [ext, h][1..] == [h] && [h][1..] == [];
      assert LoopsVertices([h]) == h + [] == h;
    }
    assert AllSeeds([poly], shapely) == HoleSeeds([hole], shapely) by {
      assert [poly][..0] == [];
    }
  }

  // ---------------------------------------------------------------------
  // Triangle switches and the call
  // ---------------------------------------------------------------------

  /** The switch string of `generate_mesh`: `p`, then `q` when quality is
      asked for, then `a` and the maximum area when one is given, then `Q`
      when quiet. */
  function TriangleSwitches(quality: bool, maxArea: Option<real>, quiet: bool, formatReal: real -> string): (opts: string)
    ensures |opts| == 1 + (if quality then 1 else 0)
                        + (if maxArea.Some? then 1 + |formatReal(maxArea.value)| else 0)
                        + (if quiet then 1 else 0)
    ensures opts[0] == 'p'
    ensures quality <==> |opts| > 1 && opts[1] == 'q'
    ensures quiet ==> opts[|opts| - 1] == 'Q'
  {
    "p" + (if quality then "q" else "")
        + (if maxArea.Some? then "a" + formatReal(maxArea.value) else "")
        + (if quiet then "Q" else "")
  }

  function AreaText(maxArea: Option<real>, formatReal: real -> string): Option<string>
  {
    if maxArea.Some? then Some(formatReal(maxArea.value)) else None
  }

  /** Reading the area and quiet part of the switch string records them. */
  lemma ReadAreaQuiet(maxArea: Option<real>, quiet: bool, formatReal: real -> string, acc: Switches)
    requires maxArea.Some? ==> IsNumeral(formatReal(maxArea.value))
    requires !acc.quiet
    ensures ReadSwitchesFrom((if maxArea.Some? then "a" + formatReal(maxArea.value) else "") + (if quiet then "Q" else ""), acc)
         == Some(acc.(area := if maxArea.Some? then AreaText(maxArea, formatReal) else acc.area, quiet := quiet))
  {
    var z := if quiet then "Q" else "";
    var acc' := acc.(area := if maxArea.Some? then AreaText(maxArea, formatReal) else acc.area);
    assert ReadSwitchesFrom(z, acc') == Some(acc'.(quiet := quiet)) by {
      if quiet {
        ReadFlag('Q', [], acc');
        assert z == ['Q'] + [];
      }
    }
    if maxArea.Some? {
      ReadAreaSwitch(formatReal(maxArea.value), z, acc);
    } else {
      assert "" + z == z;
    }
  }

  /** An area whose text is in exponent form, as Python writes 0.00005, is
      not read back: the number stops at the `e`, which is then taken as a
      switch letter of its own. */
  lemma ExponentAreaUnread(maxArea: real, formatReal: real -> string)
    requires formatReal(maxArea) == "5e-05"
    ensures TriangleSwitches(true, Some(maxArea), true, formatReal) == "pqa5e-05Q"
    ensures ReadSwitches(TriangleSwitches(true, Some(maxArea), true, formatReal)) == None
  {
    var s := "pqa5e-05Q";
    var acc := Switches(true, true, None, false);
    assert s == ['p'] + (['q'] + "a5e-05Q");
    ReadFlag('p', ['q'] + "a5e-05Q", Switches(false, false, None, false));
    ReadFlag('q', "a5e-05Q", Switches(true, false, None, false));
    assert "a5e-05Q"[1..] == "5e-05Q";
    assert NumeralRun("5e-05Q") == 1 by {
      assert "5e-05Q"[1..] == "e-05Q";
    }
    assert "a5e-05Q"[2..] == "e-05Q";
    assert ReadSwitchesFrom("a5e-05Q", acc) == ReadSwitchesFrom("e-05Q", acc.(area := Some("5")));
  }

  /** Reading the switch string back gives exactly the options it was built
      from, provided the area is written as a plain decimal numeral. */
  lemma TriangleSwitchesRoundTrip(quality: bool, maxArea: Option<real>, quiet: bool, formatReal: real -> string)
    requires maxArea.Some? ==> IsNumeral(formatReal(maxArea.value))
    ensures ReadSwitches(TriangleSwitches(quality, maxArea, quiet, formatReal))
         == Some(Switches(true, quality, AreaText(maxArea, formatReal), quiet))
  {
    var q := if quality then "q" else "";
    var tail := (if maxArea.Some? then "a" + formatReal(maxArea.value) else "") + (if quiet then "Q" else "");
    var s0 := Switches(false, false, None, false);
    var s2 := Switches(true, quality, None, false);
    assert TriangleSwitches(quality, maxArea, quiet, formatReal) == [ 'p' ] + (q + tail);
    ReadFlag('p', q + tail, s0);
    assert ReadSwitchesFrom(q + tail, s0.(polygon := true)) == ReadSwitchesFrom(tail, s2) by {
      if quality {
        ReadFlag('q', tail, s0.(polygon := true));
        assert q + tail == ['q'] + tail;
      } else {
        assert q + tail == tail;
      }
    }
    ReadAreaQuiet(maxArea, quiet, formatReal, s2);
  }

  /** The switch string as `generate_mesh` assembles it, one option at a time. */
  method BuildSwitches(quality: bool, maxArea: Option<real>, quiet: bool, formatReal: real -> string)
    returns (opts: string)
    ensures opts == TriangleSwitches(quality, maxArea, quiet, formatReal)
  {
    opts := "p";
    if quality {
      opts := opts + "q";
    }
    if maxArea.Some? {
      opts := opts + "a" + formatReal(maxArea.value);
    }
    if quiet {
      opts := opts + "Q";
    }
  }

  /** The mesh Triangle returned. */
  datatype TriMesh<P> = TriMesh(vertices: seq<P>, triangles: seq<Triangle>)

  /** `generate_mesh`: assembles the PSLG, builds the switch string, calls
      the triangulator once and returns its vertices and triangles as they
      came; a missing vertex or triangle list is a RuntimeError. */
  method GenerateMesh<P(==)>(geom: Geometry<P>, maxArea: Option<real> := None, quality: bool := true, quiet: bool := true,
                             shapely: Shapely<P>, formatReal: real -> string,
                             triangulate: (TriangleInput<P>, string) -> TriangleOutput<P>)
    returns (r: Result<TriMesh<P>>)
    ensures PslgOf(geom, shapely).Err? ==> r == Err(PslgOf(geom, shapely).error)
    ensures PslgOf(geom, shapely).Ok? ==>
              var out := triangulate(PslgOf(geom, shapely).value,
                                     TriangleSwitches(quality, maxArea, quiet, formatReal));
              r == if out.vertices.Some? && out.triangles.Some?
                   then Ok(TriMesh(out.vertices.value, out.triangles.value))
                   else Err(RuntimeError(TriangleFailedMessage))
  {
    var a := GeomToPslg(geom, shapely);
    if a.Err? {
      return Err(a.error);
    }
    var opts := BuildSwitches(quality, maxArea, quiet, formatReal);
    var result := triangulate(a.value, opts);
    if result.vertices.None? || result.triangles.None? {
      return Err(RuntimeError(TriangleFailedMessage));
    }
    r := Ok(TriMesh(result.vertices.value, result.triangles.value));
  }

  // ---------------------------------------------------------------------
  // TriMesh.elements
  // ---------------------------------------------------------------------

  /** Row `i` of a numpy vertex array: a negative index counts from the end,
      anything outside `[-n, n)` is an IndexError (None). */
  function VertexAt<P>(vs: seq<P>, i: int): (v: Option<P>)
    ensures v.Some? <==> -|vs| <= i < |vs|
    ensures 0 <= i < |vs| ==> v == Some(vs[i])
    ensures -|vs| <= i < 0 ==> v == Some(vs[|vs| + i])
  {
    if 0 <= i < |vs| then Some(vs[i])
    else if -|vs| <= i < 0 then Some(vs[|vs| + i])
    else None
  }

  predicate CornersExist<P>(vs: seq<P>, t: Triangle) {
    VertexAt(vs, t.a).Some? && VertexAt(vs, t.b).Some? && VertexAt(vs, t.c).Some?
  }

  /** `TriMesh.elements`: one closed polyline per triangle, through its three
      corners and back to the first; an IndexError if a corner index is out of
      range. */
  method Elements<P>(mesh: TriMesh<P>) returns (r: Result<seq<seq<P>>>)
    ensures r.Ok? <==> forall t :: 0 <= t < |mesh.triangles| ==> CornersExist(mesh.vertices, mesh.triangles[t])
    ensures r.Err? ==> r.error.IndexError?
    ensures r.Ok? ==> |r.value| == |mesh.triangles|
    ensures r.Ok? ==> forall t :: 0 <= t < |r.value| ==>
              |r.value[t]| == 4 && r.value[t][3] == r.value[t][0]
              && VertexAt(mesh.vertices, mesh.triangles[t].a) == Some(r.value[t][0])
              && VertexAt(mesh.vertices, mesh.triangles[t].b) == Some(r.value[t][1])
              && VertexAt(mesh.vertices, mesh.triangles[t].c) == Some(r.value[t][2])
  {
    var vs := mesh.vertices;
    var tris: seq<seq<P>> := [];
    for t := 0 to |mesh.triangles|
      invariant |tris| == t
      invariant forall u :: 0 <= u < t ==> CornersExist(vs, mesh.triangles[u])
      invariant forall u :: 0 <= u < t ==>
                  |tris[u]| == 4 && tris[u][3] == tris[u][0]
                  && VertexAt(vs, mesh.triangles[u].a) == Some(tris[u][0])
                  && VertexAt(vs, mesh.triangles[u].b) == Some(tris[u][1])
                  && VertexAt(vs, mesh.triangles[u].c) == Some(tris[u][2])
    {
      var tri := mesh.triangles[t];
      var pi, pj, pk := VertexAt(vs, tri.a), VertexAt(vs, tri.b), VertexAt(vs, tri.c);
      if pi.None? || pj.None? || pk.None? {
        return Err(IndexError("index out of bounds"));
      }
      tris := tris + [[pi.value, pj.value, pk.value, pi.value]];
    }
    r := Ok(tris);
  }
}
