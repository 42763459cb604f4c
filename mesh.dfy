/** The standalone `Mesh` class of mesh.py: a domain made of an outer polygon
    or circle and optional polygon or circle holes is validated, turned into
    a PSLG (closed loops of vertices with wrap-around segments and one seed
    per hole) and handed to the Triangle library with the switches
    `p[a<area>]q`. */
module StandaloneMesh {
  import opened PslgCore

  /** One domain primitive, a dictionary in the source: its "type", and the
      "points", "center", "radius" and "segments" entries, each absent (None)
      or present. */
  datatype Primitive<P> = Primitive(
    kind: Option<string>,
    points: Option<seq<P>>,
    center: Option<P>,
    radius: Option<real>,
    segments: Option<int>)

  /** The domain dictionary: its "outer" and "holes" entries. */
  datatype DomainSpec<P> = DomainSpec(outer: Option<Primitive<P>>, holes: Option<seq<Primitive<P>>>)

  /** The numpy operations on coordinates the class uses and does not define:
      `np.allclose` on two points, the mean of a list of points, and the point
      at angle 2*pi*k/n on the circle of a given centre and radius. */
  datatype Numerics<!P> = Numerics(
    allClose: (P, P) -> bool,
    mean: seq<P> -> P,
    circlePoint: (P, real, nat, nat) -> P)

  const DefaultSegments := 64
  const MissingOuterMessage := "spec must contain an 'outer' domain"
  const OuterTypeMessage := "spec['outer']['type'] must be 'polygon' or 'circle'"
  const OuterTooFewMessage := "Polygon outer boundary needs at least 3 points"
  const HoleTooFewMessage := "Polygon hole needs at least 3 points"

  // ---------------------------------------------------------------------
  // The constructor's validation
  // ---------------------------------------------------------------------

  predicate IsPolygonOrCircle(kind: Option<string>) {
    kind == Some("polygon") || kind == Some("circle")
  }

  /** What `Mesh.__init__` keeps of a domain dictionary, the outer primitive
      and the holes (an empty list when "holes" is absent), or the ValueError
      it raises. */
  function CheckSpec<P>(spec: DomainSpec<P>): (r: Result<(Primitive<P>, seq<Primitive<P>>)>)
    ensures spec.outer.None? ==> r == Err(ValueError(MissingOuterMessage))
    ensures (spec.outer.Some? && !IsPolygonOrCircle(spec.outer.value.kind))
              ==> r == Err(ValueError(OuterTypeMessage))
    ensures r.Ok? <==> spec.outer.Some? && IsPolygonOrCircle(spec.outer.value.kind)
    ensures r.Ok? ==> r.value.0 == spec.outer.value
    ensures r.Ok? && spec.holes.None? ==> r.value.1 == []
    ensures r.Ok? && spec.holes.Some? ==> r.value.1 == spec.holes.value
  {
    if spec.outer.None? then Err(ValueError(MissingOuterMessage))
    else if !IsPolygonOrCircle(spec.outer.value.kind) then Err(ValueError(OuterTypeMessage))
    else Ok((spec.outer.value, if spec.holes.Some? then spec.holes.value else []))
  }

  // ---------------------------------------------------------------------
  // Loops and seeds of the primitives
  // ---------------------------------------------------------------------

  /** `_discretize_circle`: `segments` points spaced evenly round the circle,
      starting at angle 0 and stopping short of 2*pi, so the first point is
      not repeated at the end; numpy's `linspace` rejects a negative count. */
  function DiscretizeCircle<P>(center: P, r: real, segments: int, nums: Numerics<P>): (pts: Result<seq<P>>)
    ensures pts.Err? <==> segments < 0
    ensures pts.Err? ==> pts.error.ValueError?
    ensures pts.Ok? ==> |pts.value| == segments
    ensures pts.Ok? ==> forall k :: 0 <= k < |pts.value| ==> pts.value[k] == nums.circlePoint(center, r, k, segments)
  {
    if segments < 0 then Err(ValueError("Number of samples must be non-negative."))
    else Ok(seq(segments, k requires 0 <= k < segments => nums.circlePoint(center, r, k, segments)))
  }

  /** The loop of a polygon given by at least three points: when the last
      point is not close to the first, the first is appended, and then the
      last point is dropped. The loop is thus the given points when they do
      not close up, and otherwise the points without the last one; either way
      it is a prefix of the points with at least two of them. */
  function PolygonLoop<P>(pts: seq<P>, nums: Numerics<P>): (loop: seq<P>)
    requires |pts| >= 3
    ensures !nums.allClose(pts[0], pts[|pts| - 1]) ==> loop == pts
    ensures nums.allClose(pts[0], pts[|pts| - 1]) ==> loop + [pts[|pts| - 1]] == pts
    ensures loop <= pts && |loop| >= |pts| - 1 >= 2
    ensures loop[0] == pts[0]
  {
    var closed := if nums.allClose(pts[0], pts[|pts| - 1]) then pts else pts + [pts[0]];
    assert closed == pts ==> closed[..|closed| - 1] + [pts[|pts| - 1]] == pts;
    assert closed != pts ==> closed[..|closed| - 1] == pts;
    closed[..|closed| - 1]
  }

  /** The segment count of a circle primitive: the "segments" entry, 64 when absent. */
  function SegmentCount<P>(prim: Primitive<P>): int {
    if prim.segments.Some? then prim.segments.value else DefaultSegments
  }

  /** The loop of a circle primitive, or the KeyError for a missing "center"
      or "radius" entry, or the error of the discretisation. */
  function CircleLoop<P>(prim: Primitive<P>, nums: Numerics<P>): (r: Result<seq<P>>)
    ensures r.Err? <==> prim.center.None? || prim.radius.None? || SegmentCount(prim) < 0
    ensures prim.center.None? ==> r == Err(KeyError("center"))
    ensures (prim.center.Some? && prim.radius.None?) ==> r == Err(KeyError("radius"))
    ensures r.Ok? ==> |r.value| == SegmentCount(prim)
  {
    if prim.center.None? then Err(KeyError("center"))
    else if prim.radius.None? then Err(KeyError("radius"))
    else DiscretizeCircle(prim.center.value, prim.radius.value, SegmentCount(prim), nums)
  }

  /** The loop of the outer boundary: a polygon needs a "points" entry of at
      least three points; anything else is read as a circle. */
  function OuterLoop<P>(outer: Primitive<P>, nums: Numerics<P>): (r: Result<seq<P>>)
    ensures outer.kind == Some("polygon") ==> (r.Err? <==> outer.points.None? || |outer.points.value| < 3)
    ensures (outer.kind == Some("polygon") && outer.points.Some? && |outer.points.value| < 3)
              ==> r == Err(ValueError(OuterTooFewMessage))
    ensures (outer.kind == Some("polygon") && r.Ok?) ==> r.value == PolygonLoop(outer.points.value, nums)
    ensures (outer.kind.Some? && outer.kind != Some("polygon")) ==> r == CircleLoop(outer, nums)
  {
    if outer.kind.None? then Err(KeyError("type"))
    else if outer.kind == Some("polygon") then
      if outer.points.None? then Err(KeyError("points"))
      else if |outer.points.value| < 3 then Err(ValueError(OuterTooFewMessage))
      else Ok(PolygonLoop(outer.points.value, nums))
    else CircleLoop(outer, nums)
  }

  /** What one hole contributes: its loop and its seed point. */
  datatype HoleParts<P> = HoleParts(loop: seq<P>, seed: P)

  /** The text of a hole type as an f-string shows it. */
  function KindText(kind: Option<string>): string {
    if kind.Some? then kind.value else "None"
  }

  /** The loop and seed of one hole: for a polygon of at least three points,
      its loop and the mean of the loop's points; for a circle, its loop and
      its centre; any other type is a ValueError naming the type. */
  function HoleOf<P>(hole: Primitive<P>, nums: Numerics<P>): (r: Result<HoleParts<P>>)
    ensures !IsPolygonOrCircle(hole.kind) ==> r == Err(ValueError("Unknown hole type " + KindText(hole.kind)))
    ensures hole.kind == Some("polygon") ==> (r.Err? <==> hole.points.None? || |hole.points.value| < 3)
    ensures (hole.kind == Some("polygon") && hole.points.Some? && |hole.points.value| < 3)
              ==> r == Err(ValueError(HoleTooFewMessage))
    ensures (hole.kind == Some("polygon") && r.Ok?)
              ==> r.value.loop == PolygonLoop(hole.points.value, nums) && r.value.seed == nums.mean(r.value.loop)
    ensures hole.kind == Some("circle") ==> (r.Err? <==> CircleLoop(hole, nums).Err?)
    ensures (hole.kind == Some("circle") && r.Ok?)
              ==> r.value.loop == CircleLoop(hole, nums).value && r.value.seed == hole.center.value
  {
    if hole.kind == Some("polygon") then
      if hole.points.None? then Err(KeyError("points"))
      else if |hole.points.value| < 3 then Err(ValueError(HoleTooFewMessage))
      else
        var loop := PolygonLoop(hole.points.value, nums);
        Ok(HoleParts(loop, nums.mean(loop)))
    else if hole.kind == Some("circle") then
      match CircleLoop(hole, nums)
      case Err(e) => Err(e)
      case Ok(loop) => Ok(HoleParts(loop, hole.center.value))
    else Err(ValueError("Unknown hole type " + KindText(hole.kind)))
  }

  /** The loops and seeds of the holes, in order, or the error of the first
      hole that has one. */
  function HolesOf<P>(holes: seq<Primitive<P>>, nums: Numerics<P>): (r: Result<seq<HoleParts<P>>>)
    ensures r.Ok? ==> |r.value| == |holes|
  {
    if holes == [] then Ok([])
    else
      match HolesOf(holes[..|holes| - 1], nums)
      case Err(e) => Err(e)
      case Ok(parts) =>
        match HoleOf(holes[|holes| - 1], nums)
        case Err(e) => Err(e)
        case Ok(last) => Ok(parts + [last])
  }

  function PartsLoops<P>(parts: seq<HoleParts<P>>): (loops: seq<seq<P>>)
    ensures |loops| == |parts|
  {
    if parts == [] then [] else PartsLoops(parts[..|parts| - 1]) + [parts[|parts| - 1].loop]
  }

  function PartsSeeds<P>(parts: seq<HoleParts<P>>): (seeds: seq<P>)
    ensures |seeds| == |parts|
  {
    if parts == [] then [] else PartsSeeds(parts[..|parts| - 1]) + [parts[|parts| - 1].seed]
  }

  /** The triangulator input `generate` assembles: the outer loop first, then
      the hole loops in order, numbered consecutively, with a "holes" entry
      when there is at least one seed; or the error raised on the way. */
  function DomainPslg<P>(outer: Primitive<P>, holes: seq<Primitive<P>>, nums: Numerics<P>): (r: Result<TriangleInput<P>>)
    ensures r.Err? <==> OuterLoop(outer, nums).Err? || HolesOf(holes, nums).Err?
    ensures OuterLoop(outer, nums).Err? ==> r == Err(OuterLoop(outer, nums).error)
    ensures (OuterLoop(outer, nums).Ok? && HolesOf(holes, nums).Err?) ==> r == Err(HolesOf(holes, nums).error)
    ensures r.Ok? ==> |r.value.segments| == |r.value.vertices|
  {
    match OuterLoop(outer, nums)
    case Err(e) => Err(e)
    case Ok(ol) =>
      match HolesOf(holes, nums)
      case Err(e) => Err(e)
      case Ok(parts) =>
        var loops := [ol] + PartsLoops(parts);
        Ok(InputOf(LoopsVertices(loops), LoopsSegments(0, loops), PartsSeeds(parts)))
  }

  // ---------------------------------------------------------------------
  // Properties of the specification
  // ---------------------------------------------------------------------

  /** The holes are processed in order and the first one that fails decides
      the error: the list is accepted exactly when every hole is, and
      otherwise the error is that of the first failing hole. */
  lemma {:induction false} HolesOfFirstError<P>(holes: seq<Primitive<P>>, nums: Numerics<P>)
    ensures HolesOf(holes, nums).Ok? <==> forall j :: 0 <= j < |holes| ==> HoleOf(holes[j], nums).Ok?
    ensures HolesOf(holes, nums).Err? ==>
              exists j :: 0 <= j < |holes| && HoleOf(holes[j], nums).Err?
                          && HolesOf(holes, nums).error == HoleOf(holes[j], nums).error
                          && forall k :: 0 <= k < j ==> HoleOf(holes[k], nums).Ok?
    decreases |holes|
  {
    if holes != [] {
      var init := holes[..|holes| - 1];
      HolesOfFirstError(init, nums);
      assert forall j :: 0 <= j < |init| ==> init[j] == holes[j];
      if HolesOf(init, nums).Err? {
        var j :| 0 <= j < |init| && HoleOf(init[j], nums).Err?
                 && HolesOf(init, nums).error == HoleOf(init[j], nums).error
                 && forall k :: 0 <= k < j ==> HoleOf(init[k], nums).Ok?;
        assert HoleOf(holes[j], nums).Err?;
      } else if HoleOf(holes[|holes| - 1], nums).Err? {
        assert HoleOf(holes[|init|], nums).Err?;
      }
    }
  }

  /** Each accepted hole contributes its own loop and seed, in order. */
  lemma {:induction false} HolesOfParts<P>(holes: seq<Primitive<P>>, nums: Numerics<P>)
    requires HolesOf(holes, nums).Ok?
    ensures forall j :: 0 <= j < |holes| ==> HoleOf(holes[j], nums) == Ok(HolesOf(holes, nums).value[j])
    decreases |holes|
  {
    if holes != [] {
      var init := holes[..|holes| - 1];
      HolesOfParts(init, nums);
      assert forall j :: 0 <= j < |init| ==> init[j] == holes[j];
    }
  }

  /** What `generate` hands to Triangle on success: one segment per vertex,
      every segment joining two existing vertices, one seed per hole, and a
      "holes" entry exactly when the domain has holes. */
  lemma DomainPslgShape<P>(outer: Primitive<P>, holes: seq<Primitive<P>>, nums: Numerics<P>)
    requires DomainPslg(outer, holes, nums).Ok?
    ensures var a := DomainPslg(outer, holes, nums).value;
            |a.segments| == |a.vertices|
            && IndicesIn(a.segments, 0, |a.vertices|)
            && (a.holes.Some? <==> holes != [])
            && (a.holes.Some? ==> |a.holes.value| == |holes|)
  {
    var loops := [OuterLoop(outer, nums).value] + PartsLoops(HolesOf(holes, nums).value);
    LoopsSegmentsWithin(0, loops);
  }

  /** The outer loop's points come first, with indices from 0. */
  lemma DomainPslgOuterFirst<P>(outer: Primitive<P>, holes: seq<Primitive<P>>, nums: Numerics<P>)
    requires DomainPslg(outer, holes, nums).Ok?
    ensures var a := DomainPslg(outer, holes, nums).value;
            var ol := OuterLoop(outer, nums).value;
            ol <= a.vertices && LoopSegments(0, |ol|) <= a.segments
  {
  }

  /** A four-point square outer boundary with one 64-segment circular hole
      gives 68 vertices, 68 segments and one seed, the circle's centre. */
  lemma SquareWithCircleHole<P>(square: seq<P>, center: P, r: real, nums: Numerics<P>)
    requires |square| == 4 && !nums.allClose(square[0], square[3])
    ensures var outer := Primitive(Some("polygon"), Some(square), None, None, None);
            var hole := Primitive(Some("circle"), None, Some(center), Some(r), Some(64));
            var a := DomainPslg(outer, [hole], nums);
            a.Ok? && |a.value.vertices| == 68 && |a.value.segments| == 68 && a.value.holes == Some([center])
  {
    var outer := Primitive(Some("polygon"), Some(square), None, None, None);
    var hole := Primitive(Some("circle"), None, Some(center), Some(r), Some(64));
    var circle := CircleLoop(hole, nums).value;
    assert |circle| == 64;
    assert HoleOf(hole, nums) == Ok(HoleParts(circle, center));
    assert [hole][..0] == [];
    var parts := [HoleParts(circle, center)];
    assert [] + parts == parts;
    assert HolesOf([hole], nums) == Ok(parts);
    assert parts[..0] == [];
    assert PartsLoops(parts) == [circle];
    assert PartsSeeds(parts) == [center];
    LoopsVerticesAppend([square], [circle]);
    assert [square][..0] == [] && [circle][..0] == [];
  }

  // ---------------------------------------------------------------------
  // Triangle switches
  // ---------------------------------------------------------------------

  /** The switch string of `generate`: `p`, then `a` and the maximum area
      when one is given, then always `q`. */
  function MeshSwitches(maxArea: Option<real>, formatReal: real -> string): (opts: string)
    ensures |opts| == 2 + if maxArea.Some? then 1 + |formatReal(maxArea.value)| else 0
    ensures opts[0] == 'p' && opts[|opts| - 1] == 'q'
    ensures maxArea.Some? <==> opts[1] == 'a'
    ensures maxArea.Some? ==> opts[2..|opts| - 1] == formatReal(maxArea.value)
  {
    "p" + (if maxArea.Some? then "a" + formatReal(maxArea.value) else "") + "q"
  }

  /** Reading the switch string back: polygon and quality switches set, the
      area exactly as given, quiet off. */
  lemma MeshSwitchesRoundTrip(maxArea: Option<real>, formatReal: real -> string)
    requires maxArea.Some? ==> IsNumeral(formatReal(maxArea.value))
    ensures ReadSwitches(MeshSwitches(maxArea, formatReal))
         == Some(Switches(true, true, if maxArea.Some? then Some(formatReal(maxArea.value)) else None, false))
  {
    var s0 := Switches(false, false, None, false);
    var s1 := s0.(polygon := true);
    var area := if maxArea.Some? then Some(formatReal(maxArea.value)) else None;
    var a := if maxArea.Some? then "a" + formatReal(maxArea.value) else "";
    assert MeshSwitches(maxArea, formatReal) == "p" + (a + "q");
    ReadFlag('p', a + "q", s1.(polygon := false));
    if maxArea.Some? {
      ReadAreaSwitch(formatReal(maxArea.value), "q", s1);
      assert a + "q" == "a" + formatReal(maxArea.value) + "q";
    } else {
      assert a + "q" == "q";
    }
    ReadFlag('q', [], s1.(area := area));
    assert "q" == ['q'] + [];
  }

  /** The switch string as `generate` assembles it, one option at a time. */
  method BuildMeshSwitches(maxArea: Option<real>, formatReal: real -> string) returns (opts: string)
    ensures opts == MeshSwitches(maxArea, formatReal)
  {
    opts := "p";
    if maxArea.Some? {
      opts := opts + "a" + formatReal(maxArea.value);
    }
    opts := opts + "q";
  }

  // ---------------------------------------------------------------------
  // The assembly loop
  // ---------------------------------------------------------------------

  /** The three lists after the outer loop `ol` and the first `i` holes were
      appended to empty lists. */
  ghost predicate HolesAppended<P>(ol: seq<P>, holes: seq<Primitive<P>>, i: nat, nums: Numerics<P>,
                                   vs: seq<P>, ss: seq<Segment>, hs: seq<P>)
    requires i <= |holes|
  {
    var parts := HolesOf(holes[..i], nums);
    parts.Ok?
    && (var loops := [ol] + PartsLoops(parts.value);
        vs == LoopsVertices(loops) && ss == LoopsSegments(0, loops) && hs == PartsSeeds(parts.value))
  }

  /** After the outer loop, no hole has been appended yet. */
  lemma HolesAppendedStart<P>(ol: seq<P>, holes: seq<Primitive<P>>, nums: Numerics<P>)
    ensures HolesAppended(ol, holes, 0, nums, ol, LoopSegments(0, |ol|), [])
  {
  }

  /** One more hole adds its loop and its seed at the end. */
  lemma PartsSnoc<P>(parts: seq<HoleParts<P>>, h: HoleParts<P>)
    ensures PartsLoops(parts + [h]) == PartsLoops(parts) + [h.loop]
    ensures PartsSeeds(parts + [h]) == PartsSeeds(parts) + [h.seed]
  {
  }

  /** An accepted hole after accepted ones extends the accepted list. */
  lemma HolesOfSnoc<P>(holes: seq<Primitive<P>>, i: nat, nums: Numerics<P>, h: HoleParts<P>)
    requires i < |holes| && HoleOf(holes[i], nums) == Ok(h) && HolesOf(holes[..i], nums).Ok?
    ensures HolesOf(holes[..i + 1], nums) == Ok(HolesOf(holes[..i], nums).value + [h])
  {
    assert holes[..i + 1][..i] == holes[..i];
  }

  /** Appending hole `i`'s seed and loop extends the lists to `i + 1` holes. */
  lemma HolesAppendedStep<P>(ol: seq<P>, holes: seq<Primitive<P>>, i: nat, nums: Numerics<P>,
                             vs: seq<P>, ss: seq<Segment>, hs: seq<P>, h: HoleParts<P>)
    requires i < |holes| && HoleOf(holes[i], nums) == Ok(h)
    requires HolesAppended(ol, holes, i, nums, vs, ss, hs)
    ensures HolesAppended(ol, holes, i + 1, nums, vs + h.loop, ss + LoopSegments(|vs|, |h.loop|), hs + [h.seed])
  {
    var parts := HolesOf(holes[..i], nums).value;
    HolesOfSnoc(holes, i, nums, h);
    PartsSnoc(parts, h);
    var done := [ol] + PartsLoops(parts);
    assert [ol] + PartsLoops(parts + [h]) == done + [h.loop];
    LoopsVerticesSnoc(done, h.loop);
    LoopsSegmentsSnoc(0, done, h.loop);
  }

  /** A hole that fails after accepted ones makes the whole list fail with its error. */
  lemma HolesFailAt<P>(holes: seq<Primitive<P>>, i: nat, nums: Numerics<P>)
    requires i < |holes| && HolesOf(holes[..i], nums).Ok? && HoleOf(holes[i], nums).Err?
    ensures HolesOf(holes, nums) == Err(HoleOf(holes[i], nums).error)
  {
    var prefix := holes[..i + 1];
    assert prefix[..i] == holes[..i];
    HolesOfPrefixError(holes, i + 1, nums);
  }

  /** Once a prefix of the holes fails, the whole list fails with the same error. */
  lemma {:induction false} HolesOfPrefixError<P>(holes: seq<Primitive<P>>, i: nat, nums: Numerics<P>)
    requires i <= |holes|
    requires HolesOf(holes[..i], nums).Err?
    ensures HolesOf(holes, nums) == HolesOf(holes[..i], nums)
    decreases |holes| - i
  {
    if i < |holes| {
      var prefix := holes[..i + 1];
      assert prefix[..i] == holes[..i];
      HolesOfPrefixError(holes, i + 1, nums);
    } else {
      assert holes[..i] == holes;
    }
  }

  /** One pass of the holes loop: the seed is appended, then the loop. */
  method AddHole<P>(b: PslgBuilder<P>, h: HoleParts<P>)
    modifies b
    ensures b.vertices == old(b.vertices) + h.loop
    ensures b.segments == old(b.segments) + LoopSegments(|old(b.vertices)|, |h.loop|)
    ensures b.holes == old(b.holes) + [h.seed]
    ensures old(b.Valid()) ==> b.Valid()
  {
    b.holes := b.holes + [h.seed];
    b.AddLoop(h.loop);
  }

  // ---------------------------------------------------------------------
  // The class
  // ---------------------------------------------------------------------

  /** `triangle.triangulate`: the input record and the switch string to the
      returned dictionary, whose "vertices" and "triangles" entries may be absent. */
  type Triangulator<!P> = (TriangleInput<P>, string) -> TriangleOutput<P>

  class Mesh<P> {
    const outer: Primitive<P>
    const holes: seq<Primitive<P>>
    var points: seq<P>
    var triangles: seq<Triangle>

    /** `Mesh.__init__` on a domain `CheckSpec` accepts; the mesh starts empty. */
    constructor (spec: DomainSpec<P>)
      requires CheckSpec(spec).Ok?
      ensures outer == CheckSpec(spec).value.0 && holes == CheckSpec(spec).value.1
      ensures points == [] && triangles == []
    {
      var checked := CheckSpec(spec).value;
      outer, holes := checked.0, checked.1;
      points, triangles := [], [];
    }

    /** The PSLG part of `generate`: the outer loop, then each hole's seed and
        loop, appended to three local lists; any error is raised before the
        mesh is touched. */
    method AssemblePslg(nums: Numerics<P>) returns (r: Result<TriangleInput<P>>)
      ensures r == DomainPslg(outer, holes, nums)
    {
      var b := new PslgBuilder<P>();
      var o := OuterLoop(outer, nums);
      if o.Err? {
        return Err(o.error);
      }
      var ol := o.value;
      b.AddLoop(ol);
      HolesAppendedStart(ol, holes, nums);
      for i := 0 to |holes|
        invariant HolesAppended(ol, holes, i, nums, b.vertices, b.segments, b.holes)
      {
        var h := HoleOf(holes[i], nums);
        if h.Err? {
          HolesFailAt(holes, i, nums);
          return Err(h.error);
        }
        HolesAppendedStep(ol, holes, i, nums, b.vertices, b.segments, b.holes, h.value);
        AddHole(b, h.value);
      }
      assert holes[..|holes|] == holes;
      r := Ok(b.Input());
    }

    /** `Mesh.generate`: assembles the PSLG, calls Triangle once with the
        switches `p[a<area>]q`, then stores the returned vertices and
        triangles in the mesh and returns them. A missing "vertices" or
        "triangles" entry is a KeyError; the vertices are stored before the
        triangles are looked up. */
    method Generate(maxArea: Option<real> := None, nums: Numerics<P>, formatReal: real -> string,
                    triangulate: Triangulator<P>)
      returns (r: Result<(seq<P>, seq<Triangle>)>)
      modifies this`points, this`triangles
      ensures DomainPslg(outer, holes, nums).Err? ==>
                r == Err(DomainPslg(outer, holes, nums).error)
                && points == old(points) && triangles == old(triangles)
      ensures DomainPslg(outer, holes, nums).Ok? ==>
                var out := triangulate(DomainPslg(outer, holes, nums).value, MeshSwitches(maxArea, formatReal));
                (out.vertices.None? ==>
                   r == Err(KeyError("vertices")) && points == old(points) && triangles == old(triangles))
                && (out.vertices.Some? && out.triangles.None? ==>
                      r == Err(KeyError("triangles")) && points == out.vertices.value && triangles == old(triangles))
                && (out.vertices.Some? && out.triangles.Some? ==>
                      r == Ok((out.vertices.value, out.triangles.value))
                      && points == out.vertices.value && triangles == out.triangles.value)
    {
      var a := AssemblePslg(nums);
      if a.Err? {
        return Err(a.error);
      }
      var opts := BuildMeshSwitches(maxArea, formatReal);
      var tri := triangulate(a.value, opts);
      if tri.vertices.None? {
        return Err(KeyError("vertices"));
      }
      points := tri.vertices.value;
      if tri.triangles.None? {
        return Err(KeyError("triangles"));
      }
      triangles := tri.triangles.value;
      r := Ok((points, triangles));
    }
  }

  /** `Mesh(spec)` as a caller sees it: the ValueError of the validation, or
      a new, empty mesh over the checked outer primitive and holes. */
  method NewMesh<P>(spec: DomainSpec<P>) returns (r: Result<Mesh<P>>)
    ensures r.Ok? <==> CheckSpec(spec).Ok?
    ensures r.Err? ==> r.error == CheckSpec(spec).error
    ensures r.Ok? ==> fresh(r.value)
                      && r.value.outer == CheckSpec(spec).value.0
                      && r.value.holes == CheckSpec(spec).value.1
                      && r.value.points == [] && r.value.triangles == []
  {
    var checked := CheckSpec(spec);
    if checked.Err? {
      return Err(checked.error);
    }
    var m := new Mesh(spec);
    r := Ok(m);
  }
}
