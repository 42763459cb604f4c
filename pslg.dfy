/** The pieces both PSLG assemblers share: Python-style outcomes, boundary
    segments and the way one closed loop of points is numbered, the three
    lists a planar straight-line graph is built in, the input record handed
    to the Triangle library, and a reader for Triangle's switch string. */
module PslgCore {

  datatype Option<T> = None | Some(value: T)

  /** The Python exceptions raised along the modelled paths, with their messages. */
  datatype Error =
    | TypeError(msg: string)
    | ValueError(msg: string)
    | RuntimeError(msg: string)
    | KeyError(key: string)
    | IndexError(msg: string)

  datatype Result<T> = Ok(value: T) | Err(error: Error)

  /** A boundary segment: two indices into the vertex list. */
  datatype Segment = Segment(first: int, second: int)

  /** A triangle of a mesh: three indices into its vertex list. */
  datatype Triangle = Triangle(a: int, b: int, c: int)

  /** Every index of every segment lies in `[lo, hi)`. */
  ghost predicate IndicesIn(segs: seq<Segment>, lo: int, hi: int) {
    forall i :: 0 <= i < |segs| ==> lo <= segs[i].first < hi && lo <= segs[i].second < hi
  }

  /** The segments of the first `k` points of a closed loop of `n` points
      whose first point has vertex index `start`: point i is joined to point
      i + 1, and the last point back to the first. */
  function LoopPrefixSegments(start: nat, k: nat, n: nat): (segs: seq<Segment>)
    requires k <= n
    ensures |segs| == k
  {
    if k == 0 then []
    else LoopPrefixSegments(start, k - 1, n) + [Segment(start + k - 1, if k < n then start + k else start)]
  }

  /** The segments of a whole closed loop of `n` points numbered from `start`. */
  function LoopSegments(start: nat, n: nat): (segs: seq<Segment>)
    ensures |segs| == n
  {
    LoopPrefixSegments(start, n, n)
  }

  lemma {:induction false} LoopPrefixSegmentsAt(start: nat, k: nat, n: nat, i: nat)
    requires i < k <= n
    ensures LoopPrefixSegments(start, k, n)[i] == Segment(start + i, if i + 1 < n then start + i + 1 else start)
  {
    if i < k - 1 {
      LoopPrefixSegmentsAt(start, k - 1, n, i);
    }
  }

  /** A closed loop of `n` points numbered from `start` has one segment per
      point; consecutive points are joined, the last point is joined back to
      the first (the wrap-around edge), and every index lies in
      `[start, start + n)`. */
  lemma LoopSegmentsShape(start: nat, n: nat)
    ensures |LoopSegments(start, n)| == n
    ensures IndicesIn(LoopSegments(start, n), start, start + n)
    ensures forall i :: 0 <= i < n - 1 ==> LoopSegments(start, n)[i] == Segment(start + i, start + i + 1)
    ensures n > 0 ==> LoopSegments(start, n)[n - 1] == Segment(start + n - 1, start)
  {
    forall i | 0 <= i < n
      ensures LoopSegments(start, n)[i] == Segment(start + i, if i + 1 < n then start + i + 1 else start)
    {
      LoopPrefixSegmentsAt(start, n, n, i);
    }
  }

  /** The vertex list of several loops laid one after another. */
  function LoopsVertices<P>(loops: seq<seq<P>>): seq<P>
  {
    if loops == [] then [] else loops[0] + LoopsVertices(loops[1..])
  }

  /** The segments of several loops laid one after another, the first point
      of the first loop having index `start`: each loop is numbered from where
      the previous one ended, so there is one segment per vertex. */
  function LoopsSegments<P>(start: nat, loops: seq<seq<P>>): (segs: seq<Segment>)
    ensures |segs| == |LoopsVertices(loops)|
    decreases |loops|
  {
    if loops == [] then []
    else LoopSegments(start, |loops[0]|) + LoopsSegments(start + |loops[0]|, loops[1..])
  }

  /** Every segment of a loop list numbered from `start` joins two of the
      vertices the loops contributed. */
  lemma {:induction false} LoopsSegmentsWithin<P>(start: nat, loops: seq<seq<P>>)
    ensures IndicesIn(LoopsSegments(start, loops), start, start + |LoopsVertices(loops)|)
    decreases |loops|
  {
    if loops != [] {
      var first := LoopSegments(start, |loops[0]|);
      var rest := LoopsSegments(start + |loops[0]|, loops[1..]);
      LoopsSegmentsWithin(start + |loops[0]|, loops[1..]);
      LoopSegmentsShape(start, |loops[0]|);
      var all := LoopsSegments(start, loops);
      assert all == first + rest;
      forall i | 0 <= i < |all|
        ensures start <= all[i].first < start + |LoopsVertices(loops)|
        ensures start <= all[i].second < start + |LoopsVertices(loops)|
      {
        if i < |first| {
          assert all[i] == first[i];
        } else {
          assert all[i] == rest[i - |first|];
        }
      }
    }
  }

  lemma ConcatAssoc<T>(x: seq<T>, y: seq<T>, z: seq<T>)
    ensures (x + y) + z == x + (y + z)
  {
  }

  /** The points of loops `a` then `b` are those of `a` followed by those of `b`. */
  lemma {:induction false} LoopsVerticesAppend<P>(a: seq<seq<P>>, b: seq<seq<P>>)
    ensures LoopsVertices(a + b) == LoopsVertices(a) + LoopsVertices(b)
    decreases |a|
  {
    if a == [] {
      assert a + b == b;
    } else {
      assert (a + b)[0] == a[0] && (a + b)[1..] == a[1..] + b;
      LoopsVerticesAppend(a[1..], b);
      ConcatAssoc(a[0], LoopsVertices(a[1..]), LoopsVertices(b));
    }
  }

  /** Numbering loops `a` then `b` from `start` is numbering `a` from `start`
      and then `b` from where `a` ended. */
  lemma {:induction false} LoopsSegmentsAppend<P>(start: nat, a: seq<seq<P>>, b: seq<seq<P>>)
    ensures LoopsSegments(start, a + b)
         == LoopsSegments(start, a) + LoopsSegments(start + |LoopsVertices(a)|, b)
    decreases |a|
  {
    if a == [] {
      assert a + b == b;
    } else {
      var next := start + |a[0]|;
      assert (a + b)[0] == a[0] && (a + b)[1..] == a[1..] + b;
      LoopsSegmentsAppend(next, a[1..], b);
      ConcatAssoc(LoopSegments(start, |a[0]|), LoopsSegments(next, a[1..]),
                  LoopsSegments(next + |LoopsVertices(a[1..])|, b));
    }
  }

  /** Appending one loop appends its points. */
  lemma LoopsVerticesSnoc<P>(init: seq<seq<P>>, last: seq<P>)
    ensures LoopsVertices(init + [last]) == LoopsVertices(init) + last
  {
    LoopsVerticesAppend(init, [last]);
    assert [last][1..] == [];
  }

  /** Appending one loop numbers it after the others. */
  lemma LoopsSegmentsSnoc<P>(start: nat, init: seq<seq<P>>, last: seq<P>)
    ensures LoopsSegments(start, init + [last])
         == LoopsSegments(start, init) + LoopSegments(start + |LoopsVertices(init)|, |last|)
  {
    LoopsSegmentsAppend(start, init, [last]);
    assert [last][1..] == [];
  }

  /** A loop list contributes no vertex exactly when each of its loops is empty. */
  lemma {:induction false} LoopsVerticesEmpty<P>(loops: seq<seq<P>>)
    ensures LoopsVertices(loops) == [] <==> forall i :: 0 <= i < |loops| ==> loops[i] == []
    decreases |loops|
  {
    if loops != [] {
      LoopsVerticesEmpty(loops[1..]);
      assert forall i :: 1 <= i < |loops| ==> loops[1..][i - 1] == loops[i];
    }
  }

  /** The dictionary handed to the triangulator: the "holes" entry is present
      only when at least one hole seed exists. */
  datatype TriangleInput<P> = TriangleInput(vertices: seq<P>, segments: seq<Segment>, holes: Option<seq<P>>)

  /** What the triangulator returns; a missing dictionary entry is None. */
  datatype TriangleOutput<P> = TriangleOutput(vertices: Option<seq<P>>, triangles: Option<seq<Triangle>>)

  function InputOf<P>(vertices: seq<P>, segments: seq<Segment>, seeds: seq<P>): (a: TriangleInput<P>)
    ensures a.vertices == vertices && a.segments == segments
    ensures a.holes.Some? <==> seeds != []
    ensures a.holes.Some? ==> a.holes.value == seeds
  {
    TriangleInput(vertices, segments, if seeds == [] then None else Some(seeds))
  }

  /** The vertex after position `i` of an `n`-point loop, counted around. */
  lemma NextAround(i: nat, n: nat)
    requires i < n
    ensures (i + 1) % n == if i + 1 < n then i + 1 else 0
  {
  }

  /** Appending a loop keeps one segment per vertex and every segment
      joining two existing vertices. */
  lemma LoopKeepsIndices<P>(vs: seq<P>, segs: seq<Segment>, pts: seq<P>)
    requires |segs| == |vs| && IndicesIn(segs, 0, |vs|)
    ensures |segs + LoopSegments(|vs|, |pts|)| == |vs + pts|
    ensures IndicesIn(segs + LoopSegments(|vs|, |pts|), 0, |vs + pts|)
  {
    var added := LoopSegments(|vs|, |pts|);
    LoopSegmentsShape(|vs|, |pts|);
    var all := segs + added;
    forall i | 0 <= i < |all|
      ensures 0 <= all[i].first < |vs + pts| && 0 <= all[i].second < |vs + pts|
    {
      if i >= |segs| {
        assert all[i] == added[i - |segs|];
      }
    }
  }

  /** The vertex, segment and hole-seed lists while a PSLG is being assembled.
      Both assemblers only ever append to them. */
  class PslgBuilder<P> {
    var vertices: seq<P>
    var segments: seq<Segment>
    var holes: seq<P>

    /** What appending whole loops to initially empty lists keeps true: one
        segment per vertex, and every segment joins two existing vertices. */
    ghost predicate Valid()
      reads this
    {
      |segments| == |vertices| && IndicesIn(segments, 0, |vertices|)
    }

    constructor ()
      ensures Valid()
      ensures vertices == [] && segments == [] && holes == []
    {
      vertices, segments, holes := [], [], [];
    }

    /** Appends the `n` points of a closed loop as new vertices and one segment
        per point, the last one wrapping around to the loop's first vertex.
        Existing vertices and segments are left as they were. */
    method AddLoop(pts: seq<P>)
      modifies this`vertices, this`segments
      ensures vertices == old(vertices) + pts
      ensures segments == old(segments) + LoopSegments(|old(vertices)|, |pts|)
      ensures old(Valid()) ==> Valid()
    {
      var start := |vertices|;
      vertices := vertices + pts;
      var n := |pts|;
      for i := 0 to n
        invariant vertices == old(vertices) + pts
        invariant segments == old(segments) + LoopPrefixSegments(start, i, n)
      {
        NextAround(i, n);
        segments := segments + [Segment(start + i, start + (i + 1) % n)];
      }
      if old(Valid()) {
        LoopKeepsIndices(old(vertices), old(segments), pts);
      }
    }

    /** The triangulator input the three lists make up: the vertices and
        segments as they are, and a "holes" entry only when a seed exists. */
    function Input(): (a: TriangleInput<P>)
      reads this
      ensures a.vertices == vertices && a.segments == segments
      ensures a.holes.Some? <==> holes != []
      ensures a.holes.Some? ==> a.holes.value == holes
    {
      InputOf(vertices, segments, holes)
    }
  }

  /** The switches a Triangle switch string selects. */
  datatype Switches = Switches(polygon: bool, quality: bool, area: Option<string>, quiet: bool)

  /** A character Triangle reads as part of a number after a switch letter:
      a decimal digit or the decimal point. There is no exponent; in a switch
      string `e` is a switch letter of its own. */
  predicate NumeralChar(c: char) {
    '0' <= c <= '9' || c == '.'
  }

  predicate IsNumeral(s: string) {
    forall i :: 0 <= i < |s| ==> NumeralChar(s[i])
  }

  /** The length of the longest numeral that starts `s`. */
  function NumeralRun(s: string): (n: nat)
    ensures n <= |s| && IsNumeral(s[..n])
    ensures n < |s| ==> !NumeralChar(s[n])
  {
    if s == [] || !NumeralChar(s[0]) then 0
    else
      var n := 1 + NumeralRun(s[1..]);
      assert s[..n] == [s[0]] + s[1..][..n - 1];
      n
  }

  /** Reads a switch string one letter at a time: `p` (triangulate a PSLG),
      `q` (quality refinement), `a` followed by a numeral (maximum triangle
      area) and `Q` (quiet); any other letter makes the string unreadable. */
  function ReadSwitchesFrom(s: string, acc: Switches): Option<Switches>
    decreases |s|
  {
    if s == [] then Some(acc)
    else if s[0] == 'p' then ReadSwitchesFrom(s[1..], acc.(polygon := true))
    else if s[0] == 'q' then ReadSwitchesFrom(s[1..], acc.(quality := true))
    else if s[0] == 'Q' then ReadSwitchesFrom(s[1..], acc.(quiet := true))
    else if s[0] == 'a' then
      var n := NumeralRun(s[1..]);
      ReadSwitchesFrom(s[1 + n..], acc.(area := Some(s[1..1 + n])))
    else None
  }

  function ReadSwitches(s: string): Option<Switches>
  {
    ReadSwitchesFrom(s, Switches(false, false, None, false))
  }

  /** Reading one of the letters `p`, `q`, `Q` sets its switch and reads on. */
  lemma ReadFlag(c: char, rest: string, acc: Switches)
    requires c == 'p' || c == 'q' || c == 'Q'
    ensures ReadSwitchesFrom([c] + rest, acc)
         == ReadSwitchesFrom(rest, if c == 'p' then acc.(polygon := true)
                                   else if c == 'q' then acc.(quality := true)
                                   else acc.(quiet := true))
  {
  }

  /** A numeral followed by nothing or by a non-numeral character is read whole. */
  lemma {:induction false} NumeralRunOf(t: string, rest: string)
    requires IsNumeral(t)
    requires rest == [] || !NumeralChar(rest[0])
    ensures NumeralRun(t + rest) == |t|
    decreases |t|
  {
    if t != [] {
      assert (t + rest)[1..] == t[1..] + rest;
      NumeralRunOf(t[1..], rest);
    }
  }

  /** Reading `a<t>` followed by `rest` records area `t` and reads on from `rest`. */
  lemma ReadAreaSwitch(t: string, rest: string, acc: Switches)
    requires IsNumeral(t)
    requires rest == [] || !NumeralChar(rest[0])
    ensures ReadSwitchesFrom("a" + t + rest, acc) == ReadSwitchesFrom(rest, acc.(area := Some(t)))
  {
    var s := "a" + t + rest;
    assert s == ['a'] + (t + rest);
    assert s[1..] == t + rest;
    NumeralRunOf(t, rest);
    assert s[1..1 + |t|] == t;
    assert s[1 + |t|..] == rest;
  }
}
