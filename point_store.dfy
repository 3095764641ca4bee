/** The point store: a fixed-length array of (position, packed colour)
    records, a lazily allocated device buffer mirroring it, and the box
    segmentation pass that recolours points by containment. */
module PointStore {
  import opened ColorCodec

  /** Positions are only compared, never computed with, so exact reals
      stand in for single-precision floats. */
  datatype Vector3 = Vector3(x: real, y: real, z: real)

  datatype Point = Point(position: Vector3, color: Token)

  const FloatSize: nat := 4

  /** Byte size of a point element, sizeof(float) * 4. */
  const ElementSize: nat := FloatSize * 4

  const Origin := Vector3(0.0, 0.0, 0.0)

  /** The value of a freshly allocated, not yet written array slot. */
  const DefaultPoint := Point(Origin, 0)

  /** The two packed colours segmentation writes. */
  const WhiteToken: Token := 0x10FE_FEFE
  const MagentaToken: Token := 0x10FE_00FE

  /** The exceptions the C# code can raise on the paths modelled here:
      a null dereference, an array index out of range, and a list index out
      of range (ArgumentOutOfRangeException). */
  datatype Fault = NullReference | IndexOutOfRange | ArgumentOutOfRange

  datatype Result<T> = Ok(value: T) | Err(fault: Fault)

  /** The element size covers the layout of a point: three 4-byte floats
      for the position and one 4-byte unsigned colour, 16 bytes in all. */
  lemma ElementSizeMatchesLayout()
    ensures ElementSize == 3 * FloatSize + 4 == 16
  {
  }

  // ---------------------------------------------------------------------
  // Segmentation, as functions of the point sequence

  /** Strict containment in the box spanned by corner1 and corner2: points on
      a face are outside, and so is every point when corner1 == corner2. */
  predicate Inside(p: Vector3, corner1: Vector3, corner2: Vector3)
  {
    p.x > corner1.x && p.y > corner1.y && p.z > corner1.z &&
    p.x < corner2.x && p.y < corner2.y && p.z < corner2.z
  }

  /** One point after segmentation: its position kept, its colour magenta
      when it is inside the box and white otherwise, whatever it was. */
  function Recolored(p: Point, corner1: Vector3, corner2: Vector3): (q: Point)
    ensures q.position == p.position
    ensures q.color == MagentaToken <==> Inside(p.position, corner1, corner2)
    ensures q.color == WhiteToken <==> !Inside(p.position, corner1, corner2)
  {
    EncodeWhite();
    EncodeMagenta();
    Point(p.position,
          if Inside(p.position, corner1, corner2) then EncodeColor(Magenta32) else EncodeColor(White32))
  }

  function Segmented(ps: seq<Point>, corner1: Vector3, corner2: Vector3): seq<Point>
  {
    seq(|ps|, i requires 0 <= i < |ps| => Recolored(ps[i], corner1, corner2))
  }

  function Positions(ps: seq<Point>): seq<Vector3>
  {
    seq(|ps|, i requires 0 <= i < |ps| => ps[i].position)
  }

  /** The number of points strictly inside the box. */
  function CountInside(ps: seq<Point>, corner1: Vector3, corner2: Vector3): nat
  {
    if ps == [] then 0
    else (if Inside(ps[0].position, corner1, corner2) then 1 else 0) + CountInside(ps[1..], corner1, corner2)
  }

  /** The number of points carrying colour token t. */
  function CountColor(ps: seq<Point>, t: Token): nat
  {
    if ps == [] then 0
    else (if ps[0].color == t then 1 else 0) + CountColor(ps[1..], t)
  }

  lemma {:induction false} CountInsideAppend(ps: seq<Point>, p: Point, corner1: Vector3, corner2: Vector3)
    ensures CountInside(ps + [p], corner1, corner2)
         == CountInside(ps, corner1, corner2) + (if Inside(p.position, corner1, corner2) then 1 else 0)
  {
    if ps != [] {
      assert (ps + [p])[1..] == ps[1..] + [p];
      CountInsideAppend(ps[1..], p, corner1, corner2);
    }
  }

  lemma {:induction false} CountInsideAtMost(ps: seq<Point>, corner1: Vector3, corner2: Vector3)
    ensures CountInside(ps, corner1, corner2) <= |ps|
  {
    if ps != [] {
      CountInsideAtMost(ps[1..], corner1, corner2);
    }
  }

  /** Segmentation keeps the number of points and every position. */
  lemma SegmentedKeepsPositions(ps: seq<Point>, corner1: Vector3, corner2: Vector3)
    ensures |Segmented(ps, corner1, corner2)| == |ps|
    ensures Positions(Segmented(ps, corner1, corner2)) == Positions(ps)
  {
  }

  /** Each point ends up magenta exactly when it is strictly inside the box,
      and white exactly when it is not. */
  lemma SegmentedColors(ps: seq<Point>, corner1: Vector3, corner2: Vector3, i: int)
    requires 0 <= i < |ps|
    ensures Segmented(ps, corner1, corner2)[i].color == MagentaToken <==> Inside(ps[i].position, corner1, corner2)
    ensures Segmented(ps, corner1, corner2)[i].color == WhiteToken <==> !Inside(ps[i].position, corner1, corner2)
  {
  }

  /** Prior colours are irrelevant: the result depends on the positions only. */
  lemma SegmentedIgnoresColors(ps: seq<Point>, qs: seq<Point>, corner1: Vector3, corner2: Vector3)
    requires Positions(ps) == Positions(qs)
    ensures Segmented(ps, corner1, corner2) == Segmented(qs, corner1, corner2)
  {
    assert |ps| == |Positions(ps)| == |Positions(qs)| == |qs|;
    forall i | 0 <= i < |ps|
      ensures Segmented(ps, corner1, corner2)[i] == Segmented(qs, corner1, corner2)[i]
    {
      assert ps[i].position == Positions(ps)[i] == Positions(qs)[i] == qs[i].position;
    }
  }

  /** Running segmentation twice with the same box gives the same result. */
  lemma SegmentedIdempotent(ps: seq<Point>, corner1: Vector3, corner2: Vector3)
    ensures Segmented(Segmented(ps, corner1, corner2), corner1, corner2) == Segmented(ps, corner1, corner2)
  {
    SegmentedKeepsPositions(ps, corner1, corner2);
    SegmentedIgnoresColors(Segmented(ps, corner1, corner2), ps, corner1, corner2);
  }

  /** A second run with the same box counts the same points as the first. */
  lemma {:induction false} CountInsideSegmented(ps: seq<Point>, corner1: Vector3, corner2: Vector3)
    ensures CountInside(Segmented(ps, corner1, corner2), corner1, corner2) == CountInside(ps, corner1, corner2)
  {
    if ps != [] {
      assert Segmented(ps, corner1, corner2)[1..] == Segmented(ps[1..], corner1, corner2);
      CountInsideSegmented(ps[1..], corner1, corner2);
    }
  }

  /** With corner1 == corner2 (or any axis where corner1 is not below corner2)
      no point is inside: every point is white and the count is 0. */
  lemma {:induction false} EmptyBoxAllWhite(ps: seq<Point>, corner1: Vector3, corner2: Vector3)
    requires corner2.x <= corner1.x || corner2.y <= corner1.y || corner2.z <= corner1.z
    ensures CountInside(ps, corner1, corner2) == 0
    ensures forall i :: 0 <= i < |ps| ==> Segmented(ps, corner1, corner2)[i].color == WhiteToken
  {
    if ps != [] {
      EmptyBoxAllWhite(ps[1..], corner1, corner2);
    }
  }

  /** The inside count equals the number of magenta points afterwards. */
  lemma {:induction false} MagentaCountIsInsideCount(ps: seq<Point>, corner1: Vector3, corner2: Vector3)
    ensures CountColor(Segmented(ps, corner1, corner2), MagentaToken) == CountInside(ps, corner1, corner2)
  {
    if ps != [] {
      assert Segmented(ps, corner1, corner2)[1..] == Segmented(ps[1..], corner1, corner2);
      MagentaCountIsInsideCount(ps[1..], corner1, corner2);
    }
  }

  /** Four white points at (0,0,0), (2,2,2), (5,5,5), (10,10,10) and the box
      (1,1,1)-(6,6,6): exactly the middle two turn magenta. */
  lemma SegmentationExample()
    ensures var w := EncodeColor(White32);
            var ps := [Point(Vector3(0.0, 0.0, 0.0), w), Point(Vector3(2.0, 2.0, 2.0), w),
                       Point(Vector3(5.0, 5.0, 5.0), w), Point(Vector3(10.0, 10.0, 10.0), w)];
            var c1, c2 := Vector3(1.0, 1.0, 1.0), Vector3(6.0, 6.0, 6.0);
            && CountInside(ps, c1, c2) == 2
            && [Segmented(ps, c1, c2)[0].color, Segmented(ps, c1, c2)[1].color,
                Segmented(ps, c1, c2)[2].color, Segmented(ps, c1, c2)[3].color]
               == [WhiteToken, MagentaToken, MagentaToken, WhiteToken]
  {
    var w := EncodeColor(White32);
    var ps := [Point(Vector3(0.0, 0.0, 0.0), w), Point(Vector3(2.0, 2.0, 2.0), w),
               Point(Vector3(5.0, 5.0, 5.0), w), Point(Vector3(10.0, 10.0, 10.0), w)];
    var c1, c2 := Vector3(1.0, 1.0, 1.0), Vector3(6.0, 6.0, 6.0);
    assert ps[1..][1..][1..][1..] == [];
    assert CountInside(ps[3..], c1, c2) == 0;
    assert CountInside(ps[2..], c1, c2) == 1;
    assert CountInside(ps[1..], c1, c2) == 2;
  }

  /** With the box from the origin to (2,2,2), the origin lies on a face and
      stays white while (1,1,1) turns magenta, whatever the prior colours. */
  lemma TwoPointExample(ps: seq<Point>)
    requires |ps| == 2 && ps[0].position == Origin && ps[1].position == Vector3(1.0, 1.0, 1.0)
    ensures Segmented(ps, Origin, Vector3(2.0, 2.0, 2.0))
            == [Point(Origin, WhiteToken), Point(Vector3(1.0, 1.0, 1.0), MagentaToken)]
  {
  }

  // ---------------------------------------------------------------------
  // The running bounding box (min_max) of the segmentation loop. It never
  // leaves the loop; it is modelled on its own, as written and as intended.

  /** min_max[0..5]: max x, min x, max y, min y, max z, min z. */
  datatype Extrema = Extrema(maxX: real, minX: real, maxY: real, minY: real, maxZ: real, minZ: real)

  function ExtremaOf(p: Vector3): Extrema
  {
    Extrema(p.x, p.x, p.y, p.y, p.z, p.z)
  }

  /** One loop step as written: the y and z entries are guarded by
      comparisons of position.x against the running y and z extrema. */
  function ExtremaStepAsWritten(e: Extrema, p: Vector3): Extrema
  {
    Extrema(if p.x > e.maxX then p.x else e.maxX,
            if p.x < e.minX then p.x else e.minX,
            if p.x > e.maxY then p.y else e.maxY,
            if p.x < e.minY then p.y else e.minY,
            if p.x > e.maxZ then p.z else e.maxZ,
            if p.x < e.minZ then p.z else e.minZ)
  }

  /** One loop step as intended: every axis compared on its own coordinate. */
  function ExtremaStep(e: Extrema, p: Vector3): Extrema
  {
    Extrema(if p.x > e.maxX then p.x else e.maxX,
            if p.x < e.minX then p.x else e.minX,
            if p.y > e.maxY then p.y else e.maxY,
            if p.y < e.minY then p.y else e.minY,
            if p.z > e.maxZ then p.z else e.maxZ,
            if p.z < e.minZ then p.z else e.minZ)
  }

  function FoldExtrema(step: (Extrema, Vector3) -> Extrema, e: Extrema, ps: seq<Vector3>): Extrema
    decreases |ps|
  {
    if ps == [] then e else FoldExtrema(step, step(e, ps[0]), ps[1..])
  }

  /** min_max after the loop as written: seeded from point 0, then every
      point (point 0 included) fed through the step. */
  function TrackExtremaAsWritten(ps: seq<Vector3>): Extrema
    requires |ps| > 0
  {
    FoldExtrema(ExtremaStepAsWritten, ExtremaOf(ps[0]), ps)
  }

  function TrackExtrema(ps: seq<Vector3>): Extrema
    requires |ps| > 0
  {
    FoldExtrema(ExtremaStep, ExtremaOf(ps[0]), ps)
  }

  ghost predicate Bounds(e: Extrema, p: Vector3)
  {
    e.minX <= p.x <= e.maxX && e.minY <= p.y <= e.maxY && e.minZ <= p.z <= e.maxZ
  }

  ghost predicate Widens(r: Extrema, e: Extrema)
  {
    r.minX <= e.minX && e.maxX <= r.maxX && r.minY <= e.minY && e.maxY <= r.maxY &&
    r.minZ <= e.minZ && e.maxZ <= r.maxZ
  }

  /** Each of the six values of r is the seed's value or a coordinate of a point. */
  ghost predicate Attained(r: Extrema, e: Extrema, ps: seq<Vector3>)
  {
    && (r.maxX == e.maxX || exists p :: p in ps && p.x == r.maxX)
    && (r.minX == e.minX || exists p :: p in ps && p.x == r.minX)
    && (r.maxY == e.maxY || exists p :: p in ps && p.y == r.maxY)
    && (r.minY == e.minY || exists p :: p in ps && p.y == r.minY)
    && (r.maxZ == e.maxZ || exists p :: p in ps && p.z == r.maxZ)
    && (r.minZ == e.minZ || exists p :: p in ps && p.z == r.minZ)
  }

  lemma {:induction false} FoldExtremaBounds(e: Extrema, ps: seq<Vector3>)
    ensures Widens(FoldExtrema(ExtremaStep, e, ps), e)
    ensures forall p :: p in ps ==> Bounds(FoldExtrema(ExtremaStep, e, ps), p)
    ensures Attained(FoldExtrema(ExtremaStep, e, ps), e, ps)
    decreases |ps|
  {
    if ps != [] {
      var e' := ExtremaStep(e, ps[0]);
      FoldExtremaBounds(e', ps[1..]);
      assert forall p :: p in ps ==> p == ps[0] || p in ps[1..];
      assert forall p :: p in ps[1..] ==> p in ps;
    }
  }

  /** The six values are the true per-axis maxima and minima of ps: every
      point lies within them, and each is the coordinate of some point. */
  ghost predicate ExactExtrema(r: Extrema, ps: seq<Vector3>)
  {
    && (forall p :: p in ps ==> Bounds(r, p))
    && (exists p :: p in ps && p.x == r.maxX) && (exists p :: p in ps && p.x == r.minX)
    && (exists p :: p in ps && p.y == r.maxY) && (exists p :: p in ps && p.y == r.minY)
    && (exists p :: p in ps && p.z == r.maxZ) && (exists p :: p in ps && p.z == r.minZ)
  }

  /** As intended, the loop ends with the exact per-axis extrema. */
  lemma TrackExtremaExact(ps: seq<Vector3>)
    requires |ps| > 0
    ensures ExactExtrema(TrackExtrema(ps), ps)
  {
    FoldExtremaBounds(ExtremaOf(ps[0]), ps);
    assert ps[0] in ps;
  }

  /** As written, the y and z values can miss the points: for (0,0,0) then
      (-1,5,0), min y ends at 5, above the y of the first point. */
  lemma TrackExtremaAsWrittenMissesY()
    ensures var ps := [Vector3(0.0, 0.0, 0.0), Vector3(-1.0, 5.0, 0.0)];
            TrackExtremaAsWritten(ps).minY == 5.0 && !ExactExtrema(TrackExtremaAsWritten(ps), ps)
  {
    var ps := [Vector3(0.0, 0.0, 0.0), Vector3(-1.0, 5.0, 0.0)];
    assert !Bounds(TrackExtremaAsWritten(ps), ps[0]);
  }

  // ---------------------------------------------------------------------
  // The device buffer

  /** A device-resident buffer handle. Its element count and stride are fixed
      at allocation; its contents are whatever was last uploaded. */
  class ComputeBuffer {
    const count: nat
    const stride: nat
    var contents: seq<Point>
    var released: bool

    /** A new allocation holds nothing uploaded yet. */
    constructor (count: nat, stride: nat)
      ensures this.count == count && this.stride == stride
      ensures contents == [] && !released
    {
      this.count := count;
      this.stride := stride;
      contents := [];
      released := false;
    }

    method SetData(data: seq<Point>)
      modifies this
      ensures contents == data && released == old(released)
    {
      contents := data;
    }

    method Release()
      modifies this
      ensures released && contents == old(contents)
    {
      released := true;
    }
  }

  // ---------------------------------------------------------------------
  // The point store

  class PointCloudData {
    var pointData: array<Point>
    var pointBuffer: ComputeBuffer?

    ghost function Repr(): set<object?>
      reads this
    {
      {this, pointData, pointBuffer}
    }

    /** A buffer the store holds is live and laid out with the point stride. */
    ghost predicate Valid()
      reads this, pointBuffer
    {
      pointBuffer != null ==> pointBuffer.stride == ElementSize && !pointBuffer.released
    }

    /** A new store: no points, no buffer. */
    constructor ()
      ensures Valid() && fresh(pointData)
      ensures pointData.Length == 0 && pointBuffer == null
    {
      pointData := new Point[0];
      pointBuffer := null;
    }

    function PointCount(): nat
      reads this
    {
      pointData.Length
    }

    /** The computeBuffer getter: allocates and uploads on first use; later
        calls hand back the same handle without uploading again, so its
        contents may be stale. */
    method GetComputeBuffer() returns (buffer: ComputeBuffer)
      requires Valid()
      modifies this`pointBuffer
      ensures Valid() && pointBuffer == buffer
      ensures old(pointBuffer) != null ==> buffer == old(pointBuffer) && unchanged(buffer)
      ensures old(pointBuffer) == null ==>
                fresh(buffer) && buffer.count == PointCount() && buffer.stride == ElementSize &&
                buffer.contents == pointData[..]
    {
      if pointBuffer == null {
        pointBuffer := new ComputeBuffer(PointCount(), ElementSize);
        pointBuffer.SetData(pointData[..]);
      }
      buffer := pointBuffer;
    }

    /** The recomputeBuffer getter: uploads the current points into the
        existing buffer and hands it back. With no buffer it dereferences
        null. */
    method GetRecomputeBuffer() returns (r: Result<ComputeBuffer>)
      requires Valid()
      modifies pointBuffer
      ensures Valid() && pointBuffer == old(pointBuffer)
      ensures pointBuffer == null ==> r == Err(NullReference)
      ensures pointBuffer != null ==> r.Ok? && r.value == pointBuffer && pointBuffer.contents == pointData[..]
    {
      if pointBuffer == null {
        return Err(NullReference);
      }
      pointBuffer.SetData(pointData[..]);
      return Ok(pointBuffer);
    }

    /** recomputeBuffer as evidently intended: allocate first when there is
        no buffer, so the upload never dereferences null. */
    method GetRecomputeBufferOrAllocate() returns (buffer: ComputeBuffer)
      requires Valid()
      modifies this`pointBuffer, pointBuffer
      ensures Valid() && pointBuffer == buffer && buffer.contents == pointData[..]
      ensures old(pointBuffer) != null ==> buffer == old(pointBuffer)
      ensures old(pointBuffer) == null ==>
                fresh(buffer) && buffer.count == PointCount() && buffer.stride == ElementSize
    {
      if pointBuffer == null {
        pointBuffer := new ComputeBuffer(PointCount(), ElementSize);
      }
      pointBuffer.SetData(pointData[..]);
      buffer := pointBuffer;
    }

    /** Releases the buffer, if any, and forgets it; with none it does nothing. */
    method OnDisable()
      requires Valid()
      modifies this`pointBuffer, pointBuffer
      ensures Valid() && pointBuffer == null
      ensures old(pointBuffer) != null ==>
                old(pointBuffer).released && old(pointBuffer).contents == old(pointBuffer.contents)
    {
      if pointBuffer != null {
        pointBuffer.Release();
        pointBuffer := null;
      }
    }

    /** Builds the point array pairwise from the two lists. A colour list
        shorter than the position list makes colors[i] throw once i reaches
        its end; the new, partly written array is then already in place. The
        buffer is not touched. */
    method Initialize(positions: seq<Vector3>, colors: seq<Color32>) returns (r: Result<()>)
      requires Valid()
      modifies this`pointData
      ensures Valid() && fresh(pointData) && pointBuffer == old(pointBuffer)
      ensures PointCount() == |positions|
      ensures r == if |positions| <= |colors| then Ok(()) else Err(ArgumentOutOfRange)
      ensures forall i :: 0 <= i < |positions| ==>
                pointData[i] == if i < |colors| then Point(positions[i], EncodeColor(colors[i])) else DefaultPoint
    {
      var a := new Point[|positions|](_ => DefaultPoint);
      pointData := a;
      for i := 0 to a.Length
        invariant pointData == a && pointBuffer == old(pointBuffer)
        invariant i == 0 || i <= |colors|
        invariant forall k :: 0 <= k < i ==> k < |colors| && a[k] == Point(positions[k], EncodeColor(colors[k]))
        invariant forall k :: i <= k < a.Length ==> a[k] == DefaultPoint
      {
        if i >= |colors| {
          return Err(ArgumentOutOfRange);
        }
        a[i] := Point(positions[i], EncodeColor(colors[i]));
      }
      return Ok(());
    }

    /** Resets every point to white, turns the points strictly inside the box
        magenta and counts them (count_red), then makes sure a buffer exists
        without uploading to it. An empty store throws on pointData[0] before
        anything changes. */
    method SegmentPointCloud(corner1: Vector3, corner2: Vector3) returns (r: Result<nat>)
      requires Valid()
      modifies this`pointBuffer, pointData
      ensures Valid() && pointData == old(pointData)
      ensures old(PointCount()) == 0 ==> r == Err(IndexOutOfRange) && pointBuffer == old(pointBuffer)
      ensures old(PointCount()) > 0 ==>
                && r == Ok(CountInside(old(pointData[..]), corner1, corner2))
                && pointData[..] == Segmented(old(pointData[..]), corner1, corner2)
                && pointBuffer != null
      ensures old(pointBuffer) != null ==> pointBuffer == old(pointBuffer) && unchanged(pointBuffer)
      ensures old(pointBuffer) == null && old(PointCount()) > 0 ==>
                fresh(pointBuffer) && pointBuffer.count == PointCount() &&
                pointBuffer.stride == ElementSize && pointBuffer.contents == []
    {
      if pointData.Length == 0 {
        return Err(IndexOutOfRange);
      }
      var a := pointData;
      ghost var before := a[..];
      var countRed := 0;
      EncodeWhite();
      EncodeMagenta();
      for i := 0 to a.Length
        invariant pointData == a && pointBuffer == old(pointBuffer)
        invariant forall k :: 0 <= k < i ==> a[k] == Recolored(before[k], corner1, corner2)
        invariant forall k :: i <= k < a.Length ==> a[k] == before[k]
        invariant countRed == CountInside(before[..i], corner1, corner2)
      {
        a[i] := a[i].(color := EncodeColor(White32));
        if Inside(a[i].position, corner1, corner2) {
          countRed := countRed + 1;
          a[i] := a[i].(color := EncodeColor(Magenta32));
        }
        assert a[i] == Recolored(before[i], corner1, corner2);
        assert before[..i + 1] == before[..i] + [before[i]];
        CountInsideAppend(before[..i], before[i], corner1, corner2);
      }
      assert before[..a.Length] == before;
      assert a[..] == Segmented(before, corner1, corner2);
      if pointBuffer == null {
        pointBuffer := new ComputeBuffer(PointCount(), ElementSize);
      }
      return Ok(countRed);
    }
  }

  /** A client of the buffer cache: two acquisitions share one allocation;
      after OnDisable the old handle is released and the next acquisition
      allocates a new buffer holding the current points. */
  method AcquireReleaseAcquire(positions: seq<Vector3>, colors: seq<Color32>)
    returns (first: ComputeBuffer, second: ComputeBuffer, third: ComputeBuffer)
    ensures first == second && first.released
    ensures third != first && !third.released && third.count == |positions|
  {
    var data := new PointCloudData();
    var _ := data.Initialize(positions, colors);
    first := data.GetComputeBuffer();
    second := data.GetComputeBuffer();
    data.OnDisable();
    third := data.GetComputeBuffer();
  }
}
