/** The renderer's decision logic: when to re-segment the point store, which
    buffer to draw from and which draw style to use. Materials, shaders and
    draw calls are host-engine work and are not modelled; a pass that draws
    is reported by its style and its element count. */
module Rendering {
  import opened ColorCodec
  import opened PointStore

  /** Raw point primitives, or disks of the given size. */
  datatype DrawStyle = PointStyle | DiskStyle(size: real)

  /** What one render pass does: return early, draw, or throw. */
  datatype RenderOutcome = Skipped | Drew(style: DrawStyle, count: nat) | Threw(fault: Fault)

  /** Point primitives exactly when the point size is 0. */
  function StyleFor(pointSize: real): (s: DrawStyle)
    ensures s.PointStyle? <==> pointSize == 0.0
    ensures s.DiskStyle? ==> s.size == pointSize
  {
    if pointSize == 0.0 then PointStyle else DiskStyle(pointSize)
  }

  class PointCloudRenderer {
    var sourceData: PointCloudData?
    /** An externally given buffer, or the one ChangeBoundingBox picked. */
    var sourceBuffer: ComputeBuffer?
    var pointSize: real
    var corner1: Vector3
    var corner2: Vector3
    var newSegment: bool

    ghost function DataRepr(): set<object?>
      reads this, sourceData
    {
      if sourceData == null then {} else sourceData.Repr()
    }

    ghost predicate Valid()
      reads this, DataRepr()
    {
      sourceData != null ==> sourceData.Valid()
    }

    /** The serialized defaults: point size 0.05, both corners at the origin,
        no external buffer, and new_segment set. */
    constructor (data: PointCloudData?)
      requires data != null ==> data.Valid()
      ensures Valid() && sourceData == data && sourceBuffer == null
      ensures pointSize == 0.05 && corner1 == Origin && corner2 == Origin && newSegment
    {
      sourceData := data;
      sourceBuffer := null;
      pointSize := 0.05;
      corner1 := Origin;
      corner2 := Origin;
      newSegment := true;
    }

    /** Clamps the point size to be non-negative; when the corners differ,
        segments the source data and sets new_segment. */
    method OnValidate() returns (r: Result<()>)
      requires Valid()
      modifies this`pointSize, this`newSegment, DataRepr()
      ensures Valid()
      ensures pointSize == if old(pointSize) < 0.0 then 0.0 else old(pointSize)
      ensures corner1 == corner2 ==>
                r == Ok(()) && newSegment == old(newSegment) &&
                (sourceData != null ==>
                   && unchanged(sourceData) && unchanged(sourceData.pointData)
                   && (sourceData.pointBuffer != null ==> unchanged(sourceData.pointBuffer)))
      ensures corner1 != corner2 && sourceData == null ==>
                r == Err(NullReference) && newSegment == old(newSegment)
      ensures corner1 != corner2 && sourceData != null && old(sourceData.PointCount()) == 0 ==>
                r == Err(IndexOutOfRange) && newSegment == old(newSegment)
      ensures corner1 != corner2 && sourceData != null && old(sourceData.PointCount()) > 0 ==>
                && r == Ok(())
                && newSegment
                && sourceData.pointData == old(sourceData.pointData)
                && sourceData.pointData[..] == Segmented(old(sourceData.pointData[..]), corner1, corner2)
                && sourceData.pointBuffer != null
                && (old(sourceData.pointBuffer) != null ==> sourceData.pointBuffer == old(sourceData.pointBuffer))
                && (old(sourceData.pointBuffer) == null ==>
                      && fresh(sourceData.pointBuffer) && sourceData.pointBuffer.count == sourceData.PointCount()
                      && sourceData.pointBuffer.contents == [])
      ensures corner1 != corner2 && sourceData != null && old(sourceData.PointCount()) == 0 ==>
                unchanged(sourceData)
      ensures corner1 != corner2 && sourceData != null && old(sourceData.pointBuffer) != null ==>
                unchanged(old(sourceData.pointBuffer))
    {
      pointSize := if pointSize < 0.0 then 0.0 else pointSize;
      if corner1 != corner2 {
        if sourceData == null {
          return Err(NullReference);
        }
        var segmented := sourceData.SegmentPointCloud(corner1, corner2);
        if segmented.Err? {
          return Err(segmented.fault);
        }
        newSegment := true;
      }
      return Ok(());
    }

    /** One step of the box animation: both corners move by 100 along x and
        y, the source data is segmented with the moved box, its buffer becomes
        the external buffer and new_segment is set. */
    method ChangeBoundingBoxStep() returns (r: Result<()>)
      requires Valid()
      modifies this`corner1, this`corner2, this`sourceBuffer, this`newSegment, DataRepr()
      ensures Valid()
      ensures corner1 == Vector3(old(corner1.x) + 100.0, old(corner1.y) + 100.0, old(corner1.z))
      ensures corner2 == Vector3(old(corner2.x) + 100.0, old(corner2.y) + 100.0, old(corner2.z))
      ensures sourceData == null ==>
                r == Err(NullReference) && sourceBuffer == old(sourceBuffer) && newSegment == old(newSegment)
      ensures sourceData != null && old(sourceData.PointCount()) == 0 ==>
                r == Err(IndexOutOfRange) && sourceBuffer == old(sourceBuffer) && newSegment == old(newSegment)
      ensures sourceData != null && old(sourceData.PointCount()) > 0 ==>
                && r == Ok(())
                && newSegment
                && sourceData.pointData == old(sourceData.pointData)
                && sourceData.pointData[..] == Segmented(old(sourceData.pointData[..]), corner1, corner2)
                && sourceBuffer != null && sourceBuffer == sourceData.pointBuffer
                && (old(sourceData.pointBuffer) != null ==> sourceBuffer == old(sourceData.pointBuffer))
      ensures sourceData != null && old(sourceData.PointCount()) == 0 ==> unchanged(sourceData)
      ensures sourceData != null && old(sourceData.pointBuffer) != null ==> unchanged(old(sourceData.pointBuffer))
      ensures sourceData != null && old(sourceData.PointCount()) > 0 && old(sourceData.pointBuffer) == null ==>
                fresh(sourceBuffer) && sourceBuffer.count == sourceData.PointCount() && sourceBuffer.contents == []
    {
      corner1 := Vector3(corner1.x + 100.0, corner1.y + 100.0, corner1.z);
      corner2 := Vector3(corner2.x + 100.0, corner2.y + 100.0, corner2.z);
      if sourceData == null {
        return Err(NullReference);
      }
      var segmented := sourceData.SegmentPointCloud(corner1, corner2);
      if segmented.Err? {
        return Err(segmented.fault);
      }
      sourceBuffer := sourceData.GetComputeBuffer();
      newSegment := true;
      return Ok(());
    }

    /** One render pass. cameraAccepts stands for the camera's layer-mask and
        name checks. With new_segment set the pass draws from the source
        data's re-uploaded buffer, which throws when the data or its buffer is
        missing; otherwise from the external buffer when there is one, and
        from the source data's lazily allocated buffer when not. A pass that
        draws clears new_segment. */
    method OnRenderObject(cameraAccepts: bool) returns (outcome: RenderOutcome)
      requires Valid()
      modifies this`newSegment, DataRepr()
      ensures Valid()
      ensures sourceData != null ==>
                sourceData.pointData == old(sourceData.pointData) && unchanged(sourceData.pointData)
      ensures (old(sourceData) == null && sourceBuffer == null) || !cameraAccepts ==>
                outcome == Skipped && newSegment == old(newSegment) &&
                (sourceData != null ==>
                   unchanged(sourceData) && (sourceData.pointBuffer != null ==> unchanged(sourceData.pointBuffer)))
      ensures outcome.Threw? ==> newSegment == old(newSegment) && (sourceData != null ==> unchanged(sourceData))
      ensures outcome.Drew? ==> !newSegment && outcome.style == StyleFor(pointSize)
      ensures (sourceData != null || sourceBuffer != null) && cameraAccepts && old(newSegment) ==>
                if sourceData == null || old(sourceData.pointBuffer) == null then
                  outcome == Threw(NullReference)
                else
                  && sourceData.pointBuffer == old(sourceData.pointBuffer)
                  && sourceData.pointBuffer.contents == sourceData.pointData[..]
                  && outcome == Drew(StyleFor(pointSize), sourceData.pointBuffer.count)
      ensures sourceBuffer != null && cameraAccepts && !old(newSegment) ==>
                outcome == Drew(StyleFor(pointSize), sourceBuffer.count) &&
                (sourceData != null ==>
                   unchanged(sourceData) && (sourceData.pointBuffer != null ==> unchanged(sourceData.pointBuffer)))
      ensures sourceData != null && sourceBuffer == null && cameraAccepts && !old(newSegment) ==>
                && sourceData.pointBuffer != null
                && outcome == Drew(StyleFor(pointSize), sourceData.pointBuffer.count)
                && (old(sourceData.pointBuffer) != null ==>
                      sourceData.pointBuffer == old(sourceData.pointBuffer) && unchanged(sourceData.pointBuffer))
                && (old(sourceData.pointBuffer) == null ==>
                      fresh(sourceData.pointBuffer) && sourceData.pointBuffer.count == sourceData.PointCount() &&
                      sourceData.pointBuffer.contents == sourceData.pointData[..])
    {
      if sourceData == null && sourceBuffer == null {
        return Skipped;
      }
      if !cameraAccepts {
        return Skipped;
      }
      var buffer: ComputeBuffer;
      if newSegment {
        if sourceData == null {
          return Threw(NullReference);
        }
        var fetched := sourceData.GetRecomputeBuffer();
        if fetched.Err? {
          return Threw(fetched.fault);
        }
        buffer := fetched.value;
      } else if sourceBuffer != null {
        buffer := sourceBuffer;
      } else {
        buffer := sourceData.GetComputeBuffer();
      }
      outcome := Drew(StyleFor(pointSize), buffer.count);
      newSegment := false;
    }
  }

  /** With the default, equal corners OnValidate does not segment, so no
      buffer is allocated while new_segment is still set: the first render
      pass dereferences the missing buffer, and since a failed pass changes
      nothing, so does every pass after it. */
  method FirstRenderWithEqualCorners() returns (first: RenderOutcome, second: RenderOutcome)
    ensures first == Threw(NullReference) && second == Threw(NullReference)
  {
    var data := new PointCloudData();
    var _ := data.Initialize([Origin], [White32]);
    var renderer := new PointCloudRenderer(data);
    var _ := renderer.OnValidate();
    first := renderer.OnRenderObject(true);
    second := renderer.OnRenderObject(true);
  }

  /** With distinct corners OnValidate segments and allocates, and the first
      render pass uploads the segmented points and draws all of them. */
  method FirstRenderAfterSegmenting() returns (outcome: RenderOutcome, uploaded: seq<Point>)
    ensures outcome == Drew(DiskStyle(0.05), 2)
    ensures uploaded == [Point(Origin, WhiteToken), Point(Vector3(1.0, 1.0, 1.0), MagentaToken)]
  {
    var data := new PointCloudData();
    var inner := Vector3(1.0, 1.0, 1.0);
    var _ := data.Initialize([Origin, inner], [White32, White32]);
    ghost var initial := data.pointData[..];
    var renderer := new PointCloudRenderer(data);
    renderer.corner2 := Vector3(2.0, 2.0, 2.0);
    var _ := renderer.OnValidate();
    TwoPointExample(initial);
    ghost var segmented := data.pointData[..];
    outcome := renderer.OnRenderObject(true);
    assert data.pointData[..] == segmented;
    uploaded := data.pointBuffer.contents;
  }
}
