# Pcx point store, segmentation and renderer decisions, in Dafny

This project models the point-cloud container of the Pcx importer/renderer for
Unity, as extended with box segmentation, and the decision logic of its renderer.

- **ColorCodec** (`color.dfy`) models `EncodeColor`. The packer turns a colour
  into a 32-bit token: three 8-bit channel fields and a shared brightness byte
  in the top byte. This is an RGBM-style encoding with a maximum brightness of 16.
  Every caller passes a `Color32`, so a channel is `byte/255`. Under exact
  arithmetic the packer then becomes integer arithmetic on the bytes:
  - `y = clamp(ceil(max/16), 1, 255)`
  - `channel = byte*255 div 16y`
  - `token = r | g<<8 | b<<16 | y<<24`

  A decoder, the inverse of the packer (channel = field·y·16/65025), is
  modelled, and the round-trip error bound is proved.
- **PointStore** (`point_store.dfy`) models the `PointCloudData` class:
  - the `Point` record and the 16-byte element size;
  - `Initialize`, which builds the array pairwise from positions and colours;
  - `SegmentPointCloud`, an in-place pass that resets every point to white,
    turns the points strictly inside the box magenta and counts them;
  - the lazily allocated device buffer: the `computeBuffer` and
    `recomputeBuffer` getters and `OnDisable`.

  The device buffer is a small class. Its handle identity is object identity,
  and a new allocation is a `fresh` object. Segmentation is also given as
  functions of the point sequence (`Segmented`, `CountInside`). The method is
  proved equal to these functions, and the lemmas about them state what the
  pass guarantees.
- **Rendering** (`renderer.dfy`) models `PointCloudRenderer` as a class with
  these fields: the source data, the external buffer, the point size, the two
  corners and `new_segment`. It covers:
  - `OnValidate`;
  - one step of `ChangeBoundingBox`;
  - the buffer choice, draw style and draw count of `OnRenderObject`.

The C# exceptions on these paths are modelled as `Err`/`Threw` results, not as
preconditions:
- a null dereference in `recomputeBuffer`;
- a list index out of range (`ArgumentOutOfRangeException`) in `Initialize` when the colour list is short;
- an index out of range in `SegmentPointCloud` on an empty store.

The model follows the code as written, including these behaviours a reader
might not expect:
- `recomputeBuffer` does not allocate when no buffer exists. It dereferences
  null.
- `Initialize` accepts a colour list longer than the position list. It throws
  only when the colour list is shorter, and it leaves the partly written new
  array in place.
- The device buffer's count does not always equal the point count. `Initialize`
  replaces the array but keeps an existing buffer.
- The running bounding box of the segmentation loop compares `position.x` for
  all three axes. See Findings.

## Model

| member | source | states |
|---|---|---|
| `ColorCodec.CeilDiv` | Assets/Pcx/Runtime/PointCloudData.cs:84 | the result is the exact ceiling of n/d: the least q with d*q >= n |
| `ColorCodec.Brightness` | Assets/Pcx/Runtime/PointCloudData.cs:81-84 | the brightness byte lies in [1,16]; it is the least such value whose 16-fold covers the brightest channel, and it is 1 for black |
| `ColorCodec.ScaleChannel` | Assets/Pcx/Runtime/PointCloudData.cs:86-91 | a scaled and truncated channel fits in a byte (so it is at most 255); 16y*s <= 255v < 16y*(s+1), i.e. s is the truncation of byte*255/(16y) |
| `ColorCodec.UnpackPack` | Assets/Pcx/Runtime/PointCloudData.cs:89-92 | the four fields never overlap: unpacking the bytes of a packed token returns exactly (r, g, b, y) |
| `ColorCodec.EncodeColor` | Assets/Pcx/Runtime/PointCloudData.cs:79-93 | the top byte of the token is the brightness, in [1,16] and never 0; each low byte is exactly the scaled channel |
| `ColorCodec.AlphaIgnored` | Assets/Pcx/Runtime/PointCloudData.cs:79-92 | alpha is never read: changing it does not change the token |
| `ColorCodec.DecodeEncode` | Assets/Pcx/Runtime/PointCloudData.cs:79-92 | decoding an encoded colour gives back every channel v/255 with an error that is non-negative and below 16y/65025, so at most 256/65025 |
| `ColorCodec.EncodeWhite` | Assets/Pcx/Runtime/PointCloudData.cs:125 | the baseline white Color32(255,255,255,255) encodes to 0x10FEFEFE |
| `ColorCodec.EncodeMagenta` | Assets/Pcx/Runtime/PointCloudData.cs:159 | the highlight Color32(255,0,255,255) encodes to 0x10FE00FE |
| `ColorCodec.EncodeBlack` | Assets/Pcx/Runtime/PointCloudData.cs:84 | black encodes to 1<<24, because the brightness is clamped up to 1 |
| `PointStore.ElementSizeMatchesLayout` | Assets/Pcx/Runtime/PointCloudData.cs:16 | the element size, sizeof(float)*4, is 16 bytes: three 4-byte floats and one 4-byte uint |
| `PointStore.Recolored` | Assets/Pcx/Runtime/PointCloudData.cs:125-160 | a segmented point keeps its position; its colour is magenta iff it is strictly inside the box, and white iff not |
| `PointStore.CountInsideAppend` | Assets/Pcx/Runtime/PointCloudData.cs:151-158 | the inside count of a prefix grows by one exactly when the next point is inside (the loop's count_red step) |
| `PointStore.CountInsideAtMost` | Assets/Pcx/Runtime/PointCloudData.cs:119 | count_red never exceeds the number of points |
| `PointStore.SegmentedKeepsPositions` | Assets/Pcx/Runtime/PointCloudData.cs:123-160 | segmentation keeps the number of points and every position |
| `PointStore.SegmentedColors` | Assets/Pcx/Runtime/PointCloudData.cs:151-160 | after segmentation point i is magenta iff corner1 < position < corner2 strictly on all three axes, and white otherwise |
| `PointStore.SegmentedIgnoresColors` | Assets/Pcx/Runtime/PointCloudData.cs:125 | prior colours are irrelevant: two point sequences with the same positions segment to the same result |
| `PointStore.SegmentedIdempotent` | Assets/Pcx/Runtime/PointCloudData.cs:123-160 | segmenting twice with the same box gives the same result as segmenting once |
| `PointStore.CountInsideSegmented` | Assets/Pcx/Runtime/PointCloudData.cs:151-158 | a second run with the same box counts the same number of inside points (count_red) as the first |
| `PointStore.EmptyBoxAllWhite` | Assets/Pcx/Runtime/PointCloudData.cs:151-156 | when corner1 == corner2, or corner2 is not above corner1 on some axis, no point is inside: the count is 0 and every point is white |
| `PointStore.MagentaCountIsInsideCount` | Assets/Pcx/Runtime/PointCloudData.cs:151-159 | the number of magenta points after segmentation equals the inside count, count_red |
| `PointStore.SegmentationExample` | Assets/Pcx/Runtime/PointCloudData.cs:123-160 | points (0,0,0), (2,2,2), (5,5,5), (10,10,10) with the box (1,1,1)-(6,6,6): exactly the middle two turn magenta, and the count is 2 |
| `PointStore.TwoPointExample` | Assets/Pcx/Runtime/PointCloudData.cs:151-160 | with the box from the origin to (2,2,2), the origin (on a face) stays white and (1,1,1) turns magenta |
| `PointStore.FoldExtremaBounds` | Assets/Pcx/Runtime/PointCloudData.cs:126-149 | with per-axis comparisons, the running box only widens; it bounds every point seen; each value is the seed's value or a coordinate of a point |
| `PointStore.TrackExtremaExact` | Assets/Pcx/Runtime/PointCloudData.cs:110-149 | with per-axis comparisons, the six values end as the exact per-axis maxima and minima: every point is within them and each is attained |
| `PointStore.TrackExtremaAsWrittenMissesY` | Assets/Pcx/Runtime/PointCloudData.cs:134-149 | as written, for (0,0,0) then (-1,5,0) the tracked min y ends at 5, so the six values are not the extrema of the points |
| `PointStore.PointCloudData.GetComputeBuffer` | Assets/Pcx/Runtime/PointCloudData.cs:24-33 | with no buffer it allocates a fresh one of pointCount elements of 16 bytes, holding the points; with a buffer it returns that same handle, unchanged and not re-uploaded |
| `PointStore.PointCloudData.GetRecomputeBuffer` | Assets/Pcx/Runtime/PointCloudData.cs:36-43 | with a buffer it keeps the handle, uploads the current points into it and returns it; with none it throws a null dereference |
| `PointStore.PointCloudData.GetRecomputeBufferOrAllocate` | Assets/Pcx/Runtime/PointCloudData.cs:36-43 | corrected getter: it never faults; afterwards a buffer exists (the same handle if there was one, a fresh pointCount-element one if not) holding the current points |
| `PointStore.PointCloudData.OnDisable` | Assets/Pcx/Runtime/PointCloudData.cs:51-58 | afterwards no buffer is held; a held buffer is released; with none it does nothing |
| `PointStore.PointCloudData.Initialize` | Assets/Pcx/Runtime/PointCloudData.cs:95-106 | a fresh array of length \|positions\| holding point i = (positions[i], EncodeColor(colors[i])); a short colour list throws a list index out of range, leaving the slots it did not reach at the default point; the buffer is not touched |
| `PointStore.PointCloudData.SegmentPointCloud` | Assets/Pcx/Runtime/PointCloudData.cs:108-172 | an empty store throws index out of range; otherwise the same array now holds Segmented(old points), the result is count_red = CountInside(old points), and a buffer exists: the existing one untouched, or a fresh pointCount-element one with nothing uploaded |
| `PointStore.AcquireReleaseAcquire` | Assets/Pcx/Runtime/PointCloudData.cs:24-58 | two acquisitions share one handle; after OnDisable that handle is released, and the next acquisition allocates a different, live buffer of pointCount elements |
| `Rendering.StyleFor` | Assets/Pcx/Runtime/PointCloudRenderer.cs:160-189 | the point style exactly when the point size is 0, else the disk style carrying the size |
| `Rendering.PointCloudRenderer.constructor` | Assets/Pcx/Runtime/PointCloudRenderer.cs:15-74 | the defaults: point size 0.05, both corners at the origin, no external buffer, new_segment set |
| `Rendering.PointCloudRenderer.OnValidate` | Assets/Pcx/Runtime/PointCloudRenderer.cs:80-92 | point size := max(0, point size); with equal corners nothing else changes, the data, its array and its buffer included; with distinct corners the data is segmented and new_segment set (a null data reference or an empty store throws, and then new_segment is unchanged; on an empty store the data object is unchanged too); nothing is uploaded: an existing buffer keeps its object state, contents included, and a buffer allocated by the call has the point count as its count and empty contents |
| `Rendering.PointCloudRenderer.ChangeBoundingBoxStep` | Assets/Pcx/Runtime/PointCloudRenderer.cs:99-110 | both corners move by +100 in x and y with z unchanged; the data is segmented with the moved box (a null data reference or an empty store throws, leaving the external buffer, new_segment and, for an empty store, the data object unchanged); the external buffer becomes the data's buffer; new_segment is set; nothing is uploaded: an existing buffer is unchanged, and a buffer allocated by the step has the point count as its count and empty contents |
| `Rendering.PointCloudRenderer.OnRenderObject` | Assets/Pcx/Runtime/PointCloudRenderer.cs:130-193 | it returns early, with nothing changed, when there is neither data nor an external buffer or the camera check fails; with new_segment it draws from the re-uploaded data buffer, throwing a null dereference when the data or its buffer is missing; otherwise it draws from the external buffer if any, else from the data's lazily allocated buffer; the style follows the point size; the count is the chosen buffer's count; a pass that draws clears new_segment; a pass that throws leaves new_segment and the data object unchanged |
| `Rendering.FirstRenderWithEqualCorners` | Assets/Pcx/Runtime/PointCloudRenderer.cs:74-158 | from the defaults, with equal corners, OnValidate then the first render pass throws a null dereference, and so does the second |
| `Rendering.FirstRenderAfterSegmenting` | Assets/Pcx/Runtime/PointCloudRenderer.cs:80-193 | with distinct corners, OnValidate segments and allocates; the first pass then uploads the segmented points and draws both with the disk style |

## Findings

| source | as written | input that shows it | evidently intended | confidence | as-written member | corrected member |
|---|---|---|---|---|---|---|
| Assets/Pcx/Runtime/PointCloudData.cs:40 | `recomputeBuffer` calls `SetData` on `_pointBuffer` without a null check. `new_segment` starts true (PointCloudRenderer.cs:74). `OnValidate` only segments, and so only allocates, when the corners differ. So the first `OnRenderObject` reaches `recomputeBuffer` (PointCloudRenderer.cs:157) with no buffer. | both corners at their default (the origin), a source data object with no buffer yet, and the camera check passing on the first render pass | allocate the buffer before the first upload | high; not executed | `Rendering.FirstRenderWithEqualCorners` | `PointStore.PointCloudData.GetRecomputeBufferOrAllocate` |
| Assets/Pcx/Runtime/PointCloudData.cs:134-149 | The y and z entries of `min_max` are updated when `position.x` beats the running y/z extremum, instead of `position.y`/`position.z`. | points (0,0,0) then (-1,5,0): min y ends at 5 | compare each axis on its own coordinate | high, but the array is never read afterwards, so nothing observable changes; not executed | `PointStore.TrackExtremaAsWrittenMissesY` | `PointStore.TrackExtremaExact` |

The model's `OnRenderObject` keeps the as-written `recomputeBuffer` call, so
that its contract shows the fault. The corrected getter is modelled beside it
with its guarantee proved. The running bounding box is local to the
segmentation loop, so no other member uses either version.

## Left out

- ColorCodec.EncodeColor: modelled with exact rational arithmetic over `Color32` bytes, not single-precision floats. `byte/255f * 255/16` can land a hair above an integer at multiples of 16, which would move `ceil` up by one. General `Color` inputs, such as channels above 1.0 or negative channels, are not modelled, because every call site passes a `Color32`.
- Positions are exact reals. The comparisons in segmentation are exact. The `+ 100` of `ChangeBoundingBoxStep` is exact addition, not float addition with rounding.
- PointStore.PointCloudData.SegmentPointCloud: the method does not track the local `min_max` array. The array is never read after the loop. Its tracking is modelled separately by `TrackExtremaAsWritten`/`TrackExtrema` (see Findings). `count_black` is unused and is not modelled. `count_red` is a local in the source; the model returns it as the result so that it can be stated.
- PointStore.PointCloudData.GetComputeBuffer: the engine's buffer constructor rejects a count of 0 with an exception, so on an empty store the real getter throws. That is engine behaviour outside the modelled code and is not modelled: the model allocates a live 0-element buffer, so `PointStore.AcquireReleaseAcquire` and an `OnRenderObject` pass that draws `Drew(_, 0)` cover an empty store the engine would refuse. `SegmentPointCloud` never reaches its allocation on an empty store.
- ComputeBuffer is modelled as a record of count, stride, last uploaded contents and a released flag. Its GPU side is the engine's. A fresh buffer holds nothing uploaded (`contents == []`). What the engine does when `SetData` gets more or fewer points than the buffer's count is not modelled. This can happen after `Initialize` changes the point count while a buffer exists. In the model the contents simply become the data.
- The renderer's use of a released buffer is not modelled. After the data's `OnDisable`, `sourceBuffer` can still name the released buffer, and the model draws from it with its count.
- Materials and shaders are not modelled: their lazy creation (PointCloudRenderer.cs:143-154), `SetPass`/`SetColor`/`SetMatrix`/`SetBuffer`/`SetFloat`, `Graphics.DrawProcedural*`, `Debug.Log` and `OnDestroy` (which only destroys materials). These are host-engine calls. A pass that draws is reported by its style and element count, and the tint is not modelled.
- The camera's layer-mask and name checks (PointCloudRenderer.cs:136-138) become one boolean parameter, `cameraAccepts`.
- `Start` and the coroutine scheduling of `ChangeBoundingBox` (`WaitForSeconds`, the self-restart) are driven by the host. Only one step is modelled.
- The inspector (`Assets/Pcx/Editor/PointCloudRendererInspector.cs`) is editor UI binding with no logic. Serialization attributes, the property getters and setters, and the no-op `sourceData = _sourceData` are not modelled.
- A store's point array is never null in the model: a new store holds an empty array.
- Exceptions are results. How the engine reports an exception that escapes a message method is not modelled.
- Concurrency is not modelled. The code is single-threaded.
