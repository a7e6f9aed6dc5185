# Christmas-Tree ornament canvas — a Dafny model

The Christmas-Tree app lets a user upload up to 20 ornament images and drag
them around a Christmas-tree canvas. It can then export the picture as a
video with music. This project models the logic beneath that:

- **Ornament list** (`Uploader`): adding a batch from the file picker or from
  a drop, with the 20-ornament cap and its notice. Dropped files are filtered
  to `image/*` MIME types; picked files are not. The module also covers
  removing one ornament by index and clearing the list after confirmation.
- **Position store** (`Positions`, `Session`): one canvas position per
  ornament. The store is reconciled after every change of the list:
  - a list that already has the right length is kept;
  - new ornaments get slots on a 5-column grid with a 110 px pitch starting
    at (50, 50);
  - surplus positions are cut off the end.
- **Canvas geometry** (`Canvas`):
  - the ornament footprint (200 px wide and 3:4 by default);
  - the "cover" and "contain" fits behind each `drawImage` call;
  - the tree overlay's padded rectangle;
  - the order of draws in one frame;
  - the topmost-first hit test.
- **Drag state machine** (`Drag`): pointer down, move, up and leave on the
  canvas, plus the document-level move and up handlers that keep a drag
  alive outside the canvas.
- **Row layout of the early `drawTree`** (`TreeLayout`): a triangle of
  80 × 80 images, row `r` holding `r + 1` of them, each row centred.
- **Progress scrape** (`Progress`): the encoder's log lines are searched
  for `time=H:M:S.F`. The match becomes seconds and then a percentage of
  the audio duration, capped at 100.

Coordinates and sizes are `real`, an idealisation of JavaScript numbers.
Files, images and the 2D context are abstract: a file is its MIME type plus
opaque content, and an image is its pixel size. A draw is the pair of
source and destination rectangles passed to `drawImage`.

## Model

| member | source | states |
|---|---|---|
| Canvas.ItemSize | src/components/ImageCanvas.tsx:19-32 | the width defaults to 200; a given width or height is used as is; a missing height makes width : height equal 3 : 4 |
| Canvas.DefaultItemSizeIsPortrait | src/components/ImageCanvas.tsx:19-32 | with nothing configured the footprint is 200 × 266⅔ |
| Canvas.CoverFit | src/components/ImageCanvas.tsx:112-139 | the destination is filled exactly; the crop has the destination's aspect ratio; it is positive and lies inside the image; it is centred on both axes; it spans the full image width or full height |
| Canvas.ContainFit | src/components/ImageCanvas.tsx:141-168 | the whole image is drawn; the target keeps the image's aspect ratio; it lies inside the destination; it is centred on both axes; it spans the destination's full width or full height |
| Canvas.TreeRect | src/components/ImageCanvas.tsx:170-173 | the tree rectangle is the canvas inset by 80 top and bottom and 40 left and right |
| Canvas.TreeRectInsideCanvas | src/components/ImageCanvas.tsx:188-201 | on a canvas larger than the padding, the tree rectangle is non-empty and inside the canvas |
| Canvas.OrnamentDraw | src/components/ImageCanvas.tsx:203-216 | under either fit the painted rectangle lies inside the ornament's footprint (the hit-test box); cover paints the whole footprint; contain shows the whole image |
| Canvas.OrnamentDraws | src/components/ImageCanvas.tsx:203-236 | one draw per ornament that has both a loaded image and a position, in index order |
| Canvas.Frame | src/components/ImageCanvas.tsx:175-236 | the first draw is the background cover-fit to the whole canvas; when there is an overlay, the second is the tree cover-fit to the padded rectangle; then draw first + i is ornament i with the configured fit, inside its footprint, so later ornaments are on top; without an overlay any canvas size is accepted |
| Canvas.DefaultCanvasTree | src/components/ImageCanvas.tsx:21-22 | the default 1080 × 1350 canvas is larger than the padding and leaves the tree a 1000 × 1190 area at (40, 80) |
| Canvas.DefaultFitShowsWholeImage | src/components/ImageCanvas.tsx:46 | with the default fit ("contain") every ornament image is shown whole, inside its footprint |
| Canvas.HitBelow | src/components/ImageCanvas.tsx:281-298 | the downward scan returns the largest index below the bound whose closed footprint contains the point; it returns nothing exactly when no such index exists |
| Canvas.HoveredImage | src/components/ImageCanvas.tsx:281-298 | the hit is drawn (index below both the loaded count and the position count) and contains the pointer; every ornament drawn above it misses; nothing is returned exactly when every drawn ornament misses |
| Canvas.HitPicksTopmost | src/components/ImageCanvas.tsx:281-298 | conversely, an ornament that contains the pointer and has no hit above it is the one picked |
| Drag.OnDown | src/components/ImageCanvas.tsx:300-314 | over an ornament: that ornament is dragged and the offset is pointer minus its corner; over nothing: no change |
| Drag.OnMove | src/components/ImageCanvas.tsx:316-345 | when idle, only the hover index changes, to the hit-test result; when dragging, corner plus offset equals the pointer, and no other position, the drag, the offset or the hover changes |
| Drag.OnUp | src/components/ImageCanvas.tsx:347-352 | ends the drag, clears the hover, keeps the positions |
| Drag.OnLeave | src/components/ImageCanvas.tsx:354-359 | clears the hover only when idle; during a drag nothing changes |
| Drag.OnDocumentMove | src/components/ImageCanvas.tsx:369-374 | during a drag it is the canvas move; when idle it does nothing |
| Drag.OnDocumentUp | src/components/ImageCanvas.tsx:376-380 | during a drag it is the canvas up; when idle it does nothing |
| Drag.Step | src/components/ImageCanvas.tsx:361-383 | every event keeps the dragged index in range and keeps the number of positions |
| Drag.Run | src/components/ImageCanvas.tsx:361-383 | the same two facts hold over any sequence of events |
| Drag.InitialRunValid | src/components/ImageCanvas.tsx:51-54 | the handlers start idle with a zero offset, so every state reachable from the start is valid and keeps one position per ornament |
| Drag.OnlyDownStartsDrag | src/components/ImageCanvas.tsx:300-314 | from idle, only pointer-down starts a drag, and it drags the hit-tested ornament |
| Drag.CanvasThenDocumentMove | src/components/ImageCanvas.tsx:362-382 | a move delivered to both the canvas and the document handler has the effect of one move |
| Drag.MovesOnlyTouchDragged | src/components/ImageCanvas.tsx:316-345 | after any sequence of moves during a drag, every other ornament is where it was; the dragged one is at the last pointer minus the offset |
| Drag.ReturnToGrabPointRestores | src/components/ImageCanvas.tsx:300-345 | no drift: grab at p, move anywhere, return to p, and every position equals its value before the grab |
| Drag.IdleKeepsPositions | src/components/ImageCanvas.tsx:316-380 | when idle, no event other than pointer-down moves an ornament |
| Positions.GridSlot | src/components/useChristmasTreeVideo.ts:27-32 | the first five slots form the top row, 110 apart starting at (50, 50); every slot lies between x = 50 and x = 490, and never above y = 50 |
| Positions.GridSlotNextRow | src/components/useChristmasTreeVideo.ts:29-30 | each slot is exactly one pitch below the slot five indices earlier; with the top row this fixes every slot |
| Positions.GridSlotInjective | src/components/useChristmasTreeVideo.ts:27-32 | no two ornaments share a default slot |
| Positions.Reconcile | src/components/useChristmasTreeVideo.ts:19-38 | the result has one position per ornament; a matching list is kept; existing positions survive growth; every new index gets its grid slot; shrinking keeps the leading positions |
| Positions.ReconcileLoop | src/components/useChristmasTreeVideo.ts:19-38 | the copy-and-push loop computes the reference reconciliation |
| Positions.ReconcileIdempotent | src/components/useChristmasTreeVideo.ts:21 | reconciling an already reconciled list changes nothing |
| Positions.ReconcileGrowComposes | src/components/useChristmasTreeVideo.ts:24-33 | growing in two steps gives the same positions as growing in one |
| Positions.ReconcileKeepsSurvivors | src/components/useChristmasTreeVideo.ts:19-38 | a position whose index survives the new count is kept as it was |
| Progress.DigitRun | src/components/useChristmasTreeVideo.ts:67 | a greedy `\d+` consumes only digits and stops at a non-digit or at the end |
| Progress.DigitsValue | src/components/useChristmasTreeVideo.ts:69 | `Number` of an n-digit string is below 10^n |
| Progress.DigitsValueLeadingZero | src/components/useChristmasTreeVideo.ts:69 | a leading zero does not change the value, so zero-padded fields such as `00:01:05.50` read as 0, 1, 5 and 50/100 |
| Progress.ClockAt | src/components/useChristmasTreeVideo.ts:67 | the regex tried at one index: a match there starts with `time=`; its full characterisation is Progress.ClockAtIffToken |
| Progress.FieldThen | src/components/useChristmasTreeVideo.ts:67 | a field is a non-empty digit run followed by its separator |
| Progress.FirstMatch | src/components/useChristmasTreeVideo.ts:67 | the result is the leftmost index where a match starts; nothing is returned exactly when no index matches |
| Progress.FirstClock | src/components/useChristmasTreeVideo.ts:67-68 | nothing is returned exactly when the line has no match; otherwise it is the clock of the match at some index k with no match at any index before k (the leftmost match) |
| Progress.ClockAtIsToken | src/components/useChristmasTreeVideo.ts:67-69 | whatever matches is a well-formed `time=H:M:S.F` token not followed by a digit, and the clock read is that token's |
| Progress.TokenAtParses | src/components/useChristmasTreeVideo.ts:67-69 | conversely, a token not followed by a digit matches where it starts and yields its own clock |
| Progress.ClockAtIffToken | src/components/useChristmasTreeVideo.ts:67-69 | both directions together: a match with clock c starts at i if and only if a token whose clock is c starts there |
| Progress.TokenParses | src/components/useChristmasTreeVideo.ts:67-69 | round trip: a line that starts with a token yields exactly the clock that token denotes |
| Progress.ClockSeconds | src/components/useChristmasTreeVideo.ts:69-70 | the seconds are never below the whole-second count H·3600 + M·60 + W |
| Progress.MatchWithinSecond | src/components/useChristmasTreeVideo.ts:67-70 | for a clock read from a match, the fraction never reaches a whole second: the seconds lie below H·3600 + M·60 + W + 1 |
| Progress.Percent | src/components/useChristmasTreeVideo.ts:71 | the percentage is at most 100 and at most elapsed / duration · 100, and equals one of the two; it is non-negative for non-negative time |
| Progress.OnLog | src/components/useChristmasTreeVideo.ts:64-74 | lines of other kinds, and lines without a match, leave progress unchanged; otherwise progress becomes the capped percentage of the first match, which lies in [0, 100] |
| Progress.OnLogStaysInRange | src/components/useChristmasTreeVideo.ts:64-74 | progress that starts in [0, 100] stays there whatever the log says |
| Progress.SampleProgress | src/components/useChristmasTreeVideo.ts:64-74 | the line `time=0:1:5.5…` against a 131-second track sets progress to 50 |
| Uploader.IsImage | src/components/OrnamentUploader.tsx:45 | `file.type.startsWith('image/')` on the MIME type |
| Uploader.ImageTypes | src/components/OrnamentUploader.tsx:45 | any `image/` subtype passes the type test; a bare "image" or another top-level type does not |
| Uploader.SliceTo | src/components/OrnamentUploader.tsx:20-21 | `slice(0, end)`: a prefix of the list; the end is clamped, and a negative end counts from the back |
| Uploader.AddBatch | src/components/OrnamentUploader.tsx:16-24 | a notice, quoting the current count, is raised exactly when the total exceeds 20; the old list is kept as a prefix; the added files are a prefix of the batch; under the cap the whole batch is added; on overflow from at most 20 the list ends at exactly 20 |
| Uploader.HandleFileChange | src/components/OrnamentUploader.tsx:14-27 | picked files are appended as a prefix of the picked batch, with no type check; under the cap the whole batch is added; on overflow from at most 20 the list ends at exactly 20; a notice quoting the current count is raised exactly when the total exceeds 20 |
| Uploader.ImageFilesOnly | src/components/OrnamentUploader.tsx:45 | every kept file is an image; every image in the batch is kept; nothing else appears |
| Uploader.ImageFilesOnlyAppend | src/components/OrnamentUploader.tsx:45 | filtering a concatenation is concatenating the filtered parts, so relative order is kept |
| Uploader.ImageFilesOnlyKeepsImages | src/components/OrnamentUploader.tsx:45 | a batch of images only passes unchanged |
| Uploader.ImageFilesOnlyIdempotent | src/components/OrnamentUploader.tsx:45 | filtering twice is filtering once |
| Uploader.HandleDrop | src/components/OrnamentUploader.tsx:39-55 | dropped files are filtered to images before the cap; exactly a prefix of the image files is appended, and all of them under the cap; the notice compares the cap with the image count only; the list ends at exactly 20 on overflow |
| Uploader.RemoveImage | src/components/OrnamentUploader.tsx:57-59 | filtering by index is the list with element `index` cut out; an index outside the list leaves it unchanged |
| Uploader.RemoveImageSpec | src/components/OrnamentUploader.tsx:57-59 | removal deletes exactly element `index` and shifts the later ones down by one; an out-of-range index changes nothing |
| Uploader.KeepOthersShape | src/components/OrnamentUploader.tsx:58 | the index filter is the list without its element at `index` |
| Uploader.ClearAll | src/components/OrnamentUploader.tsx:61-65 | a confirmed clear empties the list; a declined one keeps it |
| TreeLayout.SlotBox | src/App.tsx:30-40 | each slot is an 80 × 80 square, and a slot whose column exists in its row lies within that row's span |
| TreeLayout.TreeSlots | src/App.tsx:27-43 | the nested loop gives every image exactly the slot its index determines (row r holds indices Tri(r) to Tri(r+1)−1, centred, pitch 100, 80 × 80); each column is at most its row; the rows begun are the fewest that hold all images |
| TreeLayout.PlacedAtUnique | src/App.tsx:29-42 | each image has exactly one slot |
| TreeLayout.RowMajor | src/App.tsx:29-42 | a later image is in a later row, or further right in the same row |
| TreeLayout.RowCentred | src/App.tsx:31-33 | every row is centred on the canvas |
| TreeLayout.SlotsDisjoint | src/App.tsx:36-40 | two different images never overlap |
| Session.SetImages | src/components/useChristmasTreeVideo.ts:17-39 | after any change of the image list, the position list has one entry per ornament |
| Session.AddFiles | src/components/OrnamentUploader.tsx:14-27 | the image list becomes the capped append of the batch; every ornament already placed keeps its image and position; each newcomer gets its grid slot |
| Session.Clear | src/components/OrnamentUploader.tsx:61-65 | a confirmed clear empties both lists; a declined one changes nothing |
| Session.RemoveAsWritten | src/components/OrnamentUploader.tsx:57-59 | as written: the image goes at `index`, but the positions keep only their leading entries |
| Session.RemoveAsWrittenMovesSurvivor | src/components/useChristmasTreeVideo.ts:36-37 | removing the first of two placed ornaments moves the second onto the first one's position |
| Session.Remove | src/components/OrnamentUploader.tsx:57-59 | corrected: the (image, position) pairs lose exactly the pair at `index`, and the rest stay paired; the result is a reconciliation fixed point |

## Left out

- The video export: ffmpeg loading, the virtual file system, the encoder
  arguments, `MediaRecorder` capture, audio metadata, the default audio
  fetch and the download. These are I/O with external libraries.
  `Progress` models only the log callback, and the audio duration is a
  parameter.
- The 2D context calls themselves: `clearRect`, alpha, shadows, the
  highlight stroke and the cursor style. `Canvas` models the rectangles
  passed to `drawImage` and nothing of the pixels.
- Image loading: the background, the overlay and the per-ornament images
  load asynchronously, and the object URLs are never revoked. `Canvas.Frame`
  is the draw once everything has loaded; the loaded count and the image
  sizes are parameters.
- The tree overlay is a parameter of `Canvas.Frame`. The source keeps the
  previous overlay image when `treeSrc` becomes empty; that staleness is not
  modelled.
- The conversion from client coordinates to canvas coordinates
  (`getMousePos`, including the fallback to (0, 0)): pointer positions reach
  `Drag` already in canvas coordinates. Touch events go to the same handlers
  as mouse events, as in the source. No document-level touch handlers exist,
  so none are modelled.
- `preventDefault` and the React re-render cycle. `Drag.Pointer.positions`
  stands for the ref the handlers read and write.
- Drag.OnMove: requires the dragged index to be within the position list.
  The source would write past the end of the array, which can only happen
  if the ornament list shrinks during a drag.
- Canvas.CoverFit: requires positive image and destination sizes. Zero
  sizes give NaN or infinite rectangles in JavaScript, and the model does
  not represent those.
- Canvas.ContainFit: requires positive image and destination sizes, for the
  same reason.
- Canvas.OrnamentDraw: requires positive sizes, for the same reason. So do
  `OrnamentDraws` and `Frame`.
- Canvas.Frame: with an overlay, requires a canvas larger than the tree
  padding (wider than 80 and taller than 160). A smaller canvas would give
  the overlay a negative width or height, and `drawImage` with a negative
  size is not modelled.
- Progress.Percent: requires a positive duration. A zero, NaN or infinite
  audio duration is not modelled.
- Progress.ClockSeconds: computes with exact rationals. JavaScript's
  `Number` parsing rounds to the nearest double.
- All real arithmetic in the model is exact, where the source rounds to
  IEEE doubles.
- The drag-active styling of the drop box and the file input's disabled
  state at 20 ornaments. These are view state; the cap itself is enforced in
  `Uploader.AddBatch`.
- The raster handles that every list change invalidates in the view are not
  modelled.
- Snowfall, VideoControls, VideoGenerator and Navbar are not part of this
  model.

## Findings

| source | as written | input that shows it | evidently intended | confidence | as-written member | corrected member |
|---|---|---|---|---|---|---|
| src/components/OrnamentUploader.tsx:57-59 with src/components/useChristmasTreeVideo.ts:36-37 | removing ornament `index` removes its image, but reconciliation then cuts the position list to its first n − 1 entries, so every later ornament jumps to its predecessor's position | images [1, 2] at positions [(0, 0), (500, 500)]; remove index 0; ornament 2 is now drawn at (0, 0) | the position is removed together with its ornament, and the others stay where they were dragged | medium, not executed | Session.RemoveAsWrittenMovesSurvivor | Session.Remove |
