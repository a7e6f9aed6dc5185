/** The geometry of the ornament canvas: the default item size, the "cover" and
    "contain" fits behind each `drawImage` call, the inset rectangle of the tree
    overlay, the list of draws that make one frame, and the topmost-first
    hit-test used for dragging. Only rectangle arithmetic is modelled; the 2D
    context calls themselves are not. */
module Canvas {
  import opened Common
  import opened Geometry

  const DefaultItemWidth: real := 200.0
  /** Width over height of an item whose height is not given. */
  const DefaultAspectRatio: real := 0.75
  const DefaultCanvasWidth: real := 1080.0
  const DefaultCanvasHeight: real := 1350.0

  /** The on-canvas footprint of every ornament. The width defaults to 200; a
      missing height follows the 3:4 default aspect ratio; a height that is
      given is used as is. */
  function ItemSize(itemWidth: Option<real>, itemHeight: Option<real>): (s: Size)
    ensures itemWidth.None? ==> s.w == DefaultItemWidth
    ensures itemWidth.Some? ==> s.w == itemWidth.value
    ensures itemHeight.Some? ==> s.h == itemHeight.value
    ensures itemHeight.None? ==> s.h * DefaultAspectRatio == s.w
  {
    var w := OrElse(itemWidth, DefaultItemWidth);
    Size(w, OrElse(itemHeight, w / DefaultAspectRatio))
  }

  lemma DefaultItemSizeIsPortrait()
    ensures ItemSize(None, None) == Size(200.0, 800.0 / 3.0)
  {
  }

  /** One `drawImage(img, sx, sy, sw, sh, dx, dy, dw, dh)` call: the source
      rectangle inside the image and the destination rectangle on the canvas. */
  datatype DrawCall = DrawCall(src: Rect, dst: Rect)

  /** The whole of an image of size `img`. */
  function FullImage(img: Size): Rect {
    Rect(0.0, 0.0, img.w, img.h)
  }

  /** "Cover" fit: fill the destination completely and crop the image, keeping
      the destination's aspect ratio and centring the crop. */
  function CoverFit(img: Size, dst: Rect): (d: DrawCall)
    requires img.w > 0.0 && img.h > 0.0 && Positive(dst)
    ensures d.dst == dst
    ensures Positive(d.src) && Inside(d.src, FullImage(img))
    ensures d.src.w * dst.h == d.src.h * dst.w
    ensures 2.0 * d.src.x + d.src.w == img.w && 2.0 * d.src.y + d.src.h == img.h
    ensures d.src.w == img.w || d.src.h == img.h
  {
    var imgAspect := img.w / img.h;
    var containerAspect := dst.w / dst.h;
    if imgAspect > containerAspect then
      var sw := img.h * containerAspect;
      WiderThanContainer(img, dst);
      DrawCall(Rect((img.w - sw) / 2.0, 0.0, sw, img.h), dst)
    else
      var sh := img.w / containerAspect;
      NotWiderThanContainer(img, dst);
      DrawCall(Rect(0.0, (img.h - sh) / 2.0, img.w, sh), dst)
  }

  lemma WiderThanContainer(img: Size, dst: Rect)
    requires img.w > 0.0 && img.h > 0.0 && Positive(dst)
    requires img.w / img.h > dst.w / dst.h
    ensures 0.0 < img.h * (dst.w / dst.h) < img.w
    ensures (img.h * (dst.w / dst.h)) * dst.h == img.h * dst.w
    ensures 0.0 < dst.w / (img.w / img.h) < dst.h
    ensures (dst.w / (img.w / img.h)) * img.w == dst.w * img.h
  {
  }

  lemma NotWiderThanContainer(img: Size, dst: Rect)
    requires img.w > 0.0 && img.h > 0.0 && Positive(dst)
    requires !(img.w / img.h > dst.w / dst.h)
    ensures 0.0 < img.w / (dst.w / dst.h) <= img.h
    ensures img.w * dst.h == (img.w / (dst.w / dst.h)) * dst.w
    ensures 0.0 < dst.h * (img.w / img.h) <= dst.w
    ensures (dst.h * (img.w / img.h)) * img.h == dst.h * img.w
  {
  }

  /** "Contain" fit: show the whole image inside the destination, keeping the
      image's aspect ratio and centring it on the axis that has slack. */
  function ContainFit(img: Size, dst: Rect): (d: DrawCall)
    requires img.w > 0.0 && img.h > 0.0 && Positive(dst)
    ensures d.src == FullImage(img)
    ensures Positive(d.dst) && Inside(d.dst, dst)
    ensures d.dst.w * img.h == d.dst.h * img.w
    ensures 2.0 * (d.dst.x - dst.x) + d.dst.w == dst.w
    ensures 2.0 * (d.dst.y - dst.y) + d.dst.h == dst.h
    ensures d.dst.w == dst.w || d.dst.h == dst.h
  {
    var imgAspect := img.w / img.h;
    var containerAspect := dst.w / dst.h;
    if imgAspect > containerAspect then
      var th := dst.w / imgAspect;
      WiderThanContainer(img, dst);
      DrawCall(FullImage(img), Rect(dst.x, dst.y + (dst.h - th) / 2.0, dst.w, th))
    else
      var tw := dst.h * imgAspect;
      NotWiderThanContainer(img, dst);
      DrawCall(FullImage(img), Rect(dst.x + (dst.w - tw) / 2.0, dst.y, tw, dst.h))
  }

  /** Padding of the tree overlay inside the canvas. */
  const PadTop: real := 80.0
  const PadBottom: real := 80.0
  const PadLeft: real := 40.0
  const PadRight: real := 40.0

  /** The rectangle the tree overlay is drawn into: the canvas inset by the
      padding on every side. */
  function TreeRect(canvasW: real, canvasH: real): (r: Rect)
    ensures r.x == PadLeft && r.y == PadTop
    ensures canvasW - (r.x + r.w) == PadRight
    ensures canvasH - (r.y + r.h) == PadBottom
  {
    Rect(PadLeft, PadTop, canvasW - PadLeft - PadRight, canvasH - PadTop - PadBottom)
  }

  /** On a canvas larger than the padding the tree rectangle is a non-empty
      part of the canvas. */
  lemma TreeRectInsideCanvas(canvasW: real, canvasH: real)
    requires canvasW > PadLeft + PadRight && canvasH > PadTop + PadBottom
    ensures Positive(TreeRect(canvasW, canvasH))
    ensures Inside(TreeRect(canvasW, canvasH), Rect(0.0, 0.0, canvasW, canvasH))
  {
  }

  /** The default 1080 x 1350 canvas leaves the tree a 1000 x 1190 area. */
  lemma DefaultCanvasTree()
    ensures TreeRect(DefaultCanvasWidth, DefaultCanvasHeight) == Rect(40.0, 80.0, 1000.0, 1190.0)
    ensures DefaultCanvasWidth > PadLeft + PadRight && DefaultCanvasHeight > PadTop + PadBottom
  {
  }

  predicate PositiveSize(s: Size) {
    s.w > 0.0 && s.h > 0.0
  }

  datatype Fit = Cover | Contain

  /** The fit used when none is configured. */
  const DefaultFit: Fit := Contain

  /** The draw of one ornament of image size `img` at `pos`. Whatever the fit,
      the pixels it paints lie within the item's footprint, which is the
      rectangle the hit-test uses. */
  function OrnamentDraw(fit: Fit, img: Size, pos: Point, item: Size): (d: DrawCall)
    requires PositiveSize(img) && PositiveSize(item)
    ensures Inside(d.dst, BoxAt(pos, item))
    ensures fit == Cover ==> d.dst == BoxAt(pos, item)
    ensures fit == Contain ==> d.src == FullImage(img)
  {
    match fit
    case Cover => CoverFit(img, BoxAt(pos, item))
    case Contain => ContainFit(img, BoxAt(pos, item))
  }

  /** The ornaments that are drawn (and hit-tested): an index must have both a
      loaded image and a position. */
  /** With the default fit every ornament image is shown whole. */
  lemma DefaultFitShowsWholeImage(img: Size, pos: Point, item: Size)
    requires PositiveSize(img) && PositiveSize(item)
    ensures OrnamentDraw(DefaultFit, img, pos, item).src == FullImage(img)
    ensures Inside(OrnamentDraw(DefaultFit, img, pos, item).dst, BoxAt(pos, item))
  {
  }

  function Drawn(loaded: nat, positions: seq<Point>): nat {
    if loaded <= |positions| then loaded else |positions|
  }

  /** The draws of the ornaments with index at least `from`, in index order. */
  function OrnamentDraws(fit: Fit, images: seq<Size>, positions: seq<Point>, item: Size, from: nat): (ds: seq<DrawCall>)
    requires forall i :: 0 <= i < |images| ==> PositiveSize(images[i])
    requires PositiveSize(item)
    requires from <= Drawn(|images|, positions)
    ensures |ds| == Drawn(|images|, positions) - from
    ensures forall k :: 0 <= k < |ds| ==> ds[k] == OrnamentDraw(fit, images[from + k], positions[from + k], item)
    decreases Drawn(|images|, positions) - from
  {
    if from == Drawn(|images|, positions) then []
    else [OrnamentDraw(fit, images[from], positions[from], item)]
         + OrnamentDraws(fit, images, positions, item, from + 1)
  }

  /** One composed frame: the background covering the whole canvas, then the
      tree overlay (when there is one) covering the padded rectangle, then each
      ornament that has a position, in index order, so that later ornaments
      are drawn on top of earlier ones. */
  function Frame(canvas: Size, background: Size, tree: Option<Size>, fit: Fit,
                 images: seq<Size>, positions: seq<Point>, item: Size): (ds: seq<DrawCall>)
    requires PositiveSize(canvas) && PositiveSize(background) && PositiveSize(item)
    requires tree.Some? ==> canvas.w > PadLeft + PadRight && canvas.h > PadTop + PadBottom
    requires tree.Some? ==> PositiveSize(tree.value)
    requires forall i :: 0 <= i < |images| ==> PositiveSize(images[i])
    ensures var first := if tree.Some? then 2 else 1;
      && |ds| == first + Drawn(|images|, positions)
      && ds[0] == CoverFit(background, Rect(0.0, 0.0, canvas.w, canvas.h))
      && ds[0].dst == Rect(0.0, 0.0, canvas.w, canvas.h)
      && (tree.Some? ==> ds[1] == CoverFit(tree.value, TreeRect(canvas.w, canvas.h)))
      && (tree.Some? ==> ds[1].dst == TreeRect(canvas.w, canvas.h))
      && (forall i :: 0 <= i < Drawn(|images|, positions) ==>
            ds[first + i] == OrnamentDraw(fit, images[i], positions[i], item))
      && forall i :: 0 <= i < Drawn(|images|, positions) ==>
           Inside(ds[first + i].dst, BoxAt(positions[i], item))
  {
    var bg := [CoverFit(background, Rect(0.0, 0.0, canvas.w, canvas.h))];
    var overlay :=
      if tree.Some? then
        TreeRectInsideCanvas(canvas.w, canvas.h);
        [CoverFit(tree.value, TreeRect(canvas.w, canvas.h))]
      else [];
    bg + overlay + OrnamentDraws(fit, images, positions, item, 0)
  }

  /** The topmost ornament among indices below `k` whose closed footprint
      contains `p`, scanning downwards; indices without a position are
      skipped. */
  function HitBelow(k: nat, positions: seq<Point>, item: Size, p: Point): (r: Option<nat>)
    ensures r.Some? ==> r.value < k && r.value < |positions|
                        && ClosedContains(BoxAt(positions[r.value], item), p)
    ensures r.Some? ==> forall j :: r.value < j < k && j < |positions| ==>
                          !ClosedContains(BoxAt(positions[j], item), p)
    ensures r.None? <==> forall j :: 0 <= j < k && j < |positions| ==>
                           !ClosedContains(BoxAt(positions[j], item), p)
  {
    if k == 0 then None
    else if k - 1 < |positions| && ClosedContains(BoxAt(positions[k - 1], item), p) then Some(k - 1)
    else HitBelow(k - 1, positions, item, p)
  }

  /** The hit-test of the drag logic: the largest index below the number of
      loaded images whose footprint contains the pointer, or `None`. */
  function HoveredImage(loaded: nat, positions: seq<Point>, item: Size, p: Point): (r: Option<nat>)
    ensures r.Some? ==> r.value < Drawn(loaded, positions)
                        && ClosedContains(BoxAt(positions[r.value], item), p)
    ensures r.Some? ==> forall j :: r.value < j < Drawn(loaded, positions) ==>
                          !ClosedContains(BoxAt(positions[j], item), p)
    ensures r.None? <==> forall j :: 0 <= j < Drawn(loaded, positions) ==>
                           !ClosedContains(BoxAt(positions[j], item), p)
  {
    HitBelow(loaded, positions, item, p)
  }

  /** A pointer inside ornament `i` and outside every ornament drawn after it
      picks `i`. */
  lemma HitPicksTopmost(loaded: nat, positions: seq<Point>, item: Size, p: Point, i: nat)
    requires i < Drawn(loaded, positions)
    requires ClosedContains(BoxAt(positions[i], item), p)
    requires forall j :: i < j < Drawn(loaded, positions) ==> !ClosedContains(BoxAt(positions[j], item), p)
    ensures HoveredImage(loaded, positions, item, p) == Some(i)
  {
  }
}
