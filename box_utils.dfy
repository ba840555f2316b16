/** The list branches of the box helpers of src/utils.py: conversions between
    (x, y, w, h) and corner boxes (x1, y1, x2, y2), and normalisation by the
    page size, over the reals. */
module BoxUtils {
  import opened Common

  /** A box as the four numbers of a list entry. */
  datatype Quad = Quad(a: real, b: real, c: real, d: real)

  function XywhToCorners(q: Quad): Quad
  {
    Quad(q.a, q.b, q.a + q.c, q.b + q.d)
  }

  function CornersToXywh(q: Quad): Quad
  {
    Quad(q.a, q.b, q.c - q.a, q.d - q.b)
  }

  function NormalizeBox(q: Quad, width: real, height: real): Quad
    requires width != 0.0 && height != 0.0
  {
    Quad(q.a / width, q.b / height, q.c / width, q.d / height)
  }

  function UnnormalizeBox(q: Quad, width: real, height: real): Quad
  {
    Quad(q.a * width, q.b * height, q.c * width, q.d * height)
  }

  /** `convert_xywh_to_x1y1x2y2` on a list: one corner box per box, in order. */
  function ConvertXywhToCorners(boxes: seq<Quad>): (r: seq<Quad>)
    ensures |r| == |boxes|
    ensures forall i :: 0 <= i < |r| ==> r[i].a == boxes[i].a && r[i].b == boxes[i].b
  {
    seq(|boxes|, i requires 0 <= i < |boxes| => XywhToCorners(boxes[i]))
  }

  /** `convert_x1y1x2y2_to_xywh` on a list. */
  function ConvertCornersToXywh(boxes: seq<Quad>): (r: seq<Quad>)
    ensures |r| == |boxes|
    ensures forall i :: 0 <= i < |r| ==> r[i].a == boxes[i].a && r[i].b == boxes[i].b
  {
    seq(|boxes|, i requires 0 <= i < |boxes| => CornersToXywh(boxes[i]))
  }

  /** `normalize_bboxes` on a list: a zero width or height raises on the
      first box, so only an empty list survives it. */
  function NormalizeBoxes(boxes: seq<Quad>, width: real, height: real): (r: Result<seq<Quad>>)
    ensures r.Err? <==> boxes != [] && (width == 0.0 || height == 0.0)
    ensures r.Err? ==> r.error == ZeroDivision
    ensures r.Ok? ==> |r.value| == |boxes|
  {
    if boxes != [] && (width == 0.0 || height == 0.0) then Err(ZeroDivision)
    else Ok(seq(|boxes|, i requires 0 <= i < |boxes| => NormalizeBox(boxes[i], width, height)))
  }

  /** `unnormalize_bboxes` on a list. */
  function UnnormalizeBoxes(boxes: seq<Quad>, width: real, height: real): (r: seq<Quad>)
    ensures |r| == |boxes|
  {
    seq(|boxes|, i requires 0 <= i < |boxes| => UnnormalizeBox(boxes[i], width, height))
  }

  /** The two conversions undo each other, in both orders. */
  lemma CornersRoundTrip(boxes: seq<Quad>)
    ensures ConvertCornersToXywh(ConvertXywhToCorners(boxes)) == boxes
    ensures ConvertXywhToCorners(ConvertCornersToXywh(boxes)) == boxes
  {
    assert forall i :: 0 <= i < |boxes| ==> CornersToXywh(XywhToCorners(boxes[i])) == boxes[i];
    assert forall i :: 0 <= i < |boxes| ==> XywhToCorners(CornersToXywh(boxes[i])) == boxes[i];
  }

  /** Normalising and unnormalising by the same non-zero page size undo each
      other, in both orders. */
  lemma NormalizeRoundTrip(boxes: seq<Quad>, width: real, height: real)
    requires width != 0.0 && height != 0.0
    ensures NormalizeBoxes(boxes, width, height).Ok?
    ensures UnnormalizeBoxes(NormalizeBoxes(boxes, width, height).value, width, height) == boxes
    ensures NormalizeBoxes(UnnormalizeBoxes(boxes, width, height), width, height) == Ok(boxes)
  {
    forall i | 0 <= i < |boxes|
      ensures UnnormalizeBox(NormalizeBox(boxes[i], width, height), width, height) == boxes[i]
      ensures NormalizeBox(UnnormalizeBox(boxes[i], width, height), width, height) == boxes[i]
    {
      UnnormalizeNormalized(boxes[i], width, height);
      NormalizeUnnormalized(boxes[i], width, height);
    }
    assert NormalizeBoxes(UnnormalizeBoxes(boxes, width, height), width, height).value == boxes;
  }

  /** One box normalised, then unnormalised, by the same size. */
  lemma UnnormalizeNormalized(q: Quad, width: real, height: real)
    requires width != 0.0 && height != 0.0
    ensures UnnormalizeBox(NormalizeBox(q, width, height), width, height) == q
  {
    DivThenMul(q.a, width);
    DivThenMul(q.b, height);
    DivThenMul(q.c, width);
    DivThenMul(q.d, height);
  }

  /** One box unnormalised, then normalised, by the same size. */
  lemma NormalizeUnnormalized(q: Quad, width: real, height: real)
    requires width != 0.0 && height != 0.0
    ensures NormalizeBox(UnnormalizeBox(q, width, height), width, height) == q
  {
    MulThenDiv(q.a, width);
    MulThenDiv(q.b, height);
    MulThenDiv(q.c, width);
    MulThenDiv(q.d, height);
  }

  lemma DivThenMul(x: real, w: real)
    requires w != 0.0
    ensures (x / w) * w == x
  {
  }

  lemma MulThenDiv(x: real, w: real)
    requires w != 0.0
    ensures (x * w) / w == x
  {
  }

  /** A box inside a page of positive size normalises into the unit square. */
  lemma NormalizeInUnitSquare(q: Quad, width: real, height: real)
    requires width > 0.0 && height > 0.0
    requires 0.0 <= q.a <= width && 0.0 <= q.c <= width
    requires 0.0 <= q.b <= height && 0.0 <= q.d <= height
    ensures var n := NormalizeBox(q, width, height);
      0.0 <= n.a <= 1.0 && 0.0 <= n.b <= 1.0 && 0.0 <= n.c <= 1.0 && 0.0 <= n.d <= 1.0
  {
    UnitRatio(q.a, width);
    UnitRatio(q.b, height);
    UnitRatio(q.c, width);
    UnitRatio(q.d, height);
  }

  lemma UnitRatio(x: real, w: real)
    requires w > 0.0 && 0.0 <= x <= w
    ensures 0.0 <= x / w <= 1.0
  {
    assert x / w * w == x;
  }
}
