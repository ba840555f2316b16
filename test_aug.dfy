/** The box handling of the augmentation experiment in test_aug.py: the
    suppression of the extra boxes the augmentation returns, and the
    ordering of each box's corners before it is drawn. */
module TestAugModel {
  import opened BoxUtils

  /** `[bbox for i, bbox in enumerate(boxes) if i % 2 == 0]`. */
  function Evens<T>(boxes: seq<T>): seq<T>
    decreases |boxes|
  {
    if |boxes| <= 1 then boxes else [boxes[0]] + Evens(boxes[2..])
  }

  /** The filter keeps exactly the entries at even positions, in order:
      ceil(m / 2) of m. */
  lemma {:induction false} EvensSpec<T>(boxes: seq<T>)
    ensures |Evens(boxes)| == (|boxes| + 1) / 2
    ensures forall t :: 0 <= t < |Evens(boxes)| ==> Evens(boxes)[t] == boxes[2 * t]
    decreases |boxes|
  {
    if |boxes| > 1 {
      EvensSpec(boxes[2..]);
      forall t | 0 < t < |Evens(boxes)| ensures Evens(boxes)[t] == boxes[2 * t] {
        assert Evens(boxes)[t] == Evens(boxes[2..])[t - 1] == boxes[2..][2 * (t - 1)];
      }
    }
  }

  /** The suppression step: the filter applies only when the augmentation
      returned more boxes than it was given. */
  function Suppress<T>(given: seq<T>, returned: seq<T>): seq<T>
  {
    if |returned| > |given| then Evens(returned) else returned
  }

  /** Suppression leaves the boxes alone unless there are more than were
      given; then it halves them, rounding up, so it does not give back the
      number of boxes given in general: two in and five out leave three. */
  lemma SuppressCount<T>(given: seq<T>, returned: seq<T>)
    ensures |returned| <= |given| ==> Suppress(given, returned) == returned
    ensures |returned| > |given| ==> |Suppress(given, returned)| == (|returned| + 1) / 2
    ensures |given| == 2 && |returned| == 5 ==> |Suppress(given, returned)| == 3
  {
    EvensSpec(returned);
  }

  /** The corners of a box in drawing order: smaller x first, smaller y
      first. */
  method OrderCorners(box: Quad) returns (r: Quad)
    ensures r.a <= r.c && r.b <= r.d
    ensures (r.a == box.a && r.c == box.c) || (r.a == box.c && r.c == box.a)
    ensures (r.b == box.b && r.d == box.d) || (r.b == box.d && r.d == box.b)
  {
    var x1, y1, x2, y2 := box.a, box.b, box.c, box.d;
    if x2 < x1 {
      x1, x2 := x2, x1;
    }
    if y2 < y1 {
      y1, y2 := y2, y1;
    }
    r := Quad(x1, y1, x2, y2);
  }

  /** The drawing loop: the rectangle drawn for each box, in order. */
  method Rectangles(boxes: seq<Quad>) returns (rects: seq<Quad>)
    ensures |rects| == |boxes|
    ensures forall i :: 0 <= i < |boxes| ==>
      rects[i].a <= rects[i].c && rects[i].b <= rects[i].d &&
      {rects[i].a, rects[i].c} == {boxes[i].a, boxes[i].c} &&
      {rects[i].b, rects[i].d} == {boxes[i].b, boxes[i].d}
  {
    rects := [];
    for i := 0 to |boxes|
      invariant |rects| == i
      invariant forall k :: 0 <= k < i ==>
        rects[k].a <= rects[k].c && rects[k].b <= rects[k].d &&
        {rects[k].a, rects[k].c} == {boxes[k].a, boxes[k].c} &&
        {rects[k].b, rects[k].d} == {boxes[k].b, boxes[k].d}
    {
      var r := OrderCorners(boxes[i]);
      rects := rects + [r];
    }
  }
}
