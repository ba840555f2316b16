/** The `DocumentGenerator` of src/document_generator.py: the element loop
    with its word budget, the extraction of word boxes from the contours of
    the coloured rendering, and the per-page remap, renormalisation and
    numbered output files. Fetching, rendering and augmentation are inputs. */
module DocumentGeneratorModel {
  import opened Common
  import opened Colors
  import opened DocxWords
  import opened BoxUtils
  import opened DocxDocumentModel
  import opened FileStore

  /** An element `find_all` returns: a paragraph with its children, a heading
      `h<level>` with its text, or a table with the texts of its cells. */
  datatype Element = Para(children: seq<Child>) | Head(level: nat, text: string) | TableEl(rows: seq<seq<string>>)

  /** The answer to the page request. */
  datatype Response = Response(status: int, elements: seq<Element>)

  type Pos = n: int | n > 0 witness 1

  /** A contour found on a rendered page, after polygon approximation: its
      vertex count, its bounding rectangle, and the pixel read at (x+1, y+1). */
  datatype Contour = Contour(vertices: nat, x: int, y: int, w: int, h: int, sample: Rgb)

  /** A rendered page: its size and the outer contours of its non-white parts. */
  datatype Page = Page(width: Pos, height: Pos, contours: seq<Contour>)

  /** What the augmentation pipeline returns: the image and the boxes it
      carried along, in corner form. */
  datatype Augmented = Augmented(pixels: seq<int>, boxes: seq<Quad>)

  /** The request, the renderer (document and image size to pages) and the
      augmentation pipeline (draw number, page and boxes to its output). */
  type Fetcher = string -> Option<Response>
  type Renderer = (DocState, nat) -> seq<Page>
  type Augmenter = (nat, Page, seq<Quad>) -> Augmented

  // ---------------------------------------------------------------------------
  // The element loop
  // ---------------------------------------------------------------------------

  /** One element: headings go to `add_heading`, tables to `add_table`, the
      rest to `add_text`; a colour lookup past the table raises. */
  function ElementSpec(colors: seq<string>, maxRows: int, maxCols: int, st: DocState, e: Element): (DocState, Result<bool>)
  {
    match e
    case Para(children) =>
      var (s, ok) := TextSpec(colors, st, children);
      (s, if ok then Ok(true) else Err(ColorsExhausted))
    case Head(level, text) =>
      var (s, ok) := HeadingSpec(colors, st, level, text);
      (s, if ok then Ok(true) else Err(ColorsExhausted))
    case TableEl(rows) => TableSpec(colors, maxRows, maxCols, st, rows)
  }

  /** One step of the element loop: the document after an element, and its outcome. */
  type Step = (DocState, Element) -> (DocState, Result<bool>)

  /** The step `create_doc` takes for each element. */
  function ElementStep(colors: seq<string>, maxRows: int, maxCols: int): Step
  {
    (st: DocState, e: Element) => ElementSpec(colors, maxRows, maxCols, st, e)
  }

  /** The element loop of `create_doc`: each element in turn, stopping with
      the first error or right after the first element that takes the word
      count over the budget; the result counts the elements added. */
  function BuildSpec(f: Step, maxWords: int, st: DocState, es: seq<Element>): (DocState, Result<nat>)
    decreases |es|, 1
  {
    if es == [] then (st, Ok(0))
    else Continue(f, maxWords, f(st, es[0]), es[1..])
  }

  /** The loop after one element whose outcome is `step`, with `rest` to go. */
  function Continue(f: Step, maxWords: int, step: (DocState, Result<bool>), rest: seq<Element>): (DocState, Result<nat>)
    decreases |rest| + 1, 0
  {
    var (st1, r) := step;
    if r.Err? then (st1, Err(r.error))
    else if |st1.registry| > maxWords then (st1, Ok(1))
    else
      var (st2, r2) := BuildSpec(f, maxWords, st1, rest);
      (st2, if r2.Ok? then Ok(r2.value + 1) else r2)
  }

  /** The elements applied one after another, with no budget and no stop. */
  function Apply(f: Step, st: DocState, es: seq<Element>): DocState
    decreases |es|
  {
    if es == [] then st
    else Apply(f, f(st, es[0]).0, es[1..])
  }

  lemma ApplyCons(f: Step, st: DocState, es: seq<Element>, j: nat)
    requires 0 < j <= |es|
    ensures Apply(f, st, es[..j]) == Apply(f, f(st, es[0]).0, es[1..][..j - 1])
  {
    assert es[..j][0] == es[0];
    assert es[..j][1..] == es[1..][..j - 1];
  }

  /** The budget rule: when the loop ends without error after k elements,
      the document is the first k elements applied in order, each of them
      succeeded, the word count stayed within the budget after every element
      before the k-th, and the loop stopped early only because the k-th
      element took the count over the budget. */
  lemma {:induction false} BuildSpecBudget(f: Step, maxWords: int, st: DocState, es: seq<Element>)
    ensures var (st', r) := BuildSpec(f, maxWords, st, es);
      r.Ok? ==>
        var k := r.value;
        k <= |es| && (es != [] ==> k >= 1) &&
        st' == Apply(f, st, es[..k]) &&
        (forall j :: 0 <= j < k ==> f(Apply(f, st, es[..j]), es[j]).1.Ok?) &&
        (forall j :: 0 < j < k ==> |Apply(f, st, es[..j]).registry| <= maxWords) &&
        (k < |es| ==> |st'.registry| > maxWords)
    decreases |es|
  {
    if es == [] {
      assert es[..0] == [];
    } else {
      var (st1, r) := f(st, es[0]);
      var rest := es[1..];
      assert BuildSpec(f, maxWords, st, es) == Continue(f, maxWords, (st1, r), rest);
      assert Apply(f, st, es[..0]) == st by {
        assert es[..0] == [];
      }
      if r.Ok? {
        if |st1.registry| > maxWords {
          assert Apply(f, st, es[..1]) == st1 by {
            ApplyCons(f, st, es, 1);
            assert rest[..0] == [];
          }
        } else {
          BuildSpecBudget(f, maxWords, st1, rest);
          var (st2, r2) := BuildSpec(f, maxWords, st1, rest);
          if r2.Ok? {
            var k := r2.value + 1;
            forall j | 0 < j <= k
              ensures Apply(f, st, es[..j]) == Apply(f, st1, rest[..j - 1])
            {
              ApplyCons(f, st, es, j);
            }
            assert Apply(f, st1, rest[..0]) == st1 by {
              assert rest[..0] == [];
            }
            forall j | 0 <= j < k
              ensures f(Apply(f, st, es[..j]), es[j]).1.Ok?
            {
              if j > 0 {
                assert es[j] == rest[j - 1];
              }
            }
          }
        }
      }
    }
  }

  lemma ElementSpecInv(colors: seq<string>, maxRows: int, maxCols: int, st: DocState, e: Element)
    requires DocInv(colors, st)
    ensures DocInv(colors, ElementSpec(colors, maxRows, maxCols, st, e).0)
  {
    match e
    case Para(children) => TextSpecInv(colors, st, children);
    case Head(level, text) => HeadingSpecInv(colors, st, level, text);
    case TableEl(rows) => TableSpecInv(colors, maxRows, maxCols, st, rows);
  }

  lemma {:induction false} BuildSpecInv(colors: seq<string>, maxRows: int, maxCols: int, maxWords: int, st: DocState, es: seq<Element>)
    requires DocInv(colors, st)
    ensures DocInv(colors, BuildSpec(ElementStep(colors, maxRows, maxCols), maxWords, st, es).0)
    decreases |es|
  {
    if es != [] {
      ElementSpecInv(colors, maxRows, maxCols, st, es[0]);
      var st1 := ElementSpec(colors, maxRows, maxCols, st, es[0]).0;
      BuildSpecInv(colors, maxRows, maxCols, maxWords, st1, es[1..]);
    }
  }

  /** The loop result from element i on, counted from the start. */
  function Shifted(p: (DocState, Result<nat>), i: nat): (DocState, Result<nat>)
  {
    (p.0, if p.1.Ok? then Ok(p.1.value + i) else p.1)
  }

  /** One element of the loop, dispatched on its tag. */
  method AddElement(d: DocxDocument, e: Element) returns (res: Result<bool>)
    requires d.Valid()
    modifies d
    ensures d.Valid()
    ensures (d.State(), res) == ElementSpec(d.colors, d.maxRows, d.maxCols, old(d.State()), e)
  {
    match e
    case Para(children) =>
      var ok := d.AddText(children);
      res := if ok then Ok(true) else Err(ColorsExhausted);
    case Head(level, text) =>
      var ok := d.AddHeading(level, text);
      res := if ok then Ok(true) else Err(ColorsExhausted);
    case TableEl(rows) =>
      res := d.AddTable(rows);
  }

  /** From element i on, the loop is element i followed by the rest. */
  lemma BuildStep(f: Step, maxWords: int, st: DocState, es: seq<Element>, i: nat)
    requires i < |es|
    ensures BuildSpec(f, maxWords, st, es[i..]) == Continue(f, maxWords, f(st, es[i]), es[i + 1..])
  {
    assert es[i..][0] == es[i] && es[i..][1..] == es[i + 1..];
  }

  /** Counted from element i: an error stops the loop, so does a count over
      the budget, and otherwise the loop goes on with the next element. */
  lemma ContinueShifted(f: Step, maxWords: int, step: (DocState, Result<bool>), rest: seq<Element>, i: nat)
    ensures step.1.Err? ==> Shifted(Continue(f, maxWords, step, rest), i) == (step.0, Err(step.1.error))
    ensures step.1.Ok? && |step.0.registry| > maxWords ==>
      Shifted(Continue(f, maxWords, step, rest), i) == (step.0, Ok(i + 1))
    ensures step.1.Ok? && |step.0.registry| <= maxWords ==>
      Shifted(Continue(f, maxWords, step, rest), i) == Shifted(BuildSpec(f, maxWords, step.0, rest), i + 1)
  {
  }

  /** The element loop of `create_doc` on the document `d`. */
  method AddElements(d: DocxDocument, elements: seq<Element>, maxWords: int) returns (r: Result<nat>)
    requires d.Valid()
    modifies d
    ensures d.Valid()
    ensures (d.State(), r) == BuildSpec(ElementStep(d.colors, d.maxRows, d.maxCols), maxWords, old(d.State()), elements)
  {
    assert elements[0..] == elements;
    ghost var goal := BuildSpec(ElementStep(d.colors, d.maxRows, d.maxCols), maxWords, d.State(), elements);
    var i := 0;
    while i < |elements|
      invariant 0 <= i <= |elements| && d.Valid()
      invariant Shifted(BuildSpec(ElementStep(d.colors, d.maxRows, d.maxCols), maxWords, d.State(), elements[i..]), i) == goal
    {
      var done;
      done, r := AddStep(d, elements, i, maxWords);
      if done {
        return;
      }
      i := i + 1;
    }
    assert elements[i..] == [];
    r := Ok(i);
  }

  /** Element i of the loop, then the error and budget checks; `done` says
      the loop stops here with result r. */
  method AddStep(d: DocxDocument, elements: seq<Element>, i: nat, maxWords: int) returns (done: bool, r: Result<nat>)
    requires i < |elements| && d.Valid()
    modifies d
    ensures d.Valid()
    ensures done ==> ((d.State(), r) ==
      Shifted(BuildSpec(ElementStep(d.colors, d.maxRows, d.maxCols), maxWords, old(d.State()), elements[i..]), i))
    ensures !done ==> (Shifted(BuildSpec(ElementStep(d.colors, d.maxRows, d.maxCols), maxWords, old(d.State()), elements[i..]), i) ==
      Shifted(BuildSpec(ElementStep(d.colors, d.maxRows, d.maxCols), maxWords, d.State(), elements[i + 1..]), i + 1))
  {
    BuildStep(ElementStep(d.colors, d.maxRows, d.maxCols), maxWords, d.State(), elements, i);
    var res := AddElement(d, elements[i]);
    ContinueShifted(ElementStep(d.colors, d.maxRows, d.maxCols), maxWords, (d.State(), res), elements[i + 1..], i);
    done, r := true, Ok(0);
    if res.Err? {
      r := Err(res.error);
    } else if d.NumWords() > maxWords {
      r := Ok(i + 1);
    } else {
      done := false;
    }
  }

  // ---------------------------------------------------------------------------
  // get_bboxes
  // ---------------------------------------------------------------------------

  /** The colour key of a contour: its sampled pixel as '#%02x%02x%02x'. */
  function Key(c: Contour): string
  {
    FormatHex(c.sample)
  }

  /** A contour yields a word exactly when it has four vertices and its
      colour key is registered. */
  predicate Hit(registry: map<string, string>, c: Contour)
  {
    c.vertices == 4 && Key(c) in registry
  }

  /** The box of a contour as corners normalised by the page size. */
  function CornerBox(p: Page, c: Contour): Quad
  {
    Quad(c.x as real / p.width as real, c.y as real / p.height as real,
         (c.x + c.w) as real / p.width as real, (c.y + c.h) as real / p.height as real)
  }

  /** The contour loop of `get_bboxes` over the contours cs, in order. */
  function Extract(registry: map<string, string>, p: Page, cs: seq<Contour>): Annotation
    decreases |cs|
  {
    if cs == [] then Annotation([], [])
    else
      var a := Extract(registry, p, cs[..|cs| - 1]);
      var c := cs[|cs| - 1];
      if Hit(registry, c) then Annotation(a.words + [registry[Key(c)]], a.bboxes + [CornerBox(p, c)])
      else a
  }

  /** The annotation of one page. */
  function PageAnnotation(registry: map<string, string>, p: Page): Annotation
  {
    Extract(registry, p, p.contours)
  }

  /** The contours that yield a word, in order: the reference filter. */
  function Kept(registry: map<string, string>, cs: seq<Contour>): (k: seq<Contour>)
    ensures |k| <= |cs|
    ensures forall j :: 0 <= j < |k| ==> Hit(registry, k[j])
  {
    if cs == [] then []
    else (if Hit(registry, cs[0]) then [cs[0]] else []) + Kept(registry, cs[1..])
  }

  function WordsOfKept(registry: map<string, string>, k: seq<Contour>): seq<string>
    requires forall j :: 0 <= j < |k| ==> Hit(registry, k[j])
  {
    seq(|k|, j requires 0 <= j < |k| && Hit(registry, k[j]) => registry[Key(k[j])])
  }

  function BoxesOfKept(p: Page, k: seq<Contour>): seq<Quad>
  {
    seq(|k|, j requires 0 <= j < |k| => CornerBox(p, k[j]))
  }

  lemma {:induction false} KeptAppend(registry: map<string, string>, a: seq<Contour>, b: seq<Contour>)
    ensures Kept(registry, a + b) == Kept(registry, a) + Kept(registry, b)
    decreases |a|
  {
    if a != [] {
      var h := if Hit(registry, a[0]) then [a[0]] else [];
      assert Kept(registry, a + b) == h + Kept(registry, a[1..] + b) by {
        assert (a + b)[0] == a[0] && (a + b)[1..] == a[1..] + b;
      }
      assert Kept(registry, a[1..] + b) == Kept(registry, a[1..]) + Kept(registry, b) by {
        KeptAppend(registry, a[1..], b);
      }
      SeqAssoc(h, Kept(registry, a[1..]), Kept(registry, b));
    } else {
      assert a + b == b;
    }
  }

  /** The contour loop emits, for the contours that pass the filter and in
      their order, the registered word and the normalised corner box; so the
      words and the boxes always have the same length. */
  lemma {:induction false} ExtractIsKept(registry: map<string, string>, p: Page, cs: seq<Contour>)
    ensures var a := Extract(registry, p, cs); var k := Kept(registry, cs);
      a.words == WordsOfKept(registry, k) && a.bboxes == BoxesOfKept(p, k) &&
      |a.words| == |a.bboxes|
    decreases |cs|
  {
    if cs != [] {
      var init, c := cs[..|cs| - 1], cs[|cs| - 1];
      ExtractIsKept(registry, p, init);
      assert cs == init + [c];
      KeptAppend(registry, init, [c]);
      assert Kept(registry, [c]) == if Hit(registry, c) then [c] else [] by {
        assert [c][1..] == [];
      }
    }
  }

  /** The filter keeps exactly the contours that have four vertices and a
      registered colour key. */
  lemma {:induction false} KeptMembers(registry: map<string, string>, cs: seq<Contour>, c: Contour)
    ensures c in Kept(registry, cs) <==> c in cs && Hit(registry, c)
    decreases |cs|
  {
    if cs != [] {
      KeptMembers(registry, cs[1..], c);
      assert cs == [cs[0]] + cs[1..];
    }
  }

  /** The colour trick closes: a four-vertex contour whose sampled pixel is
      exactly the colour a registered colour string encodes is reported with
      the word registered under that string. */
  lemma ColorDecodes(registry: map<string, string>, p: Page, c: Contour, s: string)
    requires IsColorString(s) && s in registry
    requires c.vertices == 4 && ParseHex(s) == Some(c.sample)
    requires c in p.contours
    ensures Hit(registry, c) && registry[Key(c)] == registry[s]
    ensures registry[s] in PageAnnotation(registry, p).words
  {
    FormatParseHex(s, c.sample);
    KeptMembers(registry, p.contours, c);
    ExtractIsKept(registry, p, p.contours);
    var k := Kept(registry, p.contours);
    var j :| 0 <= j < |k| && k[j] == c;
    assert WordsOfKept(registry, k)[j] == registry[s];
  }

  /** The emitted box is the utility conversion of the contour rectangle to
      corners, normalised by the page size; inside the page it lies in the
      unit square. */
  lemma CornerBoxSpec(p: Page, c: Contour)
    ensures CornerBox(p, c) == NormalizeBox(XywhToCorners(Quad(c.x as real, c.y as real, c.w as real, c.h as real)), p.width as real, p.height as real)
    ensures 0 <= c.x && 0 <= c.y && 0 <= c.w && 0 <= c.h && c.x + c.w <= p.width && c.y + c.h <= p.height ==>
      var b := CornerBox(p, c);
      0.0 <= b.a <= 1.0 && 0.0 <= b.b <= 1.0 && 0.0 <= b.c <= 1.0 && 0.0 <= b.d <= 1.0
  {
    if 0 <= c.x && 0 <= c.y && 0 <= c.w && 0 <= c.h && c.x + c.w <= p.width && c.y + c.h <= p.height {
      NormalizeInUnitSquare(Quad(c.x as real, c.y as real, (c.x + c.w) as real, (c.y + c.h) as real), p.width as real, p.height as real);
    }
  }

  // ---------------------------------------------------------------------------
  // The per-page output
  // ---------------------------------------------------------------------------

  /** `astype(int)`: truncation toward zero. */
  function Trunc(r: real): int
  {
    if r >= 0.0 then r.Floor else -((-r).Floor)
  }

  lemma TruncSpec(r: real)
    ensures r >= 0.0 ==> 0 <= Trunc(r) && Trunc(r) as real <= r < Trunc(r) as real + 1.0
    ensures r < 0.0 ==> Trunc(r) <= 0 && r <= Trunc(r) as real < r + 1.0
  {
  }

  /** A corner box after truncation, back in (x, y, w, h) form and normalised
      by the page size. */
  function Renorm(b: Quad, width: Pos, height: Pos): Quad
  {
    var x1, y1, x2, y2 := Trunc(b.a), Trunc(b.b), Trunc(b.c), Trunc(b.d);
    Quad(x1 as real / width as real, y1 as real / height as real,
         (x2 - x1) as real / width as real, (y2 - y1) as real / height as real)
  }

  function RenormAll(boxes: seq<Quad>, width: Pos, height: Pos): seq<Quad>
  {
    seq(|boxes|, k requires 0 <= k < |boxes| => Renorm(boxes[k], width, height))
  }

  function TruncBox(b: Quad): Quad
  {
    Quad(Trunc(b.a) as real, Trunc(b.b) as real, Trunc(b.c) as real, Trunc(b.d) as real)
  }

  /** The column arithmetic of the output is the utility pipeline: truncate,
      convert corners to (x, y, w, h), normalise. */
  lemma RenormIsUtils(boxes: seq<Quad>, width: Pos, height: Pos)
    ensures Ok(RenormAll(boxes, width, height))
         == NormalizeBoxes(ConvertCornersToXywh(seq(|boxes|, k requires 0 <= k < |boxes| => TruncBox(boxes[k]))), width as real, height as real)
  {
    var n := NormalizeBoxes(ConvertCornersToXywh(seq(|boxes|, k requires 0 <= k < |boxes| => TruncBox(boxes[k]))), width as real, height as real);
    assert n.value == RenormAll(boxes, width, height);
  }

  /** The annotation file written for page idx as the n-th output. */
  function PageJson(annotations: seq<Annotation>, pages: seq<Page>, augment: Augmenter, n: nat, idx: nat): Content
    requires idx < |annotations| && idx < |pages|
  {
    var p := pages[idx];
    var aug := augment(n, p, UnnormalizeBoxes(annotations[idx].bboxes, p.width as real, p.height as real));
    Json(Annotation(annotations[idx].words, RenormAll(aug.boxes, p.width, p.height)))
  }

  /** The page loop of `create_doc` from page i on: the annotation of page i
      (an IndexError when there is none or it has no boxes) is remapped to
      the page size and augmented, the image is written as `im_{n}.png`, an
      augmentation that returns no boxes raises, and otherwise the
      renormalised boxes go with the page's words to `im_{n}.png.json` and
      n advances. The result is the files, the counter and the error raised,
      if any. */
  function SaveFrom(folder: string, files: map<Path, Content>, counter: nat, annotations: seq<Annotation>,
                    pages: seq<Page>, augment: Augmenter, i: nat): (map<Path, Content>, nat, Option<Error>)
    requires i <= |pages|
    decreases |pages| - i
  {
    if i == |pages| then (files, counter, None)
    else if i >= |annotations| || annotations[i].bboxes == [] then (files, counter, Some(IndexOutOfRange))
    else
      var p := pages[i];
      var aug := augment(counter, p, UnnormalizeBoxes(annotations[i].bboxes, p.width as real, p.height as real));
      var files1 := files[(folder, ImageName(counter)) := Picture(aug.pixels)];
      if aug.boxes == [] then (files1, counter, Some(IndexOutOfRange))
      else
        var anno := Annotation(annotations[i].words, RenormAll(aug.boxes, p.width, p.height));
        SaveFrom(folder, files1[(folder, JsonName(counter)) := Json(anno)], counter + 1, annotations, pages, augment, i + 1)
  }

  /** The page loop advances the counter once per annotation written, never
      past the pages or the annotations; without an error it writes every
      page from i on; it never removes a file. */
  lemma {:induction false} SaveFromCounter(folder: string, files: map<Path, Content>, counter: nat, annotations: seq<Annotation>,
                                           pages: seq<Page>, augment: Augmenter, i: nat)
    requires i <= |pages|
    ensures var (files', counter', err) := SaveFrom(folder, files, counter, annotations, pages, augment, i);
      counter <= counter' <= counter + |pages| - i &&
      (counter' == counter || i + (counter' - counter) <= |annotations|) &&
      (err.None? ==> counter' == counter + |pages| - i) &&
      files.Keys <= files'.Keys
    decreases |pages| - i
  {
    if i < |pages| && i < |annotations| && annotations[i].bboxes != [] {
      var p := pages[i];
      var aug := augment(counter, p, UnnormalizeBoxes(annotations[i].bboxes, p.width as real, p.height as real));
      var files1 := files[(folder, ImageName(counter)) := Picture(aug.pixels)];
      if aug.boxes != [] {
        var anno := Annotation(annotations[i].words, RenormAll(aug.boxes, p.width, p.height));
        SaveFromCounter(folder, files1[(folder, JsonName(counter)) := Json(anno)], counter + 1, annotations, pages, augment, i + 1);
      }
    }
  }

  /** A file the page loop does not number from the counter on stays as it
      was. */
  lemma {:induction false} SaveFromKeeps(folder: string, files: map<Path, Content>, counter: nat, annotations: seq<Annotation>,
                                         pages: seq<Page>, augment: Augmenter, i: nat, q: Path)
    requires i <= |pages| && q in files
    requires forall n :: counter <= n ==> q != (folder, ImageName(n)) && q != (folder, JsonName(n))
    ensures var files' := SaveFrom(folder, files, counter, annotations, pages, augment, i).0;
      q in files' && files'[q] == files[q]
    decreases |pages| - i
  {
    if i < |pages| && i < |annotations| && annotations[i].bboxes != [] {
      var p := pages[i];
      var aug := augment(counter, p, UnnormalizeBoxes(annotations[i].bboxes, p.width as real, p.height as real));
      var files1 := files[(folder, ImageName(counter)) := Picture(aug.pixels)];
      if aug.boxes != [] {
        var anno := Annotation(annotations[i].words, RenormAll(aug.boxes, p.width, p.height));
        SaveFromKeeps(folder, files1[(folder, JsonName(counter)) := Json(anno)], counter + 1, annotations, pages, augment, i + 1, q);
      }
    }
  }

  /** Every file the page loop adds or rewrites is an output of the
      generator numbered from the old counter to the new one. */
  lemma {:induction false} SaveFromChanged(folder: string, files: map<Path, Content>, counter: nat, annotations: seq<Annotation>,
                                           pages: seq<Page>, augment: Augmenter, i: nat)
    requires i <= |pages|
    ensures var (files', counter', err) := SaveFrom(folder, files, counter, annotations, pages, augment, i);
      forall q :: q in files' && (q !in files || files'[q] != files[q]) ==>
        q.0 == folder && exists n :: counter <= n <= counter' && (q.1 == ImageName(n) || (n < counter' && q.1 == JsonName(n)))
    decreases |pages| - i, 1
  {
    if i < |pages| && i < |annotations| && annotations[i].bboxes != [] {
      SaveFromChangedStep(folder, files, counter, annotations, pages, augment, i);
    }
  }

  /** SaveFromChanged when page i is written. */
  lemma {:induction false} SaveFromChangedStep(folder: string, files: map<Path, Content>, counter: nat, annotations: seq<Annotation>,
                                               pages: seq<Page>, augment: Augmenter, i: nat)
    requires i < |pages| && i < |annotations| && annotations[i].bboxes != []
    ensures var (files', counter', err) := SaveFrom(folder, files, counter, annotations, pages, augment, i);
      forall q :: q in files' && (q !in files || files'[q] != files[q]) ==>
        q.0 == folder && exists n :: counter <= n <= counter' && (q.1 == ImageName(n) || (n < counter' && q.1 == JsonName(n)))
    decreases |pages| - i, 0
  {
    var p := pages[i];
    var aug := augment(counter, p, UnnormalizeBoxes(annotations[i].bboxes, p.width as real, p.height as real));
    var files1 := files[(folder, ImageName(counter)) := Picture(aug.pixels)];
    if aug.boxes != [] {
      var anno := Annotation(annotations[i].words, RenormAll(aug.boxes, p.width, p.height));
      var files2 := files1[(folder, JsonName(counter)) := Json(anno)];
      var (files', counter', err) := SaveFrom(folder, files2, counter + 1, annotations, pages, augment, i + 1);
      assert SaveFrom(folder, files, counter, annotations, pages, augment, i) == (files', counter', err);
      assert counter < counter' by {
        SaveFromCounter(folder, files2, counter + 1, annotations, pages, augment, i + 1);
      }
      assert forall q :: q in files' && (q !in files2 || files'[q] != files2[q]) ==>
        q.0 == folder && exists n :: counter + 1 <= n <= counter' && (q.1 == ImageName(n) || (n < counter' && q.1 == JsonName(n))) by {
        SaveFromChanged(folder, files2, counter + 1, annotations, pages, augment, i + 1);
      }
      forall q | q in files' && (q !in files || files'[q] != files[q])
        ensures q.0 == folder && exists n :: counter <= n <= counter' && (q.1 == ImageName(n) || (n < counter' && q.1 == JsonName(n)))
      {
        if q in files2 && files'[q] == files2[q] {
          if q == (folder, ImageName(counter)) {
            assert counter <= counter <= counter' && q.1 == ImageName(counter);
          } else {
            assert q == (folder, JsonName(counter));
            assert counter < counter' && q.1 == JsonName(counter);
          }
        }
      }
    }
  }

  /** The annotation written as the n-th output belongs to page i + (n -
      counter): it carries that page's words and exactly the renormalised
      boxes the augmentation returned for it. */
  lemma {:induction false} SaveFromJson(folder: string, files: map<Path, Content>, counter: nat, annotations: seq<Annotation>,
                                        pages: seq<Page>, augment: Augmenter, i: nat)
    requires i <= |pages|
    ensures var (files', counter', err) := SaveFrom(folder, files, counter, annotations, pages, augment, i);
      forall n :: counter <= n < counter' ==>
        i + (n - counter) < |annotations| && i + (n - counter) < |pages| &&
        (folder, JsonName(n)) in files' &&
        files'[(folder, JsonName(n))] == PageJson(annotations, pages, augment, n, i + (n - counter))
    decreases |pages| - i
  {
    SaveFromCounter(folder, files, counter, annotations, pages, augment, i);
    if i < |pages| && i < |annotations| && annotations[i].bboxes != [] {
      var p := pages[i];
      var aug := augment(counter, p, UnnormalizeBoxes(annotations[i].bboxes, p.width as real, p.height as real));
      var files1 := files[(folder, ImageName(counter)) := Picture(aug.pixels)];
      if aug.boxes != [] {
        var anno := Annotation(annotations[i].words, RenormAll(aug.boxes, p.width, p.height));
        var files2 := files1[(folder, JsonName(counter)) := Json(anno)];
        SaveFromJson(folder, files2, counter + 1, annotations, pages, augment, i + 1);
        var q := (folder, JsonName(counter));
        forall n | counter + 1 <= n
          ensures q != (folder, ImageName(n)) && q != (folder, JsonName(n))
        {
          NamesDistinct(n, counter);
          NamesDistinct(counter, n);
        }
        SaveFromKeeps(folder, files2, counter + 1, annotations, pages, augment, i + 1, q);
      }
    }
  }

  // ---------------------------------------------------------------------------
  // create_doc and generate_
  // ---------------------------------------------------------------------------

  /** A document after `convert_to_uncolored_docx`. */
  function UncolorState(st: DocState): DocState
  {
    st.(paragraphs := seq(|st.paragraphs|, p requires 0 <= p < |st.paragraphs| => UncolorParagraph(st.paragraphs[p])),
        tables := seq(|st.tables|, n requires 0 <= n < |st.tables| => UncolorTable(st.tables[n])))
  }

  /** `get_bboxes` over the pages of a rendering. */
  function Annotations(registry: map<string, string>, pages: seq<Page>): seq<Annotation>
  {
    seq(|pages|, i requires 0 <= i < |pages| => PageAnnotation(registry, pages[i]))
  }

  /** The generator's settings: the side of the colour table, the table size
      limits, the word budget and the output folder. */
  datatype Config = Config(side: nat, maxRows: int, maxCols: int, maxWords: int, folder: string)

  function EmptyDoc(): DocState
  {
    DocState(0, map[], [], [])
  }

  /** `create_doc` after a 200 answer: the elements are added to a fresh
      document, the coloured rendering is annotated, the colours are
      stripped, and the plain rendering is saved page by page. The result is
      the document left behind, the files, the counter and the error raised. */
  function ProcessSpec(cfg: Config, files: map<Path, Content>, counter: nat, elements: seq<Element>,
                       render: Renderer, augment: Augmenter): (DocState, map<Path, Content>, nat, Option<Error>)
  {
    var (built, r) := BuildSpec(ElementStep(ColorTable(cfg.side), cfg.maxRows, cfg.maxCols), cfg.maxWords, EmptyDoc(), elements);
    if r.Err? then (built, files, counter, Some(r.error))
    else
      var annotations := Annotations(built.registry, render(built, 1500));
      var plain := UncolorState(built);
      var (files', counter', err) := SaveFrom(cfg.folder, files, counter, annotations, render(plain, 1024), augment, 0);
      (plain, files', counter', err)
  }

  /** `create_doc`: a failed request raises, and a status other than 200
      returns at once, both with a fresh document. */
  function CreateSpec(cfg: Config, files: map<Path, Content>, counter: nat, url: string,
                      fetch: Fetcher, render: Renderer, augment: Augmenter): (DocState, map<Path, Content>, nat, Option<Error>)
  {
    var resp := fetch(url);
    if resp.None? then (EmptyDoc(), files, counter, Some(FetchFailed))
    else if resp.value.status != 200 then (EmptyDoc(), files, counter, None)
    else ProcessSpec(cfg, files, counter, resp.value.elements, render, augment)
  }

  /** A request that fails or answers with a status other than 200 writes
      nothing. */
  lemma CreateSpecBadResponse(cfg: Config, files: map<Path, Content>, counter: nat, url: string,
                              fetch: Fetcher, render: Renderer, augment: Augmenter)
    requires fetch(url).None? || fetch(url).value.status != 200
    ensures var (_, files', counter', _) := CreateSpec(cfg, files, counter, url, fetch, render, augment);
      files' == files && counter' == counter
  {
  }

  /** Every word of a page annotation is a registered word. */
  lemma AnnotationWords(registry: map<string, string>, p: Page)
    ensures forall w :: w in PageAnnotation(registry, p).words ==> w in registry.Values
  {
    ExtractIsKept(registry, p, p.contours);
    var k := Kept(registry, p.contours);
    var a := PageAnnotation(registry, p);
    forall w | w in a.words ensures w in registry.Values {
      var j :| 0 <= j < |a.words| && a.words[j] == w;
      assert w == registry[Key(k[j])];
    }
  }

  /** Every annotation the page loop writes holds only words of the registry
      its annotations were extracted with. */
  lemma SavedWords(folder: string, files: map<Path, Content>, counter: nat, registry: map<string, string>,
                   colored: seq<Page>, pages: seq<Page>, augment: Augmenter)
    ensures var (files', counter', _) := SaveFrom(folder, files, counter, Annotations(registry, colored), pages, augment, 0);
      counter <= counter' &&
      forall n :: counter <= n < counter' ==>
        (folder, JsonName(n)) in files' && files'[(folder, JsonName(n))].Json? &&
        forall w :: w in files'[(folder, JsonName(n))].anno.words ==> w in registry.Values
  {
    var annotations := Annotations(registry, colored);
    SaveFromCounter(folder, files, counter, annotations, pages, augment, 0);
    SaveFromJson(folder, files, counter, annotations, pages, augment, 0);
    var (files', counter', err) := SaveFrom(folder, files, counter, annotations, pages, augment, 0);
    forall n | counter <= n < counter'
      ensures forall w :: w in files'[(folder, JsonName(n))].anno.words ==> w in registry.Values
    {
      AnnotationWords(registry, colored[n - counter]);
    }
  }

  /** Every annotation `create_doc` writes holds only words the document
      registered. */
  lemma ProcessSpecWords(cfg: Config, files: map<Path, Content>, counter: nat, elements: seq<Element>,
                         render: Renderer, augment: Augmenter)
    ensures var (st, files', counter', _) := ProcessSpec(cfg, files, counter, elements, render, augment);
      counter <= counter' &&
      forall n :: counter <= n < counter' ==>
        (cfg.folder, JsonName(n)) in files' && files'[(cfg.folder, JsonName(n))].Json? &&
        forall w :: w in files'[(cfg.folder, JsonName(n))].anno.words ==> w in st.registry.Values
  {
    var (built, r) := BuildSpec(ElementStep(ColorTable(cfg.side), cfg.maxRows, cfg.maxCols), cfg.maxWords, EmptyDoc(), elements);
    if r.Ok? {
      SavedWords(cfg.folder, files, counter, built.registry, render(built, 1500), render(UncolorState(built), 1024), augment);
    }
  }

  lemma CreateSpecWords(cfg: Config, files: map<Path, Content>, counter: nat, url: string,
                        fetch: Fetcher, render: Renderer, augment: Augmenter)
    ensures var (st, files', counter', _) := CreateSpec(cfg, files, counter, url, fetch, render, augment);
      counter <= counter' &&
      forall n :: counter <= n < counter' ==>
        (cfg.folder, JsonName(n)) in files' && files'[(cfg.folder, JsonName(n))].Json? &&
        forall w :: w in files'[(cfg.folder, JsonName(n))].anno.words ==> w in st.registry.Values
  {
    var resp := fetch(url);
    if resp.Some? && resp.value.status == 200 {
      ProcessSpecWords(cfg, files, counter, resp.value.elements, render, augment);
    }
  }

  /** `create_doc` never removes a file and adds or rewrites only numbered
      outputs in the output folder, from the old counter to the new one. */
  lemma CreateSpecOutputs(cfg: Config, files: map<Path, Content>, counter: nat, url: string,
                          fetch: Fetcher, render: Renderer, augment: Augmenter)
    ensures var (_, files', counter', _) := CreateSpec(cfg, files, counter, url, fetch, render, augment);
      counter <= counter' && files.Keys <= files'.Keys &&
      forall q :: q in files' && (q !in files || files'[q] != files[q]) ==>
        q.0 == cfg.folder && exists n :: counter <= n <= counter' && (q.1 == ImageName(n) || q.1 == JsonName(n))
  {
    var resp := fetch(url);
    if resp.Some? && resp.value.status == 200 {
      var (built, r) := BuildSpec(ElementStep(ColorTable(cfg.side), cfg.maxRows, cfg.maxCols), cfg.maxWords, EmptyDoc(), resp.value.elements);
      if r.Ok? {
        var annotations := Annotations(built.registry, render(built, 1500));
        var pages := render(UncolorState(built), 1024);
        SaveFromCounter(cfg.folder, files, counter, annotations, pages, augment, 0);
        SaveFromChanged(cfg.folder, files, counter, annotations, pages, augment, 0);
      }
    }
  }

  /** `generate_` over the URLs: the files and the counter after each
      `create_doc` in turn, whatever it raised. */
  function GenerateSpec(cfg: Config, files: map<Path, Content>, counter: nat, urls: seq<string>,
                        fetch: Fetcher, render: Renderer, augment: Augmenter): (map<Path, Content>, nat)
    decreases |urls|
  {
    if urls == [] then (files, counter)
    else
      var (_, files1, counter1, _) := CreateSpec(cfg, files, counter, urls[0], fetch, render, augment);
      GenerateSpec(cfg, files1, counter1, urls[1..], fetch, render, augment)
  }

  /** Across URLs the counter never goes back, no file is removed, and every
      file added or rewritten is a numbered output in the output folder. */
  lemma {:induction false} GenerateSpecOutputs(cfg: Config, files: map<Path, Content>, counter: nat, urls: seq<string>,
                                               fetch: Fetcher, render: Renderer, augment: Augmenter)
    ensures var (files', counter') := GenerateSpec(cfg, files, counter, urls, fetch, render, augment);
      counter <= counter' && files.Keys <= files'.Keys &&
      forall q :: q in files' && (q !in files || files'[q] != files[q]) ==>
        q.0 == cfg.folder && exists n :: counter <= n <= counter' && (q.1 == ImageName(n) || q.1 == JsonName(n))
    decreases |urls|
  {
    if urls != [] {
      var (_, files1, counter1, _) := CreateSpec(cfg, files, counter, urls[0], fetch, render, augment);
      CreateSpecOutputs(cfg, files, counter, urls[0], fetch, render, augment);
      GenerateSpecOutputs(cfg, files1, counter1, urls[1..], fetch, render, augment);
      var (files', counter') := GenerateSpec(cfg, files1, counter1, urls[1..], fetch, render, augment);
      forall q | q in files' && (q !in files || files'[q] != files[q])
        ensures q.0 == cfg.folder && exists n :: counter <= n <= counter' && (q.1 == ImageName(n) || q.1 == JsonName(n))
      {
        if q in files1 && files'[q] == files1[q] {
          var n :| counter <= n <= counter1 && (q.1 == ImageName(n) || q.1 == JsonName(n));
          assert counter <= n <= counter';
        }
      }
    }
  }

  /** The bounding boxes in place: columns 0 and 2 scaled by the width, 1
      and 3 by the height, one column at a time. */
  method Remap(a: array<Quad>, width: real, height: real)
    modifies a
    ensures a[..] == UnnormalizeBoxes(old(a[..]), width, height)
  {
    for k := 0 to a.Length
      invariant forall l :: 0 <= l < a.Length ==>
        a[l] == (if l < k then old(a[l]).(a := old(a[l]).a * width) else old(a[l]))
    {
      a[k] := a[k].(a := a[k].a * width);
    }
    for k := 0 to a.Length
      invariant forall l :: 0 <= l < a.Length ==>
        a[l] == (if l < k then old(a[l]).(a := old(a[l]).a * width, b := old(a[l]).b * height)
                 else old(a[l]).(a := old(a[l]).a * width))
    {
      a[k] := a[k].(b := a[k].b * height);
    }
    for k := 0 to a.Length
      invariant forall l :: 0 <= l < a.Length ==>
        a[l] == (if l < k then old(a[l]).(a := old(a[l]).a * width, b := old(a[l]).b * height, c := old(a[l]).c * width)
                 else old(a[l]).(a := old(a[l]).a * width, b := old(a[l]).b * height))
    {
      a[k] := a[k].(c := a[k].c * width);
    }
    for k := 0 to a.Length
      invariant forall l :: 0 <= l < a.Length ==>
        a[l] == (if l < k then UnnormalizeBox(old(a[l]), width, height)
                 else old(a[l]).(a := old(a[l]).a * width, b := old(a[l]).b * height, c := old(a[l]).c * width))
    {
      a[k] := a[k].(d := a[k].d * height);
    }
  }

  /** The per-box column arithmetic of the output, one box at a time. */
  method RenormBoxes(boxes: seq<Quad>, width: Pos, height: Pos) returns (out: seq<Quad>)
    ensures out == RenormAll(boxes, width, height)
  {
    out := [];
    for k := 0 to |boxes|
      invariant |out| == k
      invariant forall l :: 0 <= l < k ==> out[l] == Renorm(boxes[l], width, height)
    {
      var b := boxes[k];
      var x1, y1, x2, y2 := Trunc(b.a), Trunc(b.b), Trunc(b.c), Trunc(b.d);
      out := out + [Quad(x1 as real / width as real, y1 as real / height as real,
                         (x2 - x1) as real / width as real, (y2 - y1) as real / height as real)];
    }
  }

  class DocumentGenerator {
    const cfg: Config
    /** The document of the current URL. */
    var doc: DocxDocument?
    /** The number of the next page to save. */
    var imageCounter: nat
    /** The generator's view of the files on disk. */
    var files: map<Path, Content>

    constructor (config: Config, existing: map<Path, Content>)
      ensures cfg == config && doc == null && imageCounter == 0 && files == existing
    {
      cfg := config;
      doc := null;
      imageCounter := 0;
      files := existing;
    }

    /** `get_bboxes` on the pages of the current document's rendering. */
    method GetBboxes(pages: seq<Page>) returns (annotations: seq<Annotation>)
      requires doc != null
      ensures annotations == Annotations(doc.color2word, pages)
    {
      annotations := [];
      for i := 0 to |pages|
        invariant |annotations| == i
        invariant forall t :: 0 <= t < i ==> annotations[t] == PageAnnotation(doc.color2word, pages[t])
      {
        var p := pages[i];
        var words := [];
        var bboxes := [];
        for j := 0 to |p.contours|
          invariant Annotation(words, bboxes) == Extract(doc.color2word, p, p.contours[..j])
        {
          assert p.contours[..j + 1][..j] == p.contours[..j];
          var c := p.contours[j];
          if c.vertices == 4 {
            var color := FormatHex(c.sample);
            if color in doc.color2word {
              words := words + [doc.color2word[color]];
              bboxes := bboxes + [CornerBox(p, c)];
            }
          }
        }
        assert p.contours[..|p.contours|] == p.contours;
        annotations := annotations + [Annotation(words, bboxes)];
      }
    }

    /** The page loop of `create_doc`. */
    method SavePages(annotations: seq<Annotation>, pages: seq<Page>, augment: Augmenter) returns (err: Option<Error>)
      modifies this`files, this`imageCounter
      ensures (files, imageCounter, err) == SaveFrom(cfg.folder, old(files), old(imageCounter), annotations, pages, augment, 0)
    {
      for i := 0 to |pages|
        invariant SaveFrom(cfg.folder, files, imageCounter, annotations, pages, augment, i)
               == SaveFrom(cfg.folder, old(files), old(imageCounter), annotations, pages, augment, 0)
      {
        err := SavePage(annotations, pages, augment, i);
        if err.Some? {
          return;
        }
      }
      err := None;
    }

    /** One turn of the page loop: page i is augmented and written with its
        annotation, or the loop stops with the error it raises. */
    method SavePage(annotations: seq<Annotation>, pages: seq<Page>, augment: Augmenter, i: nat) returns (err: Option<Error>)
      requires i < |pages|
      modifies this`files, this`imageCounter
      ensures err.None? ==> (SaveFrom(cfg.folder, old(files), old(imageCounter), annotations, pages, augment, i)
                             == SaveFrom(cfg.folder, files, imageCounter, annotations, pages, augment, i + 1))
      ensures err.Some? ==> (SaveFrom(cfg.folder, old(files), old(imageCounter), annotations, pages, augment, i)
                             == (files, imageCounter, err))
    {
      if i >= |annotations| || annotations[i].bboxes == [] {
        return Some(IndexOutOfRange);
      }
      var p := pages[i];
      var bboxes := annotations[i].bboxes;
      var boxes := new Quad[|bboxes|](k requires 0 <= k < |bboxes| => bboxes[k]);
      assert boxes[..] == bboxes;
      Remap(boxes, p.width as real, p.height as real);
      var aug := augment(imageCounter, p, boxes[..]);
      files := files[(cfg.folder, ImageName(imageCounter)) := Picture(aug.pixels)];
      if aug.boxes == [] {
        return Some(IndexOutOfRange);
      }
      var out := RenormBoxes(aug.boxes, p.width, p.height);
      files := files[(cfg.folder, JsonName(imageCounter)) := Json(Annotation(annotations[i].words, out))];
      imageCounter := imageCounter + 1;
      err := None;
    }

    /** `create_doc` after a 200 answer, on the fresh document `d`. */
    method Process(d: DocxDocument, elements: seq<Element>, render: Renderer, augment: Augmenter) returns (err: Option<Error>)
      requires doc == d && d.Valid()
      requires d.colors == ColorTable(cfg.side) && d.maxRows == cfg.maxRows && d.maxCols == cfg.maxCols
      requires d.State() == EmptyDoc()
      modifies d, this`files, this`imageCounter
      ensures doc == d && d.Valid()
      ensures (d.State(), files, imageCounter, err) == ProcessSpec(cfg, old(files), old(imageCounter), elements, render, augment)
    {
      var built := AddElements(d, elements, cfg.maxWords);
      if built.Err? {
        return Some(built.error);
      }
      ghost var st := d.State();
      var colored := render(d.State(), 1500);
      var annotations := GetBboxes(colored);
      d.ConvertToUncolored();
      assert d.State() == UncolorState(st);
      var images := render(d.State(), 1024);
      err := SavePages(annotations, images, augment);
    }

    /** `create_doc` for one URL. */
    method CreateDoc(url: string, fetch: Fetcher, render: Renderer, augment: Augmenter) returns (err: Option<Error>)
      modifies this
      ensures doc != null && fresh(doc) && doc.Valid()
      ensures (doc.State(), files, imageCounter, err) == CreateSpec(cfg, old(files), old(imageCounter), url, fetch, render, augment)
    {
      var d := new DocxDocument(cfg.side, cfg.maxRows, cfg.maxCols);
      doc := d;
      var resp := fetch(url);
      if resp.None? {
        return Some(FetchFailed);
      }
      if resp.value.status != 200 {
        return None;
      }
      err := Process(d, resp.value.elements, render, augment);
    }

    /** `generate_`: every URL in turn, an error in one URL ending that URL
        only. */
    method Generate(urls: seq<string>, fetch: Fetcher, render: Renderer, augment: Augmenter)
      modifies this
      ensures (files, imageCounter) == GenerateSpec(cfg, old(files), old(imageCounter), urls, fetch, render, augment)
    {
      for i := 0 to |urls|
        invariant GenerateSpec(cfg, files, imageCounter, urls[i..], fetch, render, augment)
               == GenerateSpec(cfg, old(files), old(imageCounter), urls, fetch, render, augment)
      {
        assert urls[i..][0] == urls[i] && urls[i..][1..] == urls[i + 1..];
        var _ := CreateDoc(urls[i], fetch, render, augment);
      }
      assert urls[|urls|..] == [];
    }
  }
}
