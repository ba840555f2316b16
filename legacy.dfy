/** The single-process generator of original.py, `WikiDatasetGenerator`:
    colour allocation, the word spacing of `add_text`, the contour loop of
    `get_bboxes` (boxes as normalised x, y, w, h), the numbered output
    files, the pipeline order, and the crawler without a language filter.
    The page is given as the texts its `add_text` calls receive; rendering
    and resizing are inputs. */
module LegacyModel {
  import opened Common
  import opened Colors
  import opened TextSplit
  import opened BoxUtils
  import opened FileStore
  import opened DocumentGeneratorModel
  import opened UrlParserModel

  // ---------------------------------------------------------------------------
  // add_text
  // ---------------------------------------------------------------------------

  /** `c in ",.?!:;)»"`: a word starting so gets no space before it. */
  predicate NoSpaceBefore(c: char)
  {
    c == ',' || c == '.' || c == '?' || c == '!' || c == ':' || c == ';' || c == ')' || c == '»'
  }

  /** The space rule: a space run goes before the word unless the word starts
      with closing punctuation or the previous word starts with '«'. */
  predicate NeedsSpace(word: string, prev: string)
    requires word != [] && (NoSpaceBefore(word[0]) || prev != [])
  {
    !NoSpaceBefore(word[0]) && prev[0] != '«'
  }

  /** The colour state and the runs of the paragraph being filled, with the
      previous word. */
  datatype Text = Text(ptr: nat, registry: map<string, string>, runs: seq<string>, prev: string)

  /** The word loop of `add_text` from the given state: a space run if the
      rule asks for it, the word's run, then its colour. Reading the first
      character of an empty previous word raises; so does running out of
      colours ("Need more colors"), after the word's run was added. */
  function AddWordsFrom(colors: seq<string>, t: Text, words: seq<string>): (Text, Option<Error>)
    requires forall k :: 0 <= k < |words| ==> words[k] != []
    decreases |words|
  {
    if words == [] then (t, None)
    else
      var w := words[0];
      if !NoSpaceBefore(w[0]) && t.prev == [] then (t, Some(IndexOutOfRange))
      else
        var spaced := if NeedsSpace(w, t.prev) then t.runs + [" "] else t.runs;
        if t.ptr >= |colors| then (t.(runs := spaced + [w]), Some(ColorsExhausted))
        else AddWordsFrom(colors, Text(t.ptr + 1, t.registry[colors[t.ptr] := w], spaced + [w], w), words[1..])
  }

  /** `add_text(text, paragraph, prev_word=prev)`. */
  function AddTextSpec(colors: seq<string>, t: Text, text: string): (Text, Option<Error>)
  {
    AddWordsFrom(colors, t, WordsOf(text))
  }

  /** The runs one word contributes after the previous word. */
  function Piece(prev: string, w: string): seq<string>
    requires w != [] && prev != []
  {
    if NeedsSpace(w, prev) then [" ", w] else [w]
  }

  function Concat(ps: seq<seq<string>>): seq<string>
  {
    if ps == [] then [] else ps[0] + Concat(ps[1..])
  }

  /** The word before word i: the given previous word for the first. */
  function PrevOf(prev: string, words: seq<string>, i: nat): string
    requires i < |words|
  {
    if i == 0 then prev else words[i - 1]
  }

  /** The runs word by word, each word's piece decided by the word before
      it: the reference the loop is checked against. */
  function Pieces(prev: string, words: seq<string>): seq<seq<string>>
    requires prev != [] && forall k :: 0 <= k < |words| ==> words[k] != []
  {
    seq(|words|, i requires 0 <= i < |words| => Piece(PrevOf(prev, words, i), words[i]))
  }

  lemma PiecesCons(prev: string, words: seq<string>)
    requires prev != [] && |words| > 0 && forall k :: 0 <= k < |words| ==> words[k] != []
    ensures Pieces(prev, words) == [Piece(prev, words[0])] + Pieces(words[0], words[1..])
  {
  }

  /** The word loop succeeds exactly when there are enough colours and the
      first word does not need to read an empty previous word; then every
      word took a colour and the last word is the previous word. */
  lemma {:induction false} AddWordsOutcome(colors: seq<string>, t: Text, words: seq<string>)
    requires forall k :: 0 <= k < |words| ==> words[k] != []
    ensures var (t', err) := AddWordsFrom(colors, t, words);
      (err.None? <==> words == [] || (t.ptr + |words| <= |colors| && (NoSpaceBefore(words[0][0]) || t.prev != []))) &&
      (err.None? ==>
        t'.ptr == t.ptr + |words| &&
        t'.prev == (if words == [] then t.prev else words[|words| - 1]))
    decreases |words|
  {
    if words != [] && (NoSpaceBefore(words[0][0]) || t.prev != []) && t.ptr < |colors| {
      var w := words[0];
      var spaced := if NeedsSpace(w, t.prev) then t.runs + [" "] else t.runs;
      var t1 := Text(t.ptr + 1, t.registry[colors[t.ptr] := w], spaced + [w], w);
      assert AddWordsFrom(colors, t, words) == AddWordsFrom(colors, t1, words[1..]);
      AddWordsOutcome(colors, t1, words[1..]);
    }
  }

  /** Without an error, the runs added are the pieces of the words in order:
      each word preceded by a space run exactly when the rule asks for it. */
  lemma {:induction false} AddWordsRuns(colors: seq<string>, t: Text, words: seq<string>)
    requires forall k :: 0 <= k < |words| ==> words[k] != []
    requires t.prev != []
    ensures var (t', err) := AddWordsFrom(colors, t, words);
      err.None? ==> t'.runs == t.runs + Concat(Pieces(t.prev, words))
    decreases |words|
  {
    if words != [] && t.ptr < |colors| {
      var w := words[0];
      var spaced := if NeedsSpace(w, t.prev) then t.runs + [" "] else t.runs;
      var t1 := Text(t.ptr + 1, t.registry[colors[t.ptr] := w], spaced + [w], w);
      assert AddWordsFrom(colors, t, words) == AddWordsFrom(colors, t1, words[1..]);
      AddWordsRuns(colors, t1, words[1..]);
      PiecesCons(t.prev, words);
      var ps := Pieces(t.prev, words);
      assert ps[0] == Piece(t.prev, w) && ps[1..] == Pieces(w, words[1..]);
      assert t1.runs == t.runs + Piece(t.prev, w);
    }
  }

  /** Without an error, the colours the words took are added to the
      registry and no other key. */
  lemma {:induction false} AddWordsKeys(colors: seq<string>, t: Text, words: seq<string>)
    requires forall k :: 0 <= k < |words| ==> words[k] != []
    requires t.ptr + |words| <= |colors|
    ensures var (t', err) := AddWordsFrom(colors, t, words);
      err.None? ==> forall c :: c in t'.registry <==> c in t.registry || c in colors[t.ptr..t.ptr + |words|]
    decreases |words|
  {
    if words != [] && (NoSpaceBefore(words[0][0]) || t.prev != []) {
      var w := words[0];
      var spaced := if NeedsSpace(w, t.prev) then t.runs + [" "] else t.runs;
      var t1 := Text(t.ptr + 1, t.registry[colors[t.ptr] := w], spaced + [w], w);
      assert AddWordsFrom(colors, t, words) == AddWordsFrom(colors, t1, words[1..]);
      AddWordsKeys(colors, t1, words[1..]);
      var (t', err) := AddWordsFrom(colors, t1, words[1..]);
      if err.None? {
        var used := colors[t.ptr..t.ptr + |words|];
        var rest := colors[t1.ptr..t1.ptr + |words[1..]|];
        assert t1.ptr + |words[1..]| == t.ptr + |words|;
        assert used == [colors[t.ptr]] + rest;
        forall c ensures c in t'.registry <==> c in t.registry || c in used {
          assert c in t'.registry <==> c in t1.registry || c in rest;
          assert c in t1.registry <==> c in t.registry || c == colors[t.ptr];
          assert c in used <==> c == colors[t.ptr] || c in rest;
        }
      }
    }
  }

  /** Without an error, word i is given colour `ptr + i`, and a colour keeps
      the last word given it: word i stays registered when no later word took
      its colour. */
  lemma {:induction false} AddWordsLastWord(colors: seq<string>, t: Text, words: seq<string>, i: nat)
    requires forall k :: 0 <= k < |words| ==> words[k] != []
    requires i < |words| && t.ptr + |words| <= |colors|
    requires colors[t.ptr + i] !in colors[t.ptr + i + 1..t.ptr + |words|]
    ensures var (t', err) := AddWordsFrom(colors, t, words);
      err.None? ==> colors[t.ptr + i] in t'.registry && t'.registry[colors[t.ptr + i]] == words[i]
    decreases |words|
  {
    if NoSpaceBefore(words[0][0]) || t.prev != [] {
      var w := words[0];
      var spaced := if NeedsSpace(w, t.prev) then t.runs + [" "] else t.runs;
      var t1 := Text(t.ptr + 1, t.registry[colors[t.ptr] := w], spaced + [w], w);
      assert AddWordsFrom(colors, t, words) == AddWordsFrom(colors, t1, words[1..]);
      var rest := words[1..];
      if i > 0 {
        assert rest[i - 1] == words[i] && t1.ptr + (i - 1) == t.ptr + i && t1.ptr + |rest| == t.ptr + |words|;
        AddWordsLastWord(colors, t1, rest, i - 1);
      } else {
        var (t', err) := AddWordsFrom(colors, t1, rest);
        if err.None? {
          assert t'.ptr == t.ptr + |words| by {
            AddWordsOutcome(colors, t1, rest);
          }
          assert colors[t.ptr] in t'.registry && t'.registry[colors[t.ptr]] == w by {
            AddWordsKeeps(colors, t1, rest);
            assert colors[t.ptr] !in colors[t1.ptr..t'.ptr];
          }
        }
      }
    }
  }
  /** The texts of one paragraph, with the previous word carried from one
      `add_text` call to the next. */
  function AddTextsFrom(colors: seq<string>, t: Text, texts: seq<string>): (Text, Option<Error>)
    decreases |texts|
  {
    if texts == [] then (t, None)
    else
      var (t1, err) := AddTextSpec(colors, t, texts[0]);
      if err.Some? then (t1, err) else AddTextsFrom(colors, t1, texts[1..])
  }

  // ---------------------------------------------------------------------------
  // get_bboxes
  // ---------------------------------------------------------------------------

  /** The legacy box: the contour rectangle as (x, y, w, h), normalised. */
  function XywhBox(p: Page, c: Contour): Quad
  {
    Quad(c.x as real / p.width as real, c.y as real / p.height as real,
         c.w as real / p.width as real, c.h as real / p.height as real)
  }

  /** The pairs of a page for the kept contours k. */
  function PairsOfKept(registry: map<string, string>, p: Page, k: seq<Contour>): seq<(Quad, string)>
    requires forall j :: 0 <= j < |k| ==> Hit(registry, k[j])
  {
    seq(|k|, j requires 0 <= j < |k| && Hit(registry, k[j]) => (XywhBox(p, k[j]), registry[Key(k[j])]))
  }

  lemma PairsOfKeptSnoc(registry: map<string, string>, p: Page, k: seq<Contour>, l: seq<Contour>)
    requires forall j :: 0 <= j < |k| ==> Hit(registry, k[j])
    requires forall j :: 0 <= j < |l| ==> Hit(registry, l[j])
    ensures PairsOfKept(registry, p, k + l) == PairsOfKept(registry, p, k) + PairsOfKept(registry, p, l)
  {
  }

  /** The annotation list of one page: a (box, word) pair per four-vertex
      contour with a registered colour, in contour order. */
  function LegacyPage(registry: map<string, string>, p: Page): seq<(Quad, string)>
  {
    PairsOfKept(registry, p, Kept(registry, p.contours))
  }

  function LegacyAnnotations(registry: map<string, string>, pages: seq<Page>): seq<seq<(Quad, string)>>
  {
    seq(|pages|, i requires 0 <= i < |pages| => LegacyPage(registry, pages[i]))
  }

  /** The legacy page lists the same words, in the same order, as the
      annotation of the current generator, and its boxes are that
      annotation's corner boxes converted to (x, y, w, h). */
  lemma LegacyPageMatches(registry: map<string, string>, p: Page)
    ensures var pairs := LegacyPage(registry, p); var a := PageAnnotation(registry, p);
      |pairs| == |a.words| == |a.bboxes| &&
      (forall j :: 0 <= j < |pairs| ==> pairs[j].1 == a.words[j]) &&
      (forall j :: 0 <= j < |pairs| ==> pairs[j].0 == ConvertCornersToXywh(a.bboxes)[j])
  {
    ExtractIsKept(registry, p, p.contours);
    var k := Kept(registry, p.contours);
    forall j | 0 <= j < |k| ensures XywhBox(p, k[j]) == CornersToXywh(CornerBox(p, k[j])) {
      var c, w, h := k[j], p.width as real, p.height as real;
      assert (c.x + c.w) as real / w - c.x as real / w == c.w as real / w;
      assert (c.y + c.h) as real / h - c.y as real / h == c.h as real / h;
    }
  }

  // ---------------------------------------------------------------------------
  // save_images_and_annotations
  // ---------------------------------------------------------------------------

  /** The resize to a square of the given side. */
  type Resizer = (Page, nat) -> seq<int>

  /** The file at q holds v. */
  predicate Stored(files: map<Path, Content>, q: Path, v: Content)
  {
    q in files && files[q] == v
  }

  /** The save loop from image i: the resized image under `im_{counter}.png`,
      then the pairs of annotation i as `im_{counter}.png.json`; a missing
      annotation raises after the image was written and its annotation file
      opened for writing, which leaves that file empty. */
  function LegacySave(folder: string, side: nat, files: map<Path, Content>, counter: nat,
                    annotations: seq<seq<(Quad, string)>>, images: seq<Page>, resize: Resizer, i: nat): (map<Path, Content>, nat, Option<Error>)
    requires i <= |images|
    decreases |images| - i
  {
    if i == |images| then (files, counter, None)
    else
      var files1 := files[(folder, ImageName(counter)) := Picture(resize(images[i], side))];
      if i >= |annotations| then (files1[(folder, JsonName(counter)) := Garbled], counter, Some(IndexOutOfRange))
      else LegacySave(folder, side, files1[(folder, JsonName(counter)) := Pairs(annotations[i])], counter + 1, annotations, images, resize, i + 1)
  }

  /** The save loop fails exactly when there are more images than
      annotations; otherwise the counter moves on by one per image. On
      failure the counter stopped at the first image without annotation,
      which is saved, with an empty annotation file beside it. */
  lemma {:induction false} LegacySaveOutcome(folder: string, side: nat, files: map<Path, Content>, counter: nat,
                                             annotations: seq<seq<(Quad, string)>>, images: seq<Page>, resize: Resizer, i: nat)
    requires i <= |images|
    ensures var (files', counter', err) := LegacySave(folder, side, files, counter, annotations, images, resize, i);
      (err.None? <==> i == |images| || |images| <= |annotations|) &&
      (err.None? ==> counter' == counter + |images| - i) &&
      (err.Some? ==>
        var j := if i < |annotations| then |annotations| else i;
        err == Some(IndexOutOfRange) && counter' == counter + (j - i) &&
        Stored(files', (folder, ImageName(counter')), Picture(resize(images[j], side))) &&
        Stored(files', (folder, JsonName(counter')), Garbled))
    decreases |images| - i
  {
    if i < |images| && i < |annotations| {
      var files1 := files[(folder, ImageName(counter)) := Picture(resize(images[i], side))];
      var files2 := files1[(folder, JsonName(counter)) := Pairs(annotations[i])];
      LegacySaveOutcome(folder, side, files2, counter + 1, annotations, images, resize, i + 1);
    }
  }

  /** Numbers from the counter on are the only names the save loop writes. */
  ghost predicate Untouched(folder: string, counter: nat, q: Path)
  {
    forall n: nat :: n >= counter ==> q != (folder, ImageName(n)) && q != (folder, JsonName(n))
  }

  /** The save loop leaves every other file as it was. */
  lemma {:induction false} LegacySaveKeeps(folder: string, side: nat, files: map<Path, Content>, counter: nat,
                                           annotations: seq<seq<(Quad, string)>>, images: seq<Page>, resize: Resizer, i: nat)
    requires i <= |images|
    ensures var (files', counter', err) := LegacySave(folder, side, files, counter, annotations, images, resize, i);
      forall q :: q in files && Untouched(folder, counter, q) ==> Stored(files', q, files[q])
    decreases |images| - i
  {
    if i < |images| && i < |annotations| {
      var files1 := files[(folder, ImageName(counter)) := Picture(resize(images[i], side))];
      var files2 := files1[(folder, JsonName(counter)) := Pairs(annotations[i])];
      LegacySaveKeeps(folder, side, files2, counter + 1, annotations, images, resize, i + 1);
      forall q | q in files && Untouched(folder, counter, q) ensures q in files2 && files2[q] == files[q] && Untouched(folder, counter + 1, q) {
        assert q != (folder, ImageName(counter)) && q != (folder, JsonName(counter));
      }
    }
  }

  /** The names of a later number are not the names of this one. */
  lemma LaterNamesUntouched(folder: string, counter: nat)
    ensures Untouched(folder, counter + 1, (folder, ImageName(counter)))
    ensures Untouched(folder, counter + 1, (folder, JsonName(counter)))
  {
    forall n: nat | n >= counter + 1
      ensures ImageName(n) != ImageName(counter) && JsonName(n) != JsonName(counter) &&
        ImageName(n) != JsonName(counter) && JsonName(n) != ImageName(counter)
    {
      NamesDistinct(n, counter);
      NamesDistinct(counter, n);
    }
  }

  /** The save loop writes image j and its pairs under number
      counter + (j - i), for every image that has an annotation. */
  lemma {:induction false} LegacySaveWrites(folder: string, side: nat, files: map<Path, Content>, counter: nat,
                                            annotations: seq<seq<(Quad, string)>>, images: seq<Page>, resize: Resizer, i: nat)
    requires i <= |images|
    ensures var (files', counter', err) := LegacySave(folder, side, files, counter, annotations, images, resize, i);
      forall j :: i <= j < |images| && j < |annotations| ==>
        Stored(files', (folder, ImageName(counter + (j - i))), Picture(resize(images[j], side))) &&
        Stored(files', (folder, JsonName(counter + (j - i))), Pairs(annotations[j]))
    decreases |images| - i
  {
    if i < |images| && i < |annotations| {
      var files1 := files[(folder, ImageName(counter)) := Picture(resize(images[i], side))];
      var files2 := files1[(folder, JsonName(counter)) := Pairs(annotations[i])];
      LegacySaveWrites(folder, side, files2, counter + 1, annotations, images, resize, i + 1);
      LegacySaveKeeps(folder, side, files2, counter + 1, annotations, images, resize, i + 1);
      LaterNamesUntouched(folder, counter);
      var (files', counter', err) := LegacySave(folder, side, files2, counter + 1, annotations, images, resize, i + 1);
      forall j | i < j < |images| && j < |annotations|
        ensures Stored(files', (folder, ImageName(counter + (j - i))), Picture(resize(images[j], side)))
        ensures Stored(files', (folder, JsonName(counter + (j - i))), Pairs(annotations[j]))
      {
        assert counter + (j - i) == counter + 1 + (j - (i + 1));
      }
    }
  }

  // ---------------------------------------------------------------------------
  // The pipeline
  // ---------------------------------------------------------------------------

  /** The texts of a fetched page, paragraph by paragraph: an error when
      `requests.get` raises, None when the response status is not 200. The
      renderer takes the paragraphs' runs and whether the colours are still
      on to pages. */
  type TextSource = string -> Result<Option<seq<seq<string>>>>
  type LegacyRenderer = (seq<seq<string>>, bool) -> seq<Page>

  /** The generator state the pipeline changes. */
  datatype LState = LState(ptr: nat, registry: map<string, string>, counter: nat,
                           annotations: seq<seq<(Quad, string)>>, files: map<Path, Content>)

  /** `create_colored_docx` over the given paragraphs: each paragraph starts
      with " " as the previous word; the first error stops it. */
  function FillFrom(colors: seq<string>, ptr: nat, registry: map<string, string>, doc: seq<seq<string>>,
                    paragraphs: seq<seq<string>>): (nat, map<string, string>, seq<seq<string>>, Option<Error>)
    decreases |paragraphs|
  {
    if paragraphs == [] then (ptr, registry, doc, None)
    else
      var (t, err) := AddTextsFrom(colors, Text(ptr, registry, [], " "), paragraphs[0]);
      if err.Some? then (t.ptr, t.registry, doc + [t.runs], err)
      else FillFrom(colors, t.ptr, t.registry, doc + [t.runs], paragraphs[1..])
  }

  /** `pipeline(url)`: reset the colour cursor, fill the coloured document
      (a request that raises ends the pipeline there; a status other than
      200 leaves the document empty and goes on), render it, read the
      annotations off the coloured pages with the registry as it is then,
      render again without colours and save those pages with the
      annotations. */
  function PipelineSpec(colors: seq<string>, folder: string, side: nat, st: LState, url: string,
                        fetch: TextSource, render: LegacyRenderer, resize: Resizer): (LState, Option<Error>)
  {
    if fetch(url).Err? then (st.(ptr := 0), Some(fetch(url).error))
    else
      var paragraphs := if fetch(url).value.Some? then fetch(url).value.value else [];
      var (ptr, registry, doc, err) := FillFrom(colors, 0, st.registry, [], paragraphs);
      if err.Some? then (st.(ptr := ptr, registry := registry), err)
      else
        var annotations := LegacyAnnotations(registry, render(doc, true));
        var (files, counter, err') := LegacySave(folder, side, st.files, st.counter, annotations, render(doc, false), resize, 0);
        (LState(ptr, registry, counter, annotations, files), err')
  }

  /** `generate`: the pipeline for each URL; an exception ends that URL only. */
  function LegacyGenerate(colors: seq<string>, folder: string, side: nat, st: LState, urls: seq<string>,
                        fetch: TextSource, render: LegacyRenderer, resize: Resizer): LState
    decreases |urls|
  {
    if urls == [] then st
    else LegacyGenerate(colors, folder, side, PipelineSpec(colors, folder, side, st, urls[0], fetch, render, resize).0,
                      urls[1..], fetch, render, resize)
  }

  lemma {:induction false} FillFromKeeps(colors: seq<string>, ptr: nat, registry: map<string, string>, doc: seq<seq<string>>,
                                         paragraphs: seq<seq<string>>)
    requires ptr <= |colors|
    ensures var (ptr', registry', doc', err) := FillFrom(colors, ptr, registry, doc, paragraphs);
      ptr <= ptr' <= |colors| && registry.Keys <= registry'.Keys &&
      (forall c :: c in registry && c !in colors[ptr..ptr'] ==> registry'[c] == registry[c])
    decreases |paragraphs|
  {
    if paragraphs != [] {
      var (t, err) := AddTextsFrom(colors, Text(ptr, registry, [], " "), paragraphs[0]);
      AddTextsKeeps(colors, Text(ptr, registry, [], " "), paragraphs[0]);
      if err.None? {
        FillFromKeeps(colors, t.ptr, t.registry, doc + [t.runs], paragraphs[1..]);
        var (ptr', registry', doc', err') := FillFrom(colors, t.ptr, t.registry, doc + [t.runs], paragraphs[1..]);
        SliceSplit(colors, ptr, t.ptr, ptr');
      }
    }
  }

  /** A colour outside `colors[i..k]` is outside both halves. */
  lemma SliceSplit(colors: seq<string>, i: nat, j: nat, k: nat)
    requires i <= j <= k <= |colors|
    ensures forall c :: c !in colors[i..k] ==> c !in colors[i..j] && c !in colors[j..k]
  {
    assert colors[i..k] == colors[i..j] + colors[j..k];
  }

  /** Filling only adds colour keys and moves the cursor forward; a colour
      the cursor did not pass keeps its word. */
  lemma {:induction false} AddTextsKeeps(colors: seq<string>, t: Text, texts: seq<string>)
    requires t.ptr <= |colors|
    ensures var (t', err) := AddTextsFrom(colors, t, texts);
      t.ptr <= t'.ptr <= |colors| && t.registry.Keys <= t'.registry.Keys &&
      (forall c :: c in t.registry && c !in colors[t.ptr..t'.ptr] ==> t'.registry[c] == t.registry[c])
    decreases |texts|
  {
    if texts != [] {
      AddWordsKeeps(colors, t, WordsOf(texts[0]));
      var (t1, err) := AddTextSpec(colors, t, texts[0]);
      if err.None? {
        AddTextsKeeps(colors, t1, texts[1..]);
        var (t', err') := AddTextsFrom(colors, t1, texts[1..]);
        SliceSplit(colors, t.ptr, t1.ptr, t'.ptr);
      }
    }
  }

  lemma {:induction false} AddWordsKeeps(colors: seq<string>, t: Text, words: seq<string>)
    requires forall k :: 0 <= k < |words| ==> words[k] != []
    requires t.ptr <= |colors|
    ensures var (t', err) := AddWordsFrom(colors, t, words);
      t.ptr <= t'.ptr <= |colors| && t.registry.Keys <= t'.registry.Keys &&
      (forall c :: c in t.registry && c !in colors[t.ptr..t'.ptr] ==> t'.registry[c] == t.registry[c])
    decreases |words|
  {
    if words != [] && (NoSpaceBefore(words[0][0]) || t.prev != []) && t.ptr < |colors| {
      var w := words[0];
      var spaced := if NeedsSpace(w, t.prev) then t.runs + [" "] else t.runs;
      var t1 := Text(t.ptr + 1, t.registry[colors[t.ptr] := w], spaced + [w], w);
      assert AddWordsFrom(colors, t, words) == AddWordsFrom(colors, t1, words[1..]);
      AddWordsKeeps(colors, t1, words[1..]);
      var (t', err) := AddWordsFrom(colors, t1, words[1..]);
      SliceSplit(colors, t.ptr, t1.ptr, t'.ptr);
      assert colors[t.ptr..t1.ptr] == [colors[t.ptr]];
    }
  }

  /** The pipeline never forgets a colour: `init_doc` resets the cursor but
      not the registry, so every colour this URL did not reach still maps to
      the word an earlier URL gave it, and `get_bboxes` reads it if a contour
      shows that colour. */
  lemma PipelineKeepsRegistry(colors: seq<string>, folder: string, side: nat, st: LState, url: string,
                              fetch: TextSource, render: LegacyRenderer, resize: Resizer)
    ensures var (st', err) := PipelineSpec(colors, folder, side, st, url, fetch, render, resize);
      st'.ptr <= |colors| && st.registry.Keys <= st'.registry.Keys &&
      (forall c :: c in st.registry && c !in colors[..st'.ptr] ==> st'.registry[c] == st.registry[c])
  {
    if fetch(url).Ok? {
      var paragraphs := if fetch(url).value.Some? then fetch(url).value.value else [];
      FillFromKeeps(colors, 0, st.registry, [], paragraphs);
    }
  }

  /** When the document was filled, the pipeline keeps the annotations read
      off the coloured rendering and fails exactly when the plain rendering
      has more pages than the coloured one; otherwise the counter moves on
      by one per page. A status other than 200 still renders and saves the
      empty document; a request that raises changes nothing but the cursor. */
  lemma PipelineCounts(colors: seq<string>, folder: string, side: nat, st: LState, url: string,
                       fetch: TextSource, render: LegacyRenderer, resize: Resizer)
    ensures var (st', err) := PipelineSpec(colors, folder, side, st, url, fetch, render, resize);
      fetch(url).Err? ==>
        err.Some? && st'.ptr == 0 && st'.registry == st.registry && st'.counter == st.counter &&
        st'.annotations == st.annotations && st'.files == st.files
    ensures var (st', err) := PipelineSpec(colors, folder, side, st, url, fetch, render, resize);
      fetch(url).Ok? ==>
      var paragraphs := if fetch(url).value.Some? then fetch(url).value.value else [];
      var (ptr, registry, doc, fillErr) := FillFrom(colors, 0, st.registry, [], paragraphs);
      fillErr.None? ==>
        st'.annotations == LegacyAnnotations(registry, render(doc, true)) &&
        (err.None? <==> |render(doc, false)| <= |render(doc, true)|) &&
        (err.None? ==> st'.counter == st.counter + |render(doc, false)|)
  {
    if fetch(url).Ok? {
      var paragraphs := if fetch(url).value.Some? then fetch(url).value.value else [];
      var (ptr, registry, doc, fillErr) := FillFrom(colors, 0, st.registry, [], paragraphs);
      if fillErr.None? {
        var annotations := LegacyAnnotations(registry, render(doc, true));
        LegacySaveOutcome(folder, side, st.files, st.counter, annotations, render(doc, false), resize, 0);
      }
    }
  }

  /** When the document was filled, the pipeline's files are those the save
      loop leaves. */
  lemma PipelineSaves(colors: seq<string>, folder: string, side: nat, st: LState, url: string,
                      fetch: TextSource, render: LegacyRenderer, resize: Resizer)
    requires fetch(url).Ok?
    ensures var paragraphs := if fetch(url).value.Some? then fetch(url).value.value else [];
      var (ptr, registry, doc, fillErr) := FillFrom(colors, 0, st.registry, [], paragraphs);
      fillErr.None? ==>
        PipelineSpec(colors, folder, side, st, url, fetch, render, resize).0.files ==
        LegacySave(folder, side, st.files, st.counter, LegacyAnnotations(registry, render(doc, true)), render(doc, false), resize, 0).0
  {
  }

  /** The save loop over the plain pages, with the annotations read off the
      coloured ones: number `counter + j` holds plain page j and the pairs
      of coloured page j. */
  lemma SavedPages(folder: string, side: nat, files: map<Path, Content>, counter: nat, registry: map<string, string>,
                   plain: seq<Page>, colored: seq<Page>, resize: Resizer)
    ensures var files' := LegacySave(folder, side, files, counter, LegacyAnnotations(registry, colored), plain, resize, 0).0;
      forall j :: 0 <= j < |plain| && j < |colored| ==>
        Stored(files', (folder, ImageName(counter + j)), Picture(resize(plain[j], side))) &&
        Stored(files', (folder, JsonName(counter + j)), Pairs(LegacyPage(registry, colored[j])))
  {
    var annotations := LegacyAnnotations(registry, colored);
    LegacySaveWrites(folder, side, files, counter, annotations, plain, resize, 0);
    var files' := LegacySave(folder, side, files, counter, annotations, plain, resize, 0).0;
    forall j | 0 <= j < |plain| && j < |colored|
      ensures Stored(files', (folder, ImageName(counter + j)), Picture(resize(plain[j], side)))
      ensures Stored(files', (folder, JsonName(counter + j)), Pairs(LegacyPage(registry, colored[j])))
    {
      assert counter + (j - 0) == counter + j;
      assert annotations[j] == LegacyPage(registry, colored[j]);
    }
  }

  /** When the document was filled, file number `counter + j` holds page j
      of the plain rendering, and its JSON the pairs read off page j of the
      coloured rendering of the same document. */
  lemma PipelineFiles(colors: seq<string>, folder: string, side: nat, st: LState, url: string,
                      fetch: TextSource, render: LegacyRenderer, resize: Resizer)
    ensures var (st', err) := PipelineSpec(colors, folder, side, st, url, fetch, render, resize);
      fetch(url).Ok? ==>
      var paragraphs := if fetch(url).value.Some? then fetch(url).value.value else [];
      var (ptr, registry, doc, fillErr) := FillFrom(colors, 0, st.registry, [], paragraphs);
      fillErr.None? ==>
        forall j :: 0 <= j < |render(doc, false)| && j < |render(doc, true)| ==>
          Stored(st'.files, (folder, ImageName(st.counter + j)), Picture(resize(render(doc, false)[j], side))) &&
          Stored(st'.files, (folder, JsonName(st.counter + j)), Pairs(LegacyPage(registry, render(doc, true)[j])))
  {
    if fetch(url).Ok? {
      var paragraphs := if fetch(url).value.Some? then fetch(url).value.value else [];
      var (ptr, registry, doc, fillErr) := FillFrom(colors, 0, st.registry, [], paragraphs);
      if fillErr.None? {
        var plain, colored := render(doc, false), render(doc, true);
        PipelineSaves(colors, folder, side, st, url, fetch, render, resize);
        SavedPages(folder, side, st.files, st.counter, registry, plain, colored, resize);
        var files' := PipelineSpec(colors, folder, side, st, url, fetch, render, resize).0.files;
        assert files' == LegacySave(folder, side, st.files, st.counter, LegacyAnnotations(registry, colored), plain, resize, 0).0;
        forall j | 0 <= j < |plain| && j < |colored|
          ensures Stored(files', (folder, ImageName(st.counter + j)), Picture(resize(plain[j], side)))
          ensures Stored(files', (folder, JsonName(st.counter + j)), Pairs(LegacyPage(registry, colored[j])))
        {
        }
      }
    }
  }

  // ---------------------------------------------------------------------------
  // The crawler
  // ---------------------------------------------------------------------------

  /** The legacy `is_valid_url`: as the current filter, without languages. */
  predicate LegacyValid(p: UrlParts)
  {
    (p.scheme == "http" || p.scheme == "https") &&
    Contains(p.netloc, "wikipedia.org") &&
    StartsWith(p.path, "/wiki/") && !Contains(p.path, ":") && !Contains(p.path, "/wiki/Main_Page")
  }

  /** The empty string occurs in every host, so the legacy filter is the
      current one with the language list [""]. */
  lemma LegacyValidIsUnfiltered(p: UrlParts)
    ensures LegacyValid(p) <==> IsValidUrl(p, [""])
  {
    assert StartsWith(p.netloc, "");
    assert Contains(p.netloc, [""][0]);
  }

  /** The legacy crawl loop: as the current one, but the whole list is
      returned. The list is also the generator's `urls` field, so the crawl
      yields the list it reached on every exit, beside the result. */
  function LegacyCrawl(urls: seq<string>, ptr: nat, maxUrls: int, split: Splitter, links: Links): (seq<string>, Result<Option<seq<string>>>)
    requires 1 <= |urls| && ptr <= |urls|
    decreases maxUrls - ptr
  {
    if |urls| >= maxUrls then (urls, Ok(Some(urls)))
    else if ptr == |urls| then (urls, Err(IndexOutOfRange))
    else match links(urls[ptr])
      case None => (urls, Ok(None))
      case Some(hrefs) => LegacyCrawl(AddLinks(urls, hrefs, maxUrls, [""], split), ptr + 1, maxUrls, split, links)
  }

  /** The list the crawl reaches starts with the list it was given, what it
      appends is valid and new, it grows only up to the bound, and a
      finished crawl returns exactly that list. */
  lemma {:induction false} LegacyCrawlReach(urls: seq<string>, ptr: nat, maxUrls: int, split: Splitter, links: Links)
    requires 1 <= |urls| && ptr <= |urls|
    ensures var (xs, r) := LegacyCrawl(urls, ptr, maxUrls, split, links);
      |urls| <= |xs| && xs[..|urls|] == urls &&
      (|xs| > |urls| ==> |xs| <= maxUrls) &&
      (forall t :: |urls| <= t < |xs| ==> LegacyValid(split(xs[t])) && xs[t] !in xs[..t]) &&
      (r.Ok? && r.value.Some? ==> r.value.value == xs)
    decreases maxUrls - ptr
  {
    if |urls| < maxUrls && ptr < |urls| && links(urls[ptr]).Some? {
      var r0 := AddLinks(urls, links(urls[ptr]).value, maxUrls, [""], split);
      AddLinksFresh(urls, links(urls[ptr]).value, maxUrls, [""], split);
      assert LegacyCrawl(urls, ptr, maxUrls, split, links) == LegacyCrawl(r0, ptr + 1, maxUrls, split, links);
      LegacyCrawlReach(r0, ptr + 1, maxUrls, split, links);
      ReachStep(urls, r0, LegacyCrawl(r0, ptr + 1, maxUrls, split, links).0, split);
    }
  }

  /** One links pass followed by the rest of the crawl: the URLs appended
      by either are valid and new. */
  lemma ReachStep(urls: seq<string>, r0: seq<string>, xs: seq<string>, split: Splitter)
    requires |urls| <= |r0| <= |xs| && r0[..|urls|] == urls && xs[..|r0|] == r0
    requires forall t :: |urls| <= t < |r0| ==> IsValidUrl(split(r0[t]), [""]) && r0[t] !in r0[..t]
    requires forall t :: |r0| <= t < |xs| ==> LegacyValid(split(xs[t])) && xs[t] !in xs[..t]
    ensures xs[..|urls|] == urls
    ensures forall t :: |urls| <= t < |xs| ==> LegacyValid(split(xs[t])) && xs[t] !in xs[..t]
  {
    assert xs[..|urls|] == xs[..|r0|][..|urls|];
    forall t | |urls| <= t < |r0| ensures LegacyValid(split(xs[t])) && xs[t] !in xs[..t] {
      assert xs[t] == r0[t] && xs[..t] == r0[..t];
      LegacyValidIsUnfiltered(split(xs[t]));
    }
  }

  function DropFirst(r: Result<Option<seq<string>>>): Result<Option<seq<string>>>
  {
    if r.Ok? && r.value.Some? && |r.value.value| >= 1 then Ok(Some(r.value.value[1..])) else r
  }

  /** The two crawls visit the same pages and collect the same list; the
      current one only drops the first URL. */
  lemma {:induction false} LegacyCrawlIsCrawl(urls: seq<string>, ptr: nat, maxUrls: int, split: Splitter, links: Links)
    requires 1 <= |urls| && ptr <= |urls|
    ensures Crawl(urls, ptr, maxUrls, [""], split, links) == DropFirst(LegacyCrawl(urls, ptr, maxUrls, split, links).1)
    ensures LegacyCrawl(urls, ptr, maxUrls, split, links).1.Ok? && LegacyCrawl(urls, ptr, maxUrls, split, links).1.value.Some? ==>
      |LegacyCrawl(urls, ptr, maxUrls, split, links).1.value.value| >= |urls| &&
      LegacyCrawl(urls, ptr, maxUrls, split, links).1.value.value[..|urls|] == urls
    decreases maxUrls - ptr
  {
    if |urls| < maxUrls && ptr < |urls| && links(urls[ptr]).Some? {
      var r := AddLinks(urls, links(urls[ptr]).value, maxUrls, [""], split);
      LegacyCrawlIsCrawl(r, ptr + 1, maxUrls, split, links);
      var l := LegacyCrawl(r, ptr + 1, maxUrls, split, links).1;
      if l.Ok? && l.value.Some? {
        assert l.value.value[..|urls|] == l.value.value[..|r|][..|urls|];
      }
    }
  }

  /** From an empty list `parse_urls` returns the start URL followed by
      what the current crawler returns with the language list [""]; so the
      list is the start URL and then distinct valid URLs, `max_urls` of them
      in all when the bound is at least 1. */
  lemma LegacyParseFresh(start: string, maxUrls: int, split: Splitter, links: Links)
    ensures var r := LegacyCrawl([start], 0, maxUrls, split, links).1;
      r.Ok? && r.value.Some? ==>
        var xs := r.value.value;
        |xs| >= 1 && xs[0] == start &&
        |xs| == (if maxUrls <= 1 then 1 else maxUrls) &&
        (forall a, b :: 0 <= a < b < |xs| ==> xs[a] != xs[b]) &&
        (forall t :: 1 <= t < |xs| ==> LegacyValid(split(xs[t])))
  {
    LegacyCrawlIsCrawl([start], 0, maxUrls, split, links);
    ParseResult(start, maxUrls, [""], split, links);
    var r := LegacyCrawl([start], 0, maxUrls, split, links).1;
    if r.Ok? && r.value.Some? {
      var xs := r.value.value;
      var ys := xs[1..];
      assert xs == [start] + ys;
      forall a, b | 0 <= a < b < |xs| ensures xs[a] != xs[b] {
        if a > 0 {
          assert xs[a] == ys[a - 1] && xs[b] == ys[b - 1];
        } else {
          assert xs[b] == ys[b - 1];
        }
      }
      forall t | 1 <= t < |xs| ensures LegacyValid(split(xs[t])) {
        assert xs[t] == ys[t - 1];
        LegacyValidIsUnfiltered(split(xs[t]));
      }
    }
  }

  // ---------------------------------------------------------------------------
  // The generator
  // ---------------------------------------------------------------------------

  class WikiDatasetGenerator {
    const colors: seq<string>
    const folder: string
    /** The side of the square the pages are resized to. */
    const side: nat
    var colorPtr: nat
    var color2word: map<string, string>
    var imageCounter: nat
    var annotations: seq<seq<(Quad, string)>>
    var urls: seq<string>
    /** The files of the output folder. */
    var files: map<Path, Content>

    /** The colour table for cube side x, where the source takes
        `int(num_colors ** (1/3)) + 1`. */
    constructor (x: nat, outputFolder: string, resize: nat, existing: map<Path, Content>)
      ensures colors == ColorTable(x) && folder == outputFolder && side == resize
      ensures colorPtr == 0 && color2word == map[] && imageCounter == 0
      ensures annotations == [] && urls == [] && files == existing
    {
      var table := InitColors(x);
      colors := table;
      folder := outputFolder;
      side := resize;
      colorPtr := 0;
      color2word := map[];
      imageCounter := 0;
      annotations := [];
      urls := [];
      files := existing;
    }

    function State(): LState
      reads this
    {
      LState(colorPtr, color2word, imageCounter, annotations, files)
    }

    /** `init_doc`: only the colour cursor of the modelled state is reset. */
    method InitDoc()
      modifies this`colorPtr
      ensures colorPtr == 0
    {
      colorPtr := 0;
    }

    /** `get_color_and_save_word_to_annotation`: the next colour is given to
        the word, or "Need more colors" is raised. */
    method ColorWord(word: string) returns (err: Option<Error>)
      modifies this`colorPtr, this`color2word
      ensures old(colorPtr) < |colors| ==>
        err.None? && colorPtr == old(colorPtr) + 1 && color2word == old(color2word)[colors[old(colorPtr)] := word]
      ensures old(colorPtr) >= |colors| ==>
        err == Some(ColorsExhausted) && colorPtr == old(colorPtr) && color2word == old(color2word)
    {
      if colorPtr >= |colors| {
        return Some(ColorsExhausted);
      }
      var color := colors[colorPtr];
      colorPtr := colorPtr + 1;
      color2word := color2word[color := word];
      return None;
    }

    /** `add_text(text, paragraph, prev_word=prev)` on a paragraph with the
        given runs. */
    method AddText(text: string, runs: seq<string>, prev: string) returns (runs': seq<string>, last: string, err: Option<Error>)
      modifies this`colorPtr, this`color2word
      ensures (Text(colorPtr, color2word, runs', last), err) ==
        AddTextSpec(colors, Text(old(colorPtr), old(color2word), runs, prev), text)
    {
      var words := WordsOf(text);
      runs', last, err := runs, prev, None;
      ghost var t0 := Text(colorPtr, color2word, runs, prev);
      for i := 0 to |words|
        invariant err.None?
        invariant AddWordsFrom(colors, Text(colorPtr, color2word, runs', last), words[i..]) == AddWordsFrom(colors, t0, words)
      {
        assert words[i..][0] == words[i] && words[i..][1..] == words[i + 1..];
        var word := words[i];
        if !NoSpaceBefore(word[0]) && last == [] {
          return runs', last, Some(IndexOutOfRange);
        }
        if !NoSpaceBefore(word[0]) && last[0] != '«' {
          runs' := runs' + [" "];
        }
        runs' := runs' + [word];
        err := ColorWord(word);
        if err.Some? {
          return;
        }
        last := word;
      }
      assert words[|words|..] == [];
    }

    /** The `add_text` calls of one paragraph, the previous word carried. */
    method AddTexts(texts: seq<string>) returns (runs: seq<string>, err: Option<Error>)
      modifies this`colorPtr, this`color2word
      ensures var (t, e) := AddTextsFrom(colors, Text(old(colorPtr), old(color2word), [], " "), texts);
        colorPtr == t.ptr && color2word == t.registry && runs == t.runs && err == e
    {
      runs, err := [], None;
      var prev := " ";
      ghost var t0 := Text(colorPtr, color2word, [], " ");
      for i := 0 to |texts|
        invariant err.None?
        invariant AddTextsFrom(colors, Text(colorPtr, color2word, runs, prev), texts[i..]) == AddTextsFrom(colors, t0, texts)
      {
        assert texts[i..][0] == texts[i] && texts[i..][1..] == texts[i + 1..];
        runs, prev, err := AddText(texts[i], runs, prev);
        if err.Some? {
          return;
        }
      }
      assert texts[|texts|..] == [];
    }

    /** `create_colored_docx` over the fetched paragraphs. */
    method Fill(paragraphs: seq<seq<string>>) returns (doc: seq<seq<string>>, err: Option<Error>)
      modifies this`colorPtr, this`color2word
      ensures (colorPtr, color2word, doc, err) == FillFrom(colors, old(colorPtr), old(color2word), [], paragraphs)
    {
      doc, err := [], None;
      ghost var p0, r0 := colorPtr, color2word;
      for i := 0 to |paragraphs|
        invariant err.None?
        invariant FillFrom(colors, colorPtr, color2word, doc, paragraphs[i..]) == FillFrom(colors, p0, r0, [], paragraphs)
      {
        assert paragraphs[i..][0] == paragraphs[i] && paragraphs[i..][1..] == paragraphs[i + 1..];
        var runs;
        runs, err := AddTexts(paragraphs[i]);
        doc := doc + [runs];
        if err.Some? {
          return;
        }
      }
      assert paragraphs[|paragraphs|..] == [];
    }

    /** `get_bboxes` over the coloured pages. */
    method GetBboxes(pages: seq<Page>)
      modifies this`annotations
      ensures annotations == LegacyAnnotations(color2word, pages)
    {
      var result: seq<seq<(Quad, string)>> := [];
      for i := 0 to |pages|
        invariant result == LegacyAnnotations(color2word, pages[..i])
      {
        var page := pages[i];
        var pageAnnotations: seq<(Quad, string)> := [];
        for j := 0 to |page.contours|
          invariant pageAnnotations == PairsOfKept(color2word, page, Kept(color2word, page.contours[..j]))
        {
          var c := page.contours[j];
          assert page.contours[..j + 1] == page.contours[..j] + [c];
          KeptAppend(color2word, page.contours[..j], [c]);
          assert Kept(color2word, [c]) == if Hit(color2word, c) then [c] else [] by {
            assert [c][1..] == [];
          }
          PairsOfKeptSnoc(color2word, page, Kept(color2word, page.contours[..j]), Kept(color2word, [c]));
          if c.vertices == 4 {
            var color := FormatHex(c.sample);
            if color in color2word {
              pageAnnotations := pageAnnotations + [(XywhBox(page, c), color2word[color])];
            }
          }
        }
        assert page.contours[..|page.contours|] == page.contours;
        assert LegacyAnnotations(color2word, pages[..i + 1]) == LegacyAnnotations(color2word, pages[..i]) + [LegacyPage(color2word, page)];
        result := result + [pageAnnotations];
      }
      assert pages[..|pages|] == pages;
      annotations := result;
    }

    /** `save_images_and_annotations` for the plain pages. */
    method SaveImagesAndAnnotations(images: seq<Page>, resize: Resizer) returns (err: Option<Error>)
      modifies this`files, this`imageCounter
      ensures (files, imageCounter, err) == LegacySave(folder, side, old(files), old(imageCounter), annotations, images, resize, 0)
    {
      ghost var f0, c0 := files, imageCounter;
      for i := 0 to |images|
        invariant LegacySave(folder, side, files, imageCounter, annotations, images, resize, i) == LegacySave(folder, side, f0, c0, annotations, images, resize, 0)
      {
        files := files[(folder, ImageName(imageCounter)) := Picture(resize(images[i], side))];
        if i >= |annotations| {
          files := files[(folder, JsonName(imageCounter)) := Garbled];
          return Some(IndexOutOfRange);
        }
        files := files[(folder, JsonName(imageCounter)) := Pairs(annotations[i])];
        imageCounter := imageCounter + 1;
      }
      return None;
    }

    /** `pipeline(url)`. */
    method Pipeline(url: string, fetch: TextSource, render: LegacyRenderer, resize: Resizer) returns (err: Option<Error>)
      modifies this`colorPtr, this`color2word, this`annotations, this`files, this`imageCounter
      ensures (State(), err) == PipelineSpec(colors, folder, side, old(State()), url, fetch, render, resize)
    {
      InitDoc();
      var page := fetch(url);
      if page.Err? {
        return Some(page.error);
      }
      var paragraphs := if page.value.Some? then page.value.value else [];
      var doc;
      doc, err := Fill(paragraphs);
      if err.Some? {
        return;
      }
      var colored := render(doc, true);
      GetBboxes(colored);
      var plain := render(doc, false);
      err := SaveImagesAndAnnotations(plain, resize);
    }

    /** `generate`: every collected URL in order, errors swallowed. */
    method Generate(fetch: TextSource, render: LegacyRenderer, resize: Resizer)
      modifies this`colorPtr, this`color2word, this`annotations, this`files, this`imageCounter
      ensures State() == LegacyGenerate(colors, folder, side, old(State()), urls, fetch, render, resize)
    {
      for i := 0 to |urls|
        invariant LegacyGenerate(colors, folder, side, State(), urls[i..], fetch, render, resize) ==
          LegacyGenerate(colors, folder, side, old(State()), urls, fetch, render, resize)
      {
        assert urls[i..][0] == urls[i] && urls[i..][1..] == urls[i + 1..];
        var _ := Pipeline(urls[i], fetch, render, resize);
      }
      assert urls[|urls|..] == [];
    }

    /** `parse_urls(start_url, max_urls)`: the start URL is appended to the
        list kept from earlier calls, which is then crawled from its first
        entry and returned whole. */
    method ParseUrls(start: string, maxUrls: int, split: Splitter, links: Links) returns (r: Result<Option<seq<string>>>)
      modifies this`urls
      ensures (urls, r) == LegacyCrawl(old(urls) + [start], 0, maxUrls, split, links)
    {
      var ptr: nat := 0;
      urls := urls + [start];
      while |urls| < maxUrls
        invariant 1 <= |urls| && ptr <= |urls|
        invariant LegacyCrawl(urls, ptr, maxUrls, split, links) == LegacyCrawl(old(urls) + [start], 0, maxUrls, split, links)
        decreases maxUrls - ptr
      {
        if ptr == |urls| {
          return Err(IndexOutOfRange);
        }
        var page := links(urls[ptr]);
        if page.None? {
          return Ok(None);
        }
        urls := AddPageLinks(urls, page.value, maxUrls, [""], split);
        ptr := ptr + 1;
      }
      return Ok(Some(urls));
    }
  }
}
