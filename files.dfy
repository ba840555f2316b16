/** The files the pipeline writes and reads: annotation payloads, file
    contents, and the names the document generator gives its output. A
    directory is a string; a path is a directory and a file name directly
    inside it. */
module FileStore {
  import opened Common
  import opened BoxUtils

  /** The JSON annotation of one page: `{"words": [...], "bboxes": [...]}`. */
  datatype Annotation = Annotation(words: seq<string>, bboxes: seq<Quad>)

  /** What a file holds: image data, an annotation `json.load` reads back
      with both keys present, a JSON list of (box, word) pairs, or anything
      else. */
  datatype Content =
    | Picture(pixels: seq<int>)
    | Json(anno: Annotation)
    | Pairs(entries: seq<(Quad, string)>)
    | Garbled

  type Path = (string, string)

  /** `f"im_{n}.png"`, the n-th page image the generator writes. */
  function ImageName(n: nat): string
  {
    "im_" + DecimalString(n) + ".png"
  }

  /** `f"im_{n}.png.json"`, its annotation. */
  function JsonName(n: nat): string
  {
    ImageName(n) + ".json"
  }

  /** Different counters give different names, images and annotations never
      share a name, and dropping the last five characters of an annotation's
      name gives its image's name. */
  lemma NamesDistinct(n: nat, m: nat)
    ensures ImageName(n) == ImageName(m) ==> n == m
    ensures JsonName(n) == JsonName(m) ==> n == m
    ensures ImageName(n) != JsonName(m)
    ensures JsonName(n)[..|JsonName(n)| - 5] == ImageName(n)
  {
    var dn, dm := DecimalString(n), DecimalString(m);
    if ImageName(n) == ImageName(m) {
      assert |dn| == |dm|;
      assert dn == ImageName(n)[3..3 + |dn|] == ImageName(m)[3..3 + |dm|] == dm;
      DecimalStringInjective(n, m);
    }
    if JsonName(n) == JsonName(m) {
      assert ImageName(n) == JsonName(n)[..|JsonName(n)| - 5] == JsonName(m)[..|JsonName(m)| - 5] == ImageName(m);
      assert dn == ImageName(n)[3..3 + |dn|];
      assert |dn| == |dm|;
      assert dn == ImageName(m)[3..3 + |dm|] == dm;
      DecimalStringInjective(n, m);
    }
    var i, j := ImageName(n), JsonName(m);
    assert i[|i| - 1] == 'g';
    assert j[|j| - 1] == 'n';
  }
}
