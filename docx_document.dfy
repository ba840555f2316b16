/** The `DocxDocument` of src/docx_document.py: a document of paragraphs and
    tables whose word runs are tagged with unique-looking colours, the
    colour-to-word registry, the gates around headings and tables, and the
    pass that strips the colours again. */
module DocxDocumentModel {
  import opened Common
  import opened Colors
  import opened TextSplit
  import opened DocxWords

  /** Paragraph styles: `add_heading(level=0)` gives the Title style, other
      levels `Heading<level>`; only the latter have "Heading" in their id. */
  datatype Style = Normal | Title | Heading(level: nat)

  function HeadingStyle(level: nat): Style
  {
    if level == 0 then Title else Heading(level)
  }

  datatype Paragraph = Paragraph(style: Style, runs: seq<Run>)

  /** A table: the border colours appended to its properties (in order), its
      size, and the runs of the first paragraph of each cell that received
      text, keyed by (row, column). */
  datatype Table = Table(borders: seq<string>, rows: nat, cols: nat, cells: map<(nat, nat), seq<Run>>)

  /** A child of an HTML paragraph: its tag name ("" for a bare string, whose
      name is None) and its text. */
  datatype Child = Child(name: string, text: string)

  /** The part of a document the operations read and write. */
  datatype DocState = DocState(ptr: nat, registry: map<string, string>, paragraphs: seq<Paragraph>, tables: seq<Table>)

  /** Every cell key of a table lies inside its grid. */
  ghost predicate Shaped(t: Table)
  {
    forall k :: k in t.cells ==> k.0 < t.rows && k.1 < t.cols
  }

  /** The bookkeeping invariant: the cursor is inside the colour list and every
      registered colour has been handed out. */
  ghost predicate DocInv(colors: seq<string>, st: DocState)
  {
    Handed(colors, st.ptr, st.registry) &&
    (forall n :: 0 <= n < |st.tables| ==> Shaped(st.tables[n]))
  }

  /** The cursor is inside the colour list and every registered colour lies
      before it. */
  ghost predicate Handed(colors: seq<string>, ptr: nat, registry: map<string, string>)
  {
    ptr <= |colors| && forall c :: c in registry ==> c in colors[..ptr]
  }

  // ---------------------------------------------------------------------------
  // add_words as seen by the document
  // ---------------------------------------------------------------------------

  /** What add_words does to the cursor and the metadata keys. */
  lemma AddWordsKeys(colors: seq<string>, runs: seq<Run>, fmt: string, prev: string, first: bool, ptr: nat, text: string)
    requires ptr <= |colors| && |prev| > 0
    ensures var r := AddWordsSpec(colors, runs, fmt, prev, first, ptr, text);
      ptr <= r.ptr <= |colors| &&
      (r.ok ==> forall c :: c in r.metadata ==> c in colors[..r.ptr])
  {
    var st := Placed(runs, prev, map[], ptr, true);
    var words := Pieces(text);
    var r := PlaceAll(colors, fmt, first, st, words);
    var ws := NonEmpty(words);
    assert ptr <= r.ptr <= |colors| && (r.ok ==> r.ptr == ptr + |ws|) by {
      PlaceAllCount(colors, fmt, first, st, words);
    }
    if r.ok {
      var cs := colors[ptr..r.ptr];
      assert r.metadata.Keys == set t | 0 <= t < |cs| :: cs[t] by {
        PlaceAllMetadata(colors, fmt, first, st, words);
        RegisterKeys(map[], cs, ws);
      }
      SliceKeysInPrefix(colors, ptr, r.ptr, cs, r.metadata.Keys);
    }
  }

  /** Every entry of colors[lo..hi] lies in colors[..hi]. */
  lemma SliceKeysInPrefix(colors: seq<string>, lo: nat, hi: nat, cs: seq<string>, keys: set<string>)
    requires lo <= hi <= |colors| && cs == colors[lo..hi]
    requires keys == set t | 0 <= t < |cs| :: cs[t]
    ensures forall c :: c in keys ==> c in colors[..hi]
  {
    forall c | c in keys ensures c in colors[..hi] {
      var t :| 0 <= t < hi - lo && colors[lo..hi][t] == c;
      assert colors[..hi][lo + t] == c;
    }
  }

  // ---------------------------------------------------------------------------
  // add_text
  // ---------------------------------------------------------------------------

  /** What the loop of `add_text` threads from child to child: the colour
      cursor, the registry, and the runs of the new paragraph. */
  datatype Progress = Progress(ptr: nat, registry: map<string, string>, runs: seq<Run>)

  /** The loop of `add_text` from child i on; `first_word` holds for child 0
      only. A child whose words run out of colours ends the loop (the
      exception leaves `add_text` before the registry update). */
  function ChildrenSpec(colors: seq<string>, p: Progress, children: seq<Child>, i: nat, prev: string): (Progress, bool)
    requires i <= |children| && |prev| > 0
    decreases |children| - i
  {
    if i == |children| then (p, true)
    else
      var r := AddWordsSpec(colors, p.runs, children[i].name, prev, i == 0, p.ptr, children[i].text);
      if r.ok then ChildrenSpec(colors, Progress(r.ptr, p.registry + r.metadata, r.runs), children, i + 1, r.prev)
      else (Progress(r.ptr, p.registry, r.runs), false)
  }

  /** One child of the `add_text` loop, given what `add_words` returned for it. */
  lemma ChildrenSpecStep(colors: seq<string>, p: Progress, children: seq<Child>, i: nat, prev: string, r: Placed)
    requires i < |children| && |prev| > 0
    requires r == AddWordsSpec(colors, p.runs, children[i].name, prev, i == 0, p.ptr, children[i].text)
    ensures r.ok ==> (ChildrenSpec(colors, p, children, i, prev) ==
      ChildrenSpec(colors, Progress(r.ptr, p.registry + r.metadata, r.runs), children, i + 1, r.prev))
    ensures !r.ok ==> ChildrenSpec(colors, p, children, i, prev) == (Progress(r.ptr, p.registry, r.runs), false)
  {
  }

  /** `add_text`: a new Normal paragraph, then each child's words in order. */
  function TextSpec(colors: seq<string>, st: DocState, children: seq<Child>): (DocState, bool)
  {
    var res := ChildrenSpec(colors, Progress(st.ptr, st.registry, []), children, 0, " ");
    (st.(ptr := res.0.ptr, registry := res.0.registry, paragraphs := st.paragraphs + [Paragraph(Normal, res.0.runs)]), res.1)
  }

  /** The words of children i.. in order. */
  function ChildWords(children: seq<Child>, i: nat): seq<string>
    requires i <= |children|
    decreases |children| - i
  {
    if i == |children| then [] else WordsOf(children[i].text) + ChildWords(children, i + 1)
  }

  lemma WordsOfPieces(text: string)
    ensures NonEmpty(Pieces(text)) == WordsOf(text)
  {
  }

  /** The children loop fails exactly when the children's words outnumber the
      colours left; otherwise the cursor advances by the number of words. */
  lemma {:induction false} ChildrenSpecCount(colors: seq<string>, p: Progress, children: seq<Child>, i: nat, prev: string)
    requires i <= |children| && |prev| > 0 && p.ptr <= |colors|
    ensures var (p', ok) := ChildrenSpec(colors, p, children, i, prev); var ws := ChildWords(children, i);
      (ok <==> p.ptr + |ws| <= |colors|) &&
      (ok ==> p'.ptr == p.ptr + |ws|)
    decreases |children| - i
  {
    if i < |children| {
      var r := AddWordsSpec(colors, p.runs, children[i].name, prev, i == 0, p.ptr, children[i].text);
      PlaceAllCount(colors, children[i].name, i == 0, Placed(p.runs, prev, map[], p.ptr, true), Pieces(children[i].text));
      WordsOfPieces(children[i].text);
      if r.ok {
        ChildrenSpecCount(colors, Progress(r.ptr, p.registry + r.metadata, r.runs), children, i + 1, r.prev);
      }
    }
  }

  /** One child of `add_text` with enough colours left: its words are placed
      after the paragraph's runs with the next colours, and the loop goes on
      from the next child. */
  lemma ChildStep(colors: seq<string>, p: Progress, children: seq<Child>, i: nat, prev: string)
    returns (r: Placed, p2: Progress)
    requires i < |children| && |prev| > 0
    requires p.ptr + |WordsOf(children[i].text)| <= |colors|
    ensures r.ok && |r.prev| > 0 && r.ptr == p.ptr + |WordsOf(children[i].text)| &&
      TaggedTexts(r.runs) == TaggedTexts(p.runs) + WordsOf(children[i].text) &&
      Fills(r.runs) == Fills(p.runs) + colors[p.ptr..r.ptr] &&
      p2 == Progress(r.ptr, p.registry + r.metadata, r.runs)
    ensures ChildrenSpec(colors, p, children, i, prev) == ChildrenSpec(colors, p2, children, i + 1, r.prev)
  {
    var pst := Placed(p.runs, prev, map[], p.ptr, true);
    var words := Pieces(children[i].text);
    var ws := WordsOf(children[i].text);
    var fmt, first := children[i].name, i == 0;
    r := AddWordsSpec(colors, p.runs, fmt, prev, first, p.ptr, children[i].text);
    assert r == PlaceAll(colors, fmt, first, pst, words);
    assert NonEmpty(words) == ws by {
      WordsOfPieces(children[i].text);
    }
    assert r.ok && r.ptr == p.ptr + |ws| by {
      PlaceAllCount(colors, fmt, first, pst, words);
    }
    assert TaggedTexts(r.runs) == TaggedTexts(p.runs) + ws by {
      PlaceAllTexts(colors, fmt, first, pst, words);
    }
    assert Fills(r.runs) == Fills(p.runs) + colors[p.ptr..r.ptr] by {
      PlaceAllFills(colors, fmt, first, pst, words);
    }
    p2 := Progress(r.ptr, p.registry + r.metadata, r.runs);
  }

  /** When the children loop succeeds, the paragraph's tagged runs gain
      exactly the children's words, in order. */
  lemma {:induction false} ChildrenSpecTexts(colors: seq<string>, p: Progress, children: seq<Child>, i: nat, prev: string)
    requires i <= |children| && |prev| > 0
    requires p.ptr + |ChildWords(children, i)| <= |colors|
    ensures var p' := ChildrenSpec(colors, p, children, i, prev).0;
      TaggedTexts(p'.runs) == TaggedTexts(p.runs) + ChildWords(children, i)
    decreases |children| - i
  {
    if i < |children| {
      var w := WordsOf(children[i].text);
      var rest := ChildWords(children, i + 1);
      assert ChildWords(children, i) == w + rest;
      var r, p2 := ChildStep(colors, p, children, i, prev);
      ChildrenSpecTexts(colors, p2, children, i + 1, r.prev);
      SeqAssoc(TaggedTexts(p.runs), w, rest);
    } else {
      assert TaggedTexts(p.runs) + [] == TaggedTexts(p.runs);
    }
  }

  /** When the children loop succeeds, the paragraph's tagged runs gain the
      colours handed out meanwhile, in order. */
  lemma {:induction false} ChildrenSpecFills(colors: seq<string>, p: Progress, children: seq<Child>, i: nat, prev: string)
    requires i <= |children| && |prev| > 0
    requires p.ptr + |ChildWords(children, i)| <= |colors|
    ensures var p' := ChildrenSpec(colors, p, children, i, prev).0;
      p.ptr <= p'.ptr <= |colors| &&
      Fills(p'.runs) == Fills(p.runs) + colors[p.ptr..p'.ptr]
    decreases |children| - i, 1
  {
    if i < |children| {
      ChildrenSpecFillsStep(colors, p, children, i, prev);
    } else {
      assert colors[p.ptr..p.ptr] == [];
      assert Fills(p.runs) + [] == Fills(p.runs);
    }
  }

  /** ChildrenSpecFills when child i is still to come. */
  lemma {:induction false} ChildrenSpecFillsStep(colors: seq<string>, p: Progress, children: seq<Child>, i: nat, prev: string)
    requires i < |children| && |prev| > 0
    requires p.ptr + |ChildWords(children, i)| <= |colors|
    ensures var p' := ChildrenSpec(colors, p, children, i, prev).0;
      p.ptr <= p'.ptr <= |colors| &&
      Fills(p'.runs) == Fills(p.runs) + colors[p.ptr..p'.ptr]
    decreases |children| - i, 0
  {
    assert |ChildWords(children, i)| == |WordsOf(children[i].text)| + |ChildWords(children, i + 1)|;
    var r, p2 := ChildStep(colors, p, children, i, prev);
    var res := ChildrenSpec(colors, p2, children, i + 1, r.prev).0;
    assert r.ptr <= res.ptr <= |colors| && Fills(res.runs) == Fills(r.runs) + colors[r.ptr..res.ptr] by {
      ChildrenSpecFills(colors, p2, children, i + 1, r.prev);
    }
    AppendSlices(Fills(p.runs), Fills(r.runs), Fills(res.runs), colors, p.ptr, r.ptr, res.ptr);
  }

  lemma SeqAssoc<T>(a: seq<T>, b: seq<T>, c: seq<T>)
    ensures (a + b) + c == a + (b + c)
  {
  }

  lemma AppendSlices<T>(f0: seq<T>, f1: seq<T>, f2: seq<T>, s: seq<T>, a: nat, b: nat, c: nat)
    requires a <= b <= c <= |s|
    requires f1 == f0 + s[a..b] && f2 == f1 + s[b..c]
    ensures f2 == f0 + s[a..c]
  {
    assert s[a..c] == s[a..b] + s[b..c];
  }

  /** `add_text` adds exactly one Normal paragraph; it succeeds exactly when
      there are colours for all the words of all the children, and then the
      paragraph's tagged runs are those words in order, tagged with the next
      colours of the table in order. */
  lemma TextSpecWords(colors: seq<string>, st: DocState, children: seq<Child>)
    requires st.ptr <= |colors|
    ensures var (st', ok) := TextSpec(colors, st, children); var ws := ChildWords(children, 0);
      var n := |st.paragraphs|;
      |st'.paragraphs| == n + 1 && st'.paragraphs[..n] == st.paragraphs &&
      st'.paragraphs[n].style == Normal && st'.tables == st.tables &&
      (ok <==> st.ptr + |ws| <= |colors|) &&
      (ok ==>
        st'.ptr == st.ptr + |ws| &&
        TaggedTexts(st'.paragraphs[n].runs) == ws &&
        Fills(st'.paragraphs[n].runs) == colors[st.ptr..st'.ptr])
  {
    var p := Progress(st.ptr, st.registry, []);
    ChildrenSpecCount(colors, p, children, 0, " ");
    if st.ptr + |ChildWords(children, 0)| <= |colors| {
      ChildrenSpecTexts(colors, p, children, 0, " ");
      ChildrenSpecFills(colors, p, children, 0, " ");
    }
    assert (st.paragraphs + [Paragraph(Normal, ChildrenSpec(colors, p, children, 0, " ").0.runs)])[..|st.paragraphs|] == st.paragraphs;
  }

  /** The registry loop of `add_text` keeps the registry inside the colours
      handed out. */
  lemma {:induction false} ChildrenSpecInv(colors: seq<string>, p: Progress, children: seq<Child>, i: nat, prev: string)
    requires i <= |children| && |prev| > 0 && Handed(colors, p.ptr, p.registry)
    ensures var p' := ChildrenSpec(colors, p, children, i, prev).0; Handed(colors, p'.ptr, p'.registry)
    decreases |children| - i
  {
    if i < |children| {
      var r := AddWordsSpec(colors, p.runs, children[i].name, prev, i == 0, p.ptr, children[i].text);
      AddWordsKeys(colors, p.runs, children[i].name, prev, i == 0, p.ptr, children[i].text);
      RegistryGrows(colors, p.registry, p.ptr, r.ptr);
      if r.ok {
        ChildrenSpecInv(colors, Progress(r.ptr, p.registry + r.metadata, r.runs), children, i + 1, r.prev);
      }
    }
  }

  /** Registered colours stay handed out when the cursor advances. */
  lemma RegistryGrows(colors: seq<string>, registry: map<string, string>, ptr: nat, ptr': nat)
    requires ptr <= ptr' <= |colors|
    requires forall c :: c in registry ==> c in colors[..ptr]
    ensures forall c :: c in registry ==> c in colors[..ptr']
  {
    forall c | c in registry ensures c in colors[..ptr'] {
      var n :| 0 <= n < ptr && colors[..ptr][n] == c;
      assert colors[..ptr'][n] == c;
    }
  }

  lemma TextSpecInv(colors: seq<string>, st: DocState, children: seq<Child>)
    requires DocInv(colors, st)
    ensures DocInv(colors, TextSpec(colors, st, children).0)
  {
    ChildrenSpecInv(colors, Progress(st.ptr, st.registry, []), children, 0, " ");
  }

  // ---------------------------------------------------------------------------
  // add_heading
  // ---------------------------------------------------------------------------

  /** Whether the paragraph before the last one has a Heading style. */
  predicate AfterHeading(paragraphs: seq<Paragraph>)
  {
    |paragraphs| > 1 && paragraphs[|paragraphs| - 2].style.Heading?
  }

  /** `add_heading`: skipped right after a heading and for the text
      "Contents"; otherwise a heading paragraph with the words, then an empty
      Normal paragraph. */
  function HeadingSpec(colors: seq<string>, st: DocState, level: nat, text: string): (DocState, bool)
  {
    if AfterHeading(st.paragraphs) || text == "Contents" then (st, true)
    else
      var r := AddWordsSpec(colors, [], "", " ", false, st.ptr, text);
      var heading := Paragraph(HeadingStyle(level), r.runs);
      if r.ok then
        (st.(ptr := r.ptr, registry := st.registry + r.metadata,
             paragraphs := st.paragraphs + [heading, Paragraph(Normal, [])]), true)
      else (st.(ptr := r.ptr, paragraphs := st.paragraphs + [heading]), false)
  }

  /** A heading that is not skipped adds a heading paragraph carrying exactly
      its words, tagged with the next colours, and an empty Normal paragraph;
      it fails exactly when the colours run out. */
  lemma HeadingSpecWords(colors: seq<string>, st: DocState, level: nat, text: string)
    requires st.ptr <= |colors| && !AfterHeading(st.paragraphs) && text != "Contents"
    ensures var (st', ok) := HeadingSpec(colors, st, level, text); var ws := WordsOf(text);
      var n := |st.paragraphs|;
      (ok <==> st.ptr + |ws| <= |colors|) &&
      (ok ==>
        st'.ptr == st.ptr + |ws| &&
        st'.paragraphs == st.paragraphs + [st'.paragraphs[n], Paragraph(Normal, [])] &&
        st'.paragraphs[n].style == HeadingStyle(level) &&
        TaggedTexts(st'.paragraphs[n].runs) == ws &&
        Fills(st'.paragraphs[n].runs) == colors[st.ptr..st'.ptr])
  {
    var pst := Placed([], " ", map[], st.ptr, true);
    var words := Pieces(text);
    var ws := WordsOf(text);
    var r := AddWordsSpec(colors, [], "", " ", false, st.ptr, text);
    assert r == PlaceAll(colors, "", false, pst, words);
    assert NonEmpty(words) == ws by {
      WordsOfPieces(text);
    }
    assert (r.ok <==> st.ptr + |ws| <= |colors|) && (r.ok ==> r.ptr == st.ptr + |ws|) by {
      PlaceAllCount(colors, "", false, pst, words);
    }
    if r.ok {
      assert TaggedTexts(r.runs) == ws by {
        PlaceAllTexts(colors, "", false, pst, words);
      }
      assert Fills(r.runs) == colors[st.ptr..r.ptr] by {
        PlaceAllFills(colors, "", false, pst, words);
      }
    }
  }

  /** Two headings in a row: the second one is skipped, since the paragraph
      before the last is then the first heading. */
  lemma ConsecutiveHeadingSkipped(colors: seq<string>, st: DocState, l1: nat, t1: string, l2: nat, t2: string)
    requires 0 < l1 && !AfterHeading(st.paragraphs) && t1 != "Contents"
    requires HeadingSpec(colors, st, l1, t1).1
    ensures var st1 := HeadingSpec(colors, st, l1, t1).0;
      HeadingSpec(colors, st1, l2, t2) == (st1, true)
  {
    var st1 := HeadingSpec(colors, st, l1, t1).0;
    var n := |st.paragraphs|;
    assert st1.paragraphs[|st1.paragraphs| - 2] == st1.paragraphs[n];
  }

  lemma HeadingSpecInv(colors: seq<string>, st: DocState, level: nat, text: string)
    requires DocInv(colors, st)
    ensures DocInv(colors, HeadingSpec(colors, st, level, text).0)
  {
    if !AfterHeading(st.paragraphs) && text != "Contents" {
      AddWordsKeys(colors, [], "", " ", false, st.ptr, text);
      var r := AddWordsSpec(colors, [], "", " ", false, st.ptr, text);
      RegistryGrows(colors, st.registry, st.ptr, r.ptr);
    }
  }

  // ---------------------------------------------------------------------------
  // add_table
  // ---------------------------------------------------------------------------

  /** The widest row. */
  function MaxLen(rows: seq<seq<string>>): nat
    requires |rows| > 0
  {
    if |rows| == 1 then |rows[0]|
    else var m := MaxLen(rows[1..]); if |rows[0]| > m then |rows[0]| else m
  }

  /** MaxLen is the maximum row length. */
  lemma {:induction false} MaxLenSpec(rows: seq<seq<string>>)
    requires |rows| > 0
    ensures forall i :: 0 <= i < |rows| ==> |rows[i]| <= MaxLen(rows)
    ensures exists i :: 0 <= i < |rows| && |rows[i]| == MaxLen(rows)
  {
    if |rows| == 1 {
      assert |rows[0]| == MaxLen(rows);
    } else {
      MaxLenSpec(rows[1..]);
      var i :| 0 <= i < |rows[1..]| && |rows[1..][i]| == MaxLen(rows[1..]);
      assert |rows[i + 1]| == MaxLen(rows[1..]);
      if |rows[0]| > MaxLen(rows[1..]) {
        assert |rows[0]| == MaxLen(rows);
      } else {
        assert |rows[i + 1]| == MaxLen(rows);
      }
      forall k | 0 <= k < |rows| ensures |rows[k]| <= MaxLen(rows) {
        if k > 0 {
          assert rows[k] == rows[1..][k - 1];
        }
      }
    }
  }

  /** The cell texts of the table, each stripped. */
  function Grid(rows: seq<seq<string>>): (g: seq<seq<string>>)
  {
    seq(|rows|, i requires 0 <= i < |rows| => seq(|rows[i]|, j requires 0 <= j < |rows[i]| => Strip(rows[i][j])))
  }

  /** The last table with one more cell filled. */
  function SetCell(tables: seq<Table>, i: nat, j: nat, runs: seq<Run>): seq<Table>
    requires |tables| > 0
  {
    var t := tables[|tables| - 1];
    tables[..|tables| - 1] + [t.(cells := t.cells[(i, j) := runs])]
  }

  /** The cell loops of `add_table` from cell (i, j) on, in row-major order. */
  function CellsSpec(colors: seq<string>, st: DocState, grid: seq<seq<string>>, i: nat, j: nat): (DocState, Result<bool>)
    requires |st.tables| > 0
    requires i <= |grid| && (i < |grid| ==> j <= |grid[i]|)
    decreases |grid| - i, if i < |grid| then |grid[i]| - j else 0
  {
    if i == |grid| then (st, Ok(true))
    else if j == |grid[i]| then CellsSpec(colors, st, grid, i + 1, 0)
    else
      var r := AddWordsSpec(colors, [], "", " ", false, st.ptr, grid[i][j]);
      var st' := st.(ptr := r.ptr, tables := SetCell(st.tables, i, j, r.runs));
      if r.ok then CellsSpec(colors, st'.(registry := st.registry + r.metadata), grid, i, j + 1)
      else (st', Err(ColorsExhausted))
  }

  /** `add_table`: `max` of no rows raises; a table over the size limits is
      skipped (Ok(false)); otherwise a table with white borders is added and
      every cell is filled (Ok(true)). */
  function TableSpec(colors: seq<string>, maxRows: int, maxCols: int, st: DocState, rows: seq<seq<string>>): (DocState, Result<bool>)
  {
    if rows == [] then (st, Err(EmptyTable))
    else
      var grid := Grid(rows);
      var n := |grid|;
      var m := MaxLen(grid);
      if n <= maxRows && m <= maxCols then
        CellsSpec(colors, st.(tables := st.tables + [Table(["FFFFFF"], n, m, map[])]), grid, 0, 0)
      else (st, Ok(false))
  }

  /** The cell loops keep the paragraphs, the number of tables and all but
      the last table, and change the last one only in its cells, each of which
      stays inside the grid. */
  lemma {:induction false} CellsSpecShape(colors: seq<string>, st: DocState, grid: seq<seq<string>>, i: nat, j: nat)
    requires |st.tables| > 0
    requires i <= |grid| && (i < |grid| ==> j <= |grid[i]|)
    requires var t := st.tables[|st.tables| - 1];
      Shaped(t) && t.rows == |grid| && forall r :: 0 <= r < |grid| ==> |grid[r]| <= t.cols
    ensures var st' := CellsSpec(colors, st, grid, i, j).0; var n := |st.tables|;
      st'.paragraphs == st.paragraphs && |st'.tables| == n && st'.tables[..n - 1] == st.tables[..n - 1] &&
      var t := st.tables[n - 1]; var t' := st'.tables[n - 1];
      t'.borders == t.borders && t'.rows == t.rows && t'.cols == t.cols && Shaped(t')
    decreases |grid| - i, if i < |grid| then |grid[i]| - j else 0
  {
    if i < |grid| {
      if j == |grid[i]| {
        CellsSpecShape(colors, st, grid, i + 1, 0);
      } else {
        var r := AddWordsSpec(colors, [], "", " ", false, st.ptr, grid[i][j]);
        var st' := st.(ptr := r.ptr, tables := SetCell(st.tables, i, j, r.runs));
        assert st'.tables[..|st.tables| - 1] == st.tables[..|st.tables| - 1];
        if r.ok {
          CellsSpecShape(colors, st'.(registry := st.registry + r.metadata), grid, i, j + 1);
        }
      }
    }
  }

  /** The cell loops keep the bookkeeping invariant for the registry. */
  lemma {:induction false} CellsSpecRegistry(colors: seq<string>, st: DocState, grid: seq<seq<string>>, i: nat, j: nat)
    requires |st.tables| > 0
    requires i <= |grid| && (i < |grid| ==> j <= |grid[i]|)
    requires st.ptr <= |colors| && forall c :: c in st.registry ==> c in colors[..st.ptr]
    ensures var st' := CellsSpec(colors, st, grid, i, j).0;
      st'.ptr <= |colors| && forall c :: c in st'.registry ==> c in colors[..st'.ptr]
    decreases |grid| - i, if i < |grid| then |grid[i]| - j else 0
  {
    if i < |grid| {
      if j == |grid[i]| {
        CellsSpecRegistry(colors, st, grid, i + 1, 0);
      } else {
        var r := AddWordsSpec(colors, [], "", " ", false, st.ptr, grid[i][j]);
        AddWordsKeys(colors, [], "", " ", false, st.ptr, grid[i][j]);
        RegistryGrows(colors, st.registry, st.ptr, r.ptr);
        if r.ok {
          var st' := st.(ptr := r.ptr, tables := SetCell(st.tables, i, j, r.runs));
          CellsSpecRegistry(colors, st'.(registry := st.registry + r.metadata), grid, i, j + 1);
        }
      }
    }
  }

  /** A table with no rows fails; one over either limit leaves the document
      unchanged; otherwise exactly one table is added, with white borders, one
      row per HTML row and as many columns as the widest row. */
  lemma TableSpecShape(colors: seq<string>, maxRows: int, maxCols: int, st: DocState, rows: seq<seq<string>>)
    ensures var (st', r) := TableSpec(colors, maxRows, maxCols, st, rows);
      (rows == [] ==> st' == st && r == Err(EmptyTable)) &&
      (rows != [] && (|rows| > maxRows || MaxLen(Grid(rows)) > maxCols) ==> st' == st && r == Ok(false)) &&
      (rows != [] && |rows| <= maxRows && MaxLen(Grid(rows)) <= maxCols ==>
        var n := |st.tables|;
        st'.paragraphs == st.paragraphs && |st'.tables| == n + 1 && st'.tables[..n] == st.tables &&
        st'.tables[n].borders == ["FFFFFF"] && st'.tables[n].rows == |rows| &&
        (forall i :: 0 <= i < |rows| ==> |rows[i]| <= st'.tables[n].cols) &&
        (exists i :: 0 <= i < |rows| && |rows[i]| == st'.tables[n].cols) &&
        (r.Ok? ==> r == Ok(true)))
  {
    if rows != [] {
      var grid := Grid(rows);
      MaxLenSpec(grid);
      if |rows| <= maxRows && MaxLen(grid) <= maxCols {
        var st1 := st.(tables := st.tables + [Table(["FFFFFF"], |grid|, MaxLen(grid), map[])]);
        CellsSpecShape(colors, st1, grid, 0, 0);
        CellsSpecOk(colors, st1, grid, 0, 0);
        assert st1.tables[..|st.tables|] == st.tables;
        assert forall i :: 0 <= i < |rows| ==> |grid[i]| == |rows[i]|;
        var w :| 0 <= w < |grid| && |grid[w]| == MaxLen(grid);
        assert |rows[w]| == |grid[w]|;
        var st' := TableSpec(colors, maxRows, maxCols, st, rows).0;
        var n := |st.tables|;
        assert st'.tables[..n] == st.tables by {
          assert st'.tables[..n] == st1.tables[..n];
        }
      }
    }
  }

  /** The cell loops end with Ok(true) or with the exhaustion error. */
  lemma {:induction false} CellsSpecOk(colors: seq<string>, st: DocState, grid: seq<seq<string>>, i: nat, j: nat)
    requires |st.tables| > 0
    requires i <= |grid| && (i < |grid| ==> j <= |grid[i]|)
    ensures var r := CellsSpec(colors, st, grid, i, j).1; r == Ok(true) || r == Err(ColorsExhausted)
    decreases |grid| - i, if i < |grid| then |grid[i]| - j else 0
  {
    if i < |grid| {
      if j == |grid[i]| {
        CellsSpecOk(colors, st, grid, i + 1, 0);
      } else {
        var r := AddWordsSpec(colors, [], "", " ", false, st.ptr, grid[i][j]);
        if r.ok {
          var st' := st.(ptr := r.ptr, tables := SetCell(st.tables, i, j, r.runs));
          CellsSpecOk(colors, st'.(registry := st.registry + r.metadata), grid, i, j + 1);
        }
      }
    }
  }

  lemma TableSpecInv(colors: seq<string>, maxRows: int, maxCols: int, st: DocState, rows: seq<seq<string>>)
    requires DocInv(colors, st)
    ensures DocInv(colors, TableSpec(colors, maxRows, maxCols, st, rows).0)
  {
    if rows != [] {
      var grid := Grid(rows);
      if |grid| <= maxRows && MaxLen(grid) <= maxCols {
        var t := Table(["FFFFFF"], |grid|, MaxLen(grid), map[]);
        var st1 := st.(tables := st.tables + [t]);
        var st' := CellsSpec(colors, st1, grid, 0, 0).0;
        var n := |st.tables|;
        assert Handed(colors, st'.ptr, st'.registry) by {
          CellsSpecRegistry(colors, st1, grid, 0, 0);
        }
        assert |st'.tables| == n + 1 && st'.tables[..n] == st.tables && Shaped(st'.tables[n]) by {
          MaxLenSpec(grid);
          assert st1.tables[..n] == st.tables;
          CellsSpecShape(colors, st1, grid, 0, 0);
        }
        forall k | 0 <= k < |st'.tables| ensures Shaped(st'.tables[k]) {
          if k < n {
            assert st'.tables[k] == st'.tables[..n][k] == st.tables[k];
          }
        }
      }
    }
  }

  // ---------------------------------------------------------------------------
  // convert_to_uncolored_docx
  // ---------------------------------------------------------------------------

  /** A run after the strip pass: black font, and a white fill where it had a
      shading element. */
  function Uncolor(run: Run): Run
  {
    run.(color := Fixed(Black), fill := if run.fill.Some? then Some("#FFFFFF") else None)
  }

  function UncolorRuns(runs: seq<Run>): seq<Run>
  {
    seq(|runs|, k requires 0 <= k < |runs| => Uncolor(runs[k]))
  }

  function UncolorParagraph(p: Paragraph): Paragraph
  {
    p.(runs := UncolorRuns(p.runs))
  }

  /** A table after the strip pass: a black border element appended, every
      cell's runs stripped. */
  function UncolorTable(t: Table): Table
  {
    t.(borders := t.borders + ["000000"], cells := map k | k in t.cells :: UncolorRuns(t.cells[k]))
  }

  /** Two run lists with the same layout: same length, and run by run the same
      text and formatting. */
  predicate SameLayout(a: seq<Run>, b: seq<Run>)
  {
    |a| == |b| &&
    forall k :: 0 <= k < |a| ==>
      a[k].text == b[k].text && a[k].bold == b[k].bold && a[k].italic == b[k].italic && a[k].underline == b[k].underline
  }

  /** The strip pass changes only colours: it keeps the number of runs, every
      run's text and formatting, and which runs have shading; afterwards every
      run is black and every fill is white. */
  lemma UncolorRunsSpec(runs: seq<Run>)
    ensures var out := UncolorRuns(runs);
      SameLayout(runs, out) &&
      (forall k :: 0 <= k < |out| ==> out[k].color == Fixed(Black)) &&
      (forall k :: 0 <= k < |out| ==> (out[k].fill.Some? <==> runs[k].fill.Some?)) &&
      (forall k :: 0 <= k < |out| && out[k].fill.Some? ==> out[k].fill.value == "#FFFFFF")
  {
  }

  /** Stripping twice is stripping once. */
  lemma UncolorIdempotent(runs: seq<Run>)
    ensures UncolorRuns(UncolorRuns(runs)) == UncolorRuns(runs)
  {
  }

  /** After the strip pass no run's fill is a registered colour, because the
      white fill is written in upper case and registered colours are lower
      case. */
  lemma UncolorHidesRegistry(colors: seq<string>, st: DocState, runs: seq<Run>)
    requires DocInv(colors, st)
    requires forall n {:trigger IsColorString(colors[n])} :: 0 <= n < |colors| ==> IsColorString(colors[n])
    ensures forall k :: 0 <= k < |runs| && UncolorRuns(runs)[k].fill.Some? ==>
      UncolorRuns(runs)[k].fill.value !in st.registry
  {
    assert !IsColorString("#FFFFFF") by {
      assert !IsLowerHexDigit("#FFFFFF"[1]);
    }
    forall c | c in st.registry ensures c != "#FFFFFF" {
      var n :| 0 <= n < st.ptr && colors[..st.ptr][n] == c;
      assert IsColorString(colors[n]);
    }
  }

  /** The strip pass leaves no tagged run's fill visible: the tagged texts
      stay, the fills all become white. */
  lemma UncolorKeepsTagged(runs: seq<Run>)
    ensures TaggedTexts(UncolorRuns(runs)) == TaggedTexts(runs)
    ensures Fills(UncolorRuns(runs)) == seq(|Fills(runs)|, _ => "#FFFFFF")
    decreases |runs|
  {
    if runs != [] {
      assert UncolorRuns(runs)[1..] == UncolorRuns(runs[1..]);
      UncolorKeepsTagged(runs[1..]);
    }
  }

  // ---------------------------------------------------------------------------
  // The document object
  // ---------------------------------------------------------------------------

  /** `_list` loops of `add_table`: the stripped text of each cell, row by row. */
  method ParseTable(rows: seq<seq<string>>) returns (parsed: seq<seq<string>>)
    ensures |parsed| == |rows|
    ensures forall i :: 0 <= i < |rows| ==> |parsed[i]| == |rows[i]|
    ensures forall i, j :: 0 <= i < |rows| && 0 <= j < |rows[i]| ==> parsed[i][j] == Strip(rows[i][j])
  {
    parsed := [];
    for i := 0 to |rows|
      invariant |parsed| == i
      invariant forall r :: 0 <= r < i ==> |parsed[r]| == |rows[r]|
      invariant forall r, j :: 0 <= r < i && 0 <= j < |rows[r]| ==> parsed[r][j] == Strip(rows[r][j])
    {
      var row := [];
      for j := 0 to |rows[i]|
        invariant |row| == j
        invariant forall c :: 0 <= c < j ==> row[c] == Strip(rows[i][c])
      {
        row := row + [Strip(rows[i][j])];
      }
      parsed := parsed + [row];
    }
  }

  /** Stripping each run of a list, one run at a time. */
  method UncolorRunList(runs: seq<Run>) returns (out: seq<Run>)
    ensures out == UncolorRuns(runs)
  {
    out := runs;
    for k := 0 to |runs|
      invariant |out| == |runs|
      invariant forall l :: 0 <= l < k ==> out[l] == Uncolor(runs[l])
      invariant forall l :: k <= l < |runs| ==> out[l] == runs[l]
    {
      var run := out[k];
      run := run.(color := Fixed(Black));
      if run.fill.Some? {
        run := run.(fill := Some("#FFFFFF"));
      }
      out := out[k := run];
    }
  }

  /** Stripping a table: append the black border, then walk the grid row by
      row and strip the runs of every cell that has any. */
  method UncolorTableCells(t: Table) returns (t': Table)
    requires Shaped(t)
    ensures t' == UncolorTable(t)
  {
    var cells := t.cells;
    for i := 0 to t.rows
      invariant cells.Keys == t.cells.Keys
      invariant forall k :: k in cells && k.0 < i ==> cells[k] == UncolorRuns(t.cells[k])
      invariant forall k :: k in cells && k.0 >= i ==> cells[k] == t.cells[k]
    {
      for j := 0 to t.cols
        invariant cells.Keys == t.cells.Keys
        invariant forall k :: k in cells && (k.0 < i || (k.0 == i && k.1 < j)) ==> cells[k] == UncolorRuns(t.cells[k])
        invariant forall k :: k in cells && (k.0 > i || (k.0 == i && k.1 >= j)) ==> cells[k] == t.cells[k]
      {
        if (i, j) in cells {
          var out := UncolorRunList(cells[(i, j)]);
          cells := cells[(i, j) := out];
        }
      }
    }
    t' := t.(borders := t.borders + ["000000"], cells := cells);
  }

  class DocxDocument {
    /** The colour table built at construction. */
    const colors: seq<string>
    const maxRows: int
    const maxCols: int
    /** Index of the next colour to hand out. */
    var colorPtr: nat
    /** The colour-to-word registry. */
    var color2word: map<string, string>
    var paragraphs: seq<Paragraph>
    var tables: seq<Table>

    function State(): DocState
      reads this
    {
      DocState(colorPtr, color2word, paragraphs, tables)
    }

    ghost predicate Valid()
      reads this
    {
      (forall n {:trigger IsColorString(colors[n])} :: 0 <= n < |colors| ==> IsColorString(colors[n])) && DocInv(colors, State())
    }

    /** A fresh document whose colour table has side x (x = cube-root floor
        of the word budget, plus 1). */
    constructor (x: nat, tableMaxRows: int, tableMaxCols: int)
      ensures Valid()
      ensures colors == ColorTable(x) && maxRows == tableMaxRows && maxCols == tableMaxCols
      ensures State() == DocState(0, map[], [], [])
    {
      var table := InitColors(x);
      colors := table;
      maxRows := tableMaxRows;
      maxCols := tableMaxCols;
      colorPtr := 0;
      color2word := map[];
      paragraphs := [];
      tables := [];
    }

    /** `color_word`: the colour under the cursor, which then advances; past
        the end of the table the lookup fails and the cursor stays. */
    method ColorWord() returns (r: Result<string>)
      modifies this`colorPtr
      ensures old(colorPtr) < |colors| ==> r == Ok(colors[old(colorPtr)]) && colorPtr == old(colorPtr) + 1
      ensures old(colorPtr) >= |colors| ==> r == Err(ColorsExhausted) && colorPtr == old(colorPtr)
    {
      if colorPtr < |colors| {
        r := Ok(colors[colorPtr]);
        colorPtr := colorPtr + 1;
      } else {
        r := Err(ColorsExhausted);
      }
    }

    /** `add_words` on a paragraph holding `runs`. */
    method AddWords(text: string, runs: seq<Run>, fmt: string, prevWord: string, firstWord: bool) returns (r: Placed)
      requires |prevWord| > 0
      modifies this`colorPtr
      ensures r == AddWordsSpec(colors, runs, fmt, prevWord, firstWord, old(colorPtr), text)
      ensures colorPtr == r.ptr
    {
      var words := Pieces(text);
      r := Placed(runs, prevWord, map[], colorPtr, true);
      var i := 0;
      while i < |words|
        invariant 0 <= i <= |words|
        invariant r.ok && r.ptr == colorPtr && |r.prev| > 0
        invariant PlaceAll(colors, fmt, firstWord, r, words[i..]) == AddWordsSpec(colors, runs, fmt, prevWord, firstWord, old(colorPtr), text)
      {
        assert words[i..] == [words[i]] + words[i + 1..];
        var word := words[i];
        if word != [] {
          var sep := Sep(word, r.prev, firstWord);
          var c := ColorWord();
          if c.Err? {
            r := Placed(r.runs + sep + [UntaggedRun(word)], r.prev, r.metadata, r.ptr, false);
            PlaceAllFailed(colors, fmt, firstWord, r, words[i + 1..]);
            return;
          }
          r := Placed(r.runs + sep + [WordRun(word, c.value, fmt)], word, r.metadata[c.value := word], colorPtr, true);
        }
        i := i + 1;
      }
    }

    /** `add_text` on an HTML paragraph with the given children. */
    method AddText(children: seq<Child>) returns (ok: bool)
      requires Valid()
      modifies this`colorPtr, this`color2word, this`paragraphs
      ensures Valid()
      ensures (State(), ok) == TextSpec(colors, old(State()), children)
    {
      TextSpecInv(colors, State(), children);
      var runs;
      runs, ok := AddChildren(children);
      paragraphs := paragraphs + [Paragraph(Normal, runs)];
    }

    /** The loop of `add_text` over the children, returning the runs of the
        new paragraph (which is appended once they are known, as nothing
        reads it in between). */
    method AddChildren(children: seq<Child>) returns (runs: seq<Run>, ok: bool)
      modifies this`colorPtr, this`color2word
      ensures (Progress(colorPtr, color2word, runs), ok) ==
        ChildrenSpec(colors, Progress(old(colorPtr), old(color2word), []), children, 0, " ")
    {
      runs := [];
      ghost var goal := ChildrenSpec(colors, Progress(colorPtr, color2word, runs), children, 0, " ");
      var prev := " ";
      var i := 0;
      while i < |children|
        invariant 0 <= i <= |children| && |prev| > 0
        invariant ChildrenSpec(colors, Progress(colorPtr, color2word, runs), children, i, prev) == goal
      {
        var more;
        runs, prev, more := AddChild(children, i, runs, prev);
        if !more {
          ok := false;
          return;
        }
        i := i + 1;
      }
      ok := true;
    }

    /** One turn of the `add_text` loop: the words of `children[i]`, and on
        success their colours registered. */
    method AddChild(children: seq<Child>, i: nat, runs: seq<Run>, prev: string)
      returns (runs': seq<Run>, prev': string, ok: bool)
      requires i < |children| && |prev| > 0
      modifies this`colorPtr, this`color2word
      ensures |prev'| > 0
      ensures ok ==> (ChildrenSpec(colors, Progress(old(colorPtr), old(color2word), runs), children, i, prev) ==
        ChildrenSpec(colors, Progress(colorPtr, color2word, runs'), children, i + 1, prev'))
      ensures !ok ==> (ChildrenSpec(colors, Progress(old(colorPtr), old(color2word), runs), children, i, prev) ==
        (Progress(colorPtr, color2word, runs'), false))
    {
      ghost var p := Progress(colorPtr, color2word, runs);
      var r := AddWords(children[i].text, runs, children[i].name, prev, i == 0);
      ChildrenSpecStep(colors, p, children, i, prev, r);
      runs', prev', ok := r.runs, r.prev, r.ok;
      if ok {
        color2word := color2word + r.metadata;
      }
    }

    /** `add_heading` for an `h<level>` element. */
    method AddHeading(level: nat, text: string) returns (ok: bool)
      requires Valid()
      modifies this`colorPtr, this`color2word, this`paragraphs
      ensures Valid()
      ensures (State(), ok) == HeadingSpec(colors, old(State()), level, text)
    {
      ghost var st0 := State();
      HeadingSpecInv(colors, st0, level, text);
      ok := true;
      if !(|paragraphs| > 1 && paragraphs[|paragraphs| - 2].style.Heading?) && text != "Contents" {
        var r := AddWords(text, [], "", " ", false);
        paragraphs := paragraphs + [Paragraph(HeadingStyle(level), r.runs)];
        if r.ok {
          color2word := color2word + r.metadata;
          paragraphs := paragraphs + [Paragraph(Normal, [])];
          assert paragraphs == st0.paragraphs + [Paragraph(HeadingStyle(level), r.runs), Paragraph(Normal, [])];
        } else {
          ok := false;
        }
      }
      assert (State(), ok) == HeadingSpec(colors, st0, level, text);
    }

    /** `add_table` for an HTML table whose rows hold the given cell texts. */
    method AddTable(rows: seq<seq<string>>) returns (r: Result<bool>)
      requires Valid()
      modifies this`colorPtr, this`color2word, this`tables
      ensures Valid()
      ensures (State(), r) == TableSpec(colors, maxRows, maxCols, old(State()), rows)
    {
      TableSpecInv(colors, maxRows, maxCols, State(), rows);
      var parsed := ParseTable(rows);
      assert parsed == Grid(rows) by {
        var g := Grid(rows);
        assert |parsed| == |g|;
        forall i | 0 <= i < |g| ensures parsed[i] == g[i] {
          assert |parsed[i]| == |g[i]|;
        }
      }
      if parsed == [] {
        return Err(EmptyTable);
      }
      var n := |parsed|;
      var m := MaxLen(parsed);
      if !(n <= maxRows && m <= maxCols) {
        return Ok(false);
      }
      tables := tables + [Table(["FFFFFF"], n, m, map[])];
      r := AddCells(parsed);
    }

    /** The cell loops of `add_table`, filling the last table row by row. */
    method AddCells(grid: seq<seq<string>>) returns (r: Result<bool>)
      requires |tables| > 0
      modifies this`colorPtr, this`color2word, this`tables
      ensures (State(), r) == CellsSpec(colors, old(State()), grid, 0, 0)
    {
      ghost var goal := CellsSpec(colors, State(), grid, 0, 0);
      var i := 0;
      while i < |grid|
        invariant 0 <= i <= |grid| && |tables| > 0
        invariant CellsSpec(colors, State(), grid, i, 0) == goal
      {
        var j := 0;
        while j < |grid[i]|
          invariant 0 <= j <= |grid[i]| && |tables| > 0
          invariant CellsSpec(colors, State(), grid, i, j) == goal
        {
          var ok := AddCell(grid, i, j);
          if !ok {
            return Err(ColorsExhausted);
          }
          j := j + 1;
        }
        i := i + 1;
      }
      r := Ok(true);
    }

    /** One cell of `add_table`: the words of `grid[i][j]` become the runs
        of that cell, and on success their colours are registered. */
    method AddCell(grid: seq<seq<string>>, i: nat, j: nat) returns (ok: bool)
      requires |tables| > 0 && i < |grid| && j < |grid[i]|
      modifies this`colorPtr, this`color2word, this`tables
      ensures |tables| > 0
      ensures ok ==> CellsSpec(colors, old(State()), grid, i, j) == CellsSpec(colors, State(), grid, i, j + 1)
      ensures !ok ==> CellsSpec(colors, old(State()), grid, i, j) == (State(), Err(ColorsExhausted))
    {
      var w := AddWords(grid[i][j], [], "", " ", false);
      tables := SetCell(tables, i, j, w.runs);
      ok := w.ok;
      if ok {
        color2word := color2word + w.metadata;
      }
    }

    /** `convert_to_uncolored_docx`: strip every body paragraph, then every
        table. */
    method ConvertToUncolored()
      requires Valid()
      modifies this`paragraphs, this`tables
      ensures Valid()
      ensures paragraphs == seq(|old(paragraphs)|, p requires 0 <= p < |old(paragraphs)| => UncolorParagraph(old(paragraphs)[p]))
      ensures tables == seq(|old(tables)|, n requires 0 <= n < |old(tables)| => UncolorTable(old(tables)[n]))
    {
      for p := 0 to |paragraphs|
        invariant |paragraphs| == |old(paragraphs)| && tables == old(tables)
        invariant forall q :: 0 <= q < p ==> paragraphs[q] == UncolorParagraph(old(paragraphs)[q])
        invariant forall q :: p <= q < |paragraphs| ==> paragraphs[q] == old(paragraphs)[q]
      {
        var out := UncolorRunList(paragraphs[p].runs);
        paragraphs := paragraphs[p := paragraphs[p].(runs := out)];
      }
      for n := 0 to |tables|
        invariant |tables| == |old(tables)| && |paragraphs| == |old(paragraphs)|
        invariant forall q :: 0 <= q < |paragraphs| ==> paragraphs[q] == UncolorParagraph(old(paragraphs)[q])
        invariant forall q :: 0 <= q < n ==> tables[q] == UncolorTable(old(tables)[q])
        invariant forall q :: n <= q < |tables| ==> tables[q] == old(tables)[q]
      {
        assert Shaped(tables[n]);
        var t := UncolorTableCells(tables[n]);
        tables := tables[n := t];
      }
      assert forall q :: 0 <= q < |tables| ==> Shaped(tables[q]);
    }

    /** `get_num_words`: the number of registered colours. */
    function NumWords(): nat
      reads this
    {
      |color2word|
    }
  }

  /** The word count never exceeds the number of colours handed out. */
  lemma NumWordsBound(colors: seq<string>, st: DocState)
    requires DocInv(colors, st)
    ensures |st.registry| <= st.ptr
  {
    var handed := set n | 0 <= n < st.ptr :: colors[n];
    assert st.registry.Keys <= handed by {
      forall c | c in st.registry ensures c in handed {
        var n :| 0 <= n < st.ptr && colors[..st.ptr][n] == c;
        assert colors[n] == c;
      }
    }
    CardImage(colors, st.ptr);
    assert |st.registry| == |st.registry.Keys|;
    SubsetCard(st.registry.Keys, handed);
  }

  lemma {:induction false} CardImage(colors: seq<string>, m: nat)
    requires m <= |colors|
    ensures |set n | 0 <= n < m :: colors[n]| <= m
  {
    if m > 0 {
      CardImage(colors, m - 1);
      var before := set n | 0 <= n < m - 1 :: colors[n];
      assert (set n | 0 <= n < m :: colors[n]) == before + {colors[m - 1]};
    }
  }

  lemma SubsetCard<T>(a: set<T>, b: set<T>)
    requires a <= b
    ensures |a| <= |b|
  {
    if a != {} {
      var x :| x in a;
      SubsetCard(a - {x}, b - {x});
    }
  }
}
