/** How `DocxDocument.add_words` turns a text into runs: the separator rule,
    the colouring of each word, and the colour-to-word metadata it returns,
    as specification functions with the properties the rest of the pipeline
    relies on. */
module DocxWords {
  import opened Common
  import opened Colors
  import opened TextSplit

  /** The explicit font colour of a run: none (automatic), the colour read
      from the two-digit hex channels of a colour string (`color_word`), or a
      fixed colour (the uncoloured copy's black). */
  datatype FontColor = Auto | FromHex(hex: string) | Fixed(rgb: Rgb)

  /** The RGB value a font colour stands for; None for automatic, and None
      when the hex channels do not parse (the conversion raises there). */
  function FontRgb(fc: FontColor): Option<Rgb>
  {
    match fc
    case Auto => None
    case FromHex(hex) => ParseHex(hex)
    case Fixed(rgb) => Some(rgb)
  }

  /** A run of a paragraph: its text, the fill of its `w:shd` shading element
      when it has one, its explicit font colour and its bold/italic/underline
      flags. */
  datatype Run = Run(text: string, fill: Option<string>, color: FontColor,
                     bold: bool, italic: bool, underline: bool)

  /** The space run put before a word: four spaces for the first child of a
      paragraph, one otherwise. */
  function SeparatorRun(first: bool): Run
  {
    Run(if first then "    " else " ", None, Auto, false, false, false)
  }

  /** A word run that `color_word` has tagged with `color`: shading fill and
      font colour both set from the colour string; the formatting comes from the
      HTML child's tag name. */
  function WordRun(word: string, color: string, fmt: string): Run
  {
    Run(word, Some(color), FromHex(color), fmt == "b", fmt == "i", fmt == "u")
  }

  /** A word tagged with a colour of the table gets back that colour as its
      font colour, and the colour string as its shading fill. */
  lemma WordRunColor(word: string, c: Rgb, fmt: string)
    ensures WordRun(word, FormatHex(c), fmt).fill == Some(FormatHex(c))
    ensures FontRgb(WordRun(word, FormatHex(c), fmt).color) == Some(c)
  {
    ParseFormatHex(c);
  }

  /** The run added for a word just before `color_word` fails. */
  function UntaggedRun(word: string): Run
  {
    Run(word, None, Auto, false, false, false)
  }

  /** Characters after which no space is put: `«`, `[`, `{`, `(`. */
  predicate IsOpening(c: char)
  {
    c == '«' || c == '[' || c == '{' || c == '('
  }

  /** Characters before which no space is put: `,.?!:;)}]»`. */
  predicate IsClosing(c: char)
  {
    c == ',' || c == '.' || c == '?' || c == '!' || c == ':' || c == ';'
    || c == ')' || c == '}' || c == ']' || c == '»'
  }

  /** Whether a space run goes before `word`: its first character is not
      closing punctuation and the previous word does not end with an opening
      bracket or quote. */
  predicate NeedsSeparator(word: string, prev: string)
    requires |word| > 0 && |prev| > 0
  {
    !IsClosing(word[0]) && !IsOpening(prev[|prev| - 1])
  }

  /** The separator runs put before `word` when the previous word is `prev`. */
  function Sep(word: string, prev: string, first: bool): seq<Run>
    requires |word| > 0 && |prev| > 0
  {
    if NeedsSeparator(word, prev) then [SeparatorRun(first)] else []
  }

  /** The state `add_words` threads through its loop: runs of the paragraph,
      the previous word, the metadata collected so far, the colour cursor, and
      whether every colour request so far succeeded. */
  datatype Placed = Placed(runs: seq<Run>, prev: string, metadata: map<string, string>, ptr: nat, ok: bool)

  /** One iteration of the loop over the split pieces. Empty pieces are
      skipped; once a colour request has failed nothing more happens (the
      exception leaves the loop). */
  function PlaceWord(colors: seq<string>, fmt: string, first: bool, st: Placed, word: string): (r: Placed)
    requires |st.prev| > 0
    ensures |r.prev| > 0
  {
    if !st.ok || word == [] then st
    else
      var sep := Sep(word, st.prev, first);
      if st.ptr < |colors| then
        var c := colors[st.ptr];
        Placed(st.runs + sep + [WordRun(word, c, fmt)], word, st.metadata[c := word], st.ptr + 1, true)
      else
        Placed(st.runs + sep + [UntaggedRun(word)], st.prev, st.metadata, st.ptr, false)
  }

  /** The whole loop of `add_words` over the pieces `words`. */
  function PlaceAll(colors: seq<string>, fmt: string, first: bool, st: Placed, words: seq<string>): (r: Placed)
    requires |st.prev| > 0
    ensures |r.prev| > 0
    decreases |words|
  {
    if words == [] then st
    else PlaceAll(colors, fmt, first, PlaceWord(colors, fmt, first, st, words[0]), words[1..])
  }

  /** The pieces `add_words` iterates over. */
  function Pieces(text: string): seq<string>
  {
    SplitWs(StripBrackets(text))
  }

  /** `add_words(text, paragraph, formatting, prev_word, first_word)` with the
      paragraph's runs so far and the colour cursor. */
  function AddWordsSpec(colors: seq<string>, runs: seq<Run>, fmt: string, prev: string, first: bool,
                        ptr: nat, text: string): Placed
    requires |prev| > 0
  {
    PlaceAll(colors, fmt, first, Placed(runs, prev, map[], ptr, true), Pieces(text))
  }

  // ---------------------------------------------------------------------------
  // Reference descriptions
  // ---------------------------------------------------------------------------

  /** Runs for the words ws tagged with the colours cs, described word by word:
      word t gets a separator iff NeedsSeparator against the word before it
      (prev for the first), then its tagged run. */
  function ExpectedRuns(prev: string, first: bool, ws: seq<string>, cs: seq<string>, fmt: string): seq<Run>
    requires |prev| > 0 && |ws| == |cs|
    requires forall t :: 0 <= t < |ws| ==> ws[t] != []
    decreases |ws|
  {
    if ws == [] then []
    else
      Sep(ws[0], prev, first) + [WordRun(ws[0], cs[0], fmt)]
      + ExpectedRuns(ws[0], first, ws[1..], cs[1..], fmt)
  }

  /** The metadata dict after `metadata[color] = word` for each pair in order. */
  function Register(m: map<string, string>, cs: seq<string>, ws: seq<string>): map<string, string>
    requires |cs| == |ws|
    decreases |cs|
  {
    if cs == [] then m else Register(m[cs[0] := ws[0]], cs[1..], ws[1..])
  }

  /** Texts of the tagged runs, in order. */
  function TaggedTexts(runs: seq<Run>): seq<string>
  {
    if runs == [] then []
    else (if runs[0].fill.Some? then [runs[0].text] else []) + TaggedTexts(runs[1..])
  }

  /** Fills of the tagged runs, in order. */
  function Fills(runs: seq<Run>): seq<string>
  {
    if runs == [] then []
    else (if runs[0].fill.Some? then [runs[0].fill.value] else []) + Fills(runs[1..])
  }

  lemma {:induction false} TaggedTextsAppend(a: seq<Run>, b: seq<Run>)
    ensures TaggedTexts(a + b) == TaggedTexts(a) + TaggedTexts(b)
    ensures Fills(a + b) == Fills(a) + Fills(b)
    decreases |a|
  {
    if a == [] {
      assert a + b == b;
    } else {
      assert (a + b)[0] == a[0] && (a + b)[1..] == a[1..] + b;
      TaggedTextsAppend(a[1..], b);
    }
  }

  // ---------------------------------------------------------------------------
  // Properties of add_words
  // ---------------------------------------------------------------------------

  /** A failed state stays as it is for the rest of the loop. */
  lemma {:induction false} PlaceAllFailed(colors: seq<string>, fmt: string, first: bool, st: Placed, words: seq<string>)
    requires |st.prev| > 0 && !st.ok
    ensures PlaceAll(colors, fmt, first, st, words) == st
    decreases |words|
  {
    if words != [] {
      PlaceAllFailed(colors, fmt, first, st, words[1..]);
    }
  }

  lemma SliceCons<T>(s: seq<T>, a: nat, b: nat)
    requires a < b <= |s|
    ensures s[a..b] == [s[a]] + s[a + 1..b]
  {
  }

  /** One coloured word: the cursor advances, the word becomes the previous
      word, and exactly one tagged run with the word and its colour is added
      after the optional separator. */
  lemma PlaceWordTagged(colors: seq<string>, fmt: string, first: bool, st: Placed, w: string)
    requires |st.prev| > 0 && st.ok && w != [] && st.ptr < |colors|
    ensures var st' := PlaceWord(colors, fmt, first, st, w);
      st'.ok && st'.ptr == st.ptr + 1 && st'.prev == w &&
      st'.runs == st.runs + (Sep(w, st.prev, first) + [WordRun(w, colors[st.ptr], fmt)]) &&
      st'.metadata == st.metadata[colors[st.ptr] := w]
  {
  }

  /** The tagged run of one coloured word carries the word and its colour. */
  lemma PlaceWordTexts(colors: seq<string>, fmt: string, first: bool, st: Placed, w: string)
    requires |st.prev| > 0 && st.ok && w != [] && st.ptr < |colors|
    ensures var st' := PlaceWord(colors, fmt, first, st, w);
      TaggedTexts(st'.runs) == TaggedTexts(st.runs) + [w] &&
      Fills(st'.runs) == Fills(st.runs) + [colors[st.ptr]]
  {
    PlaceWordTagged(colors, fmt, first, st, w);
    var sep := Sep(w, st.prev, first);
    var run := WordRun(w, colors[st.ptr], fmt);
    TaggedTextsAppend(st.runs, sep + [run]);
    TaggedTextsAppend(sep, [run]);
    assert TaggedTexts([run]) == [w] && Fills([run]) == [colors[st.ptr]];
  }

  /** Colouring fails exactly when the words outnumber the colours left; then
      the cursor stops at the end of the colour list; otherwise it advances by
      the number of words. */
  lemma {:induction false} PlaceAllCount(colors: seq<string>, fmt: string, first: bool, st: Placed, words: seq<string>)
    requires |st.prev| > 0 && st.ok && st.ptr <= |colors|
    ensures var r := PlaceAll(colors, fmt, first, st, words); var ws := NonEmpty(words);
      (r.ok <==> st.ptr + |ws| <= |colors|) &&
      (r.ok ==> r.ptr == st.ptr + |ws|) &&
      (!r.ok ==> r.ptr == |colors|)
    decreases |words|
  {
    if words != [] {
      var w := words[0];
      var st' := PlaceWord(colors, fmt, first, st, w);
      assert NonEmpty(words) == (if w == [] then [] else [w]) + NonEmpty(words[1..]);
      if w == [] {
        PlaceAllCount(colors, fmt, first, st', words[1..]);
      } else if st.ptr < |colors| {
        PlaceWordTagged(colors, fmt, first, st, w);
        PlaceAllCount(colors, fmt, first, st', words[1..]);
      } else {
        PlaceAllFailed(colors, fmt, first, st', words[1..]);
      }
    }
  }

  /** With enough colours left, the tagged runs carry exactly the words in
      order, and the returned previous word is the last word (the incoming one
      when there is none). */
  lemma {:induction false} PlaceAllTexts(colors: seq<string>, fmt: string, first: bool, st: Placed, words: seq<string>)
    requires |st.prev| > 0 && st.ok && st.ptr + |NonEmpty(words)| <= |colors|
    ensures var r := PlaceAll(colors, fmt, first, st, words); var ws := NonEmpty(words);
      TaggedTexts(r.runs) == TaggedTexts(st.runs) + ws &&
      r.prev == (if ws == [] then st.prev else ws[|ws| - 1])
    decreases |words|, 1
  {
    if words != [] {
      var w := words[0];
      var st' := PlaceWord(colors, fmt, first, st, w);
      var rest := NonEmpty(words[1..]);
      if w == [] {
        assert NonEmpty(words) == rest;
        PlaceAllTexts(colors, fmt, first, st', words[1..]);
      } else {
        PlaceAllTextsWord(colors, fmt, first, st, words);
      }
    }
  }

  /** PlaceAllTexts when the first piece is a word. */
  lemma {:induction false} PlaceAllTextsWord(colors: seq<string>, fmt: string, first: bool, st: Placed, words: seq<string>)
    requires |st.prev| > 0 && st.ok && st.ptr + |NonEmpty(words)| <= |colors|
    requires words != [] && words[0] != []
    ensures var r := PlaceAll(colors, fmt, first, st, words); var ws := NonEmpty(words);
      TaggedTexts(r.runs) == TaggedTexts(st.runs) + ws &&
      r.prev == (if ws == [] then st.prev else ws[|ws| - 1])
    decreases |words|, 0
  {
    var w := words[0];
    var st' := PlaceWord(colors, fmt, first, st, w);
    var rest := NonEmpty(words[1..]);
    var r := PlaceAll(colors, fmt, first, st', words[1..]);
    assert TaggedTexts(r.runs) == (TaggedTexts(st.runs) + [w]) + rest &&
           r.prev == (if rest == [] then w else rest[|rest| - 1]) by {
      PlaceWordTagged(colors, fmt, first, st, w);
      PlaceWordTexts(colors, fmt, first, st, w);
      PlaceAllTexts(colors, fmt, first, st', words[1..]);
    }
    assert NonEmpty(words) == [w] + rest;
    assert PlaceAll(colors, fmt, first, st, words) == r;
    Reassociate(TaggedTexts(r.runs), TaggedTexts(st.runs), [w], rest, NonEmpty(words));
  }

  /** With enough colours left, the tagged runs carry the next colours of the
      table in order, one per word. */
  lemma {:induction false} PlaceAllFills(colors: seq<string>, fmt: string, first: bool, st: Placed, words: seq<string>)
    requires |st.prev| > 0 && st.ok && st.ptr + |NonEmpty(words)| <= |colors|
    ensures var r := PlaceAll(colors, fmt, first, st, words);
      Fills(r.runs) == Fills(st.runs) + colors[st.ptr..st.ptr + |NonEmpty(words)|]
    decreases |words|, 1
  {
    if words != [] {
      var w := words[0];
      var st' := PlaceWord(colors, fmt, first, st, w);
      var rest := NonEmpty(words[1..]);
      if w == [] {
        assert NonEmpty(words) == rest;
        PlaceAllFills(colors, fmt, first, st', words[1..]);
      } else {
        PlaceAllFillsWord(colors, fmt, first, st, words);
      }
    } else {
      assert colors[st.ptr..st.ptr + |NonEmpty(words)|] == [];
      assert Fills(st.runs) + [] == Fills(st.runs);
    }
  }

  /** PlaceAllFills when the first piece is a word. */
  lemma {:induction false} PlaceAllFillsWord(colors: seq<string>, fmt: string, first: bool, st: Placed, words: seq<string>)
    requires |st.prev| > 0 && st.ok && st.ptr + |NonEmpty(words)| <= |colors|
    requires words != [] && words[0] != []
    ensures var r := PlaceAll(colors, fmt, first, st, words);
      Fills(r.runs) == Fills(st.runs) + colors[st.ptr..st.ptr + |NonEmpty(words)|]
    decreases |words|, 0
  {
    var w := words[0];
    var st' := PlaceWord(colors, fmt, first, st, w);
    var rest := NonEmpty(words[1..]);
    var r := PlaceAll(colors, fmt, first, st', words[1..]);
    var later := colors[st.ptr + 1..st.ptr + 1 + |rest|];
    assert Fills(r.runs) == (Fills(st.runs) + [colors[st.ptr]]) + later by {
      PlaceWordTagged(colors, fmt, first, st, w);
      PlaceWordTexts(colors, fmt, first, st, w);
      PlaceAllFills(colors, fmt, first, st', words[1..]);
    }
    var cs := colors[st.ptr..st.ptr + |NonEmpty(words)|];
    assert |NonEmpty(words)| == 1 + |rest|;
    SliceCons(colors, st.ptr, st.ptr + 1 + |rest|);
    assert PlaceAll(colors, fmt, first, st, words) == r;
    Reassociate(Fills(r.runs), Fills(st.runs), [colors[st.ptr]], later, cs);
  }

  /** The runs `add_words` appends are the word-by-word description: pieces
      that are empty contribute nothing, and each word gets its separator (by
      the rule, against the word before it) and its tagged run. */
  lemma {:induction false} PlaceAllRuns(colors: seq<string>, fmt: string, first: bool, st: Placed, words: seq<string>)
    requires |st.prev| > 0 && st.ok && st.ptr + |NonEmpty(words)| <= |colors|
    ensures var r := PlaceAll(colors, fmt, first, st, words); var ws := NonEmpty(words);
      r.runs == st.runs + ExpectedRuns(st.prev, first, ws, colors[st.ptr..st.ptr + |ws|], fmt)
    decreases |words|, 1
  {
    if words == [] {
      assert st.runs + [] == st.runs;
    } else if words[0] == [] {
      assert NonEmpty(words) == NonEmpty(words[1..]);
      assert PlaceAll(colors, fmt, first, st, words) == PlaceAll(colors, fmt, first, st, words[1..]);
      PlaceAllRuns(colors, fmt, first, st, words[1..]);
    } else {
      PlaceAllRunsWord(colors, fmt, first, st, words);
    }
  }

  /** PlaceAllRuns when the first piece is a word. */
  lemma {:induction false} PlaceAllRunsWord(colors: seq<string>, fmt: string, first: bool, st: Placed, words: seq<string>)
    requires |st.prev| > 0 && st.ok && st.ptr + |NonEmpty(words)| <= |colors|
    requires words != [] && words[0] != []
    ensures var r := PlaceAll(colors, fmt, first, st, words); var ws := NonEmpty(words);
      r.runs == st.runs + ExpectedRuns(st.prev, first, ws, colors[st.ptr..st.ptr + |ws|], fmt)
    decreases |words|, 0
  {
    var w := words[0];
    var st' := PlaceWord(colors, fmt, first, st, w);
    var rest := NonEmpty(words[1..]);
    var ws := NonEmpty(words);
    var cs := colors[st.ptr..st.ptr + |ws|];
    var later := colors[st.ptr + 1..st.ptr + 1 + |rest|];
    var head := Sep(w, st.prev, first) + [WordRun(w, colors[st.ptr], fmt)];
    var tail := ExpectedRuns(w, first, rest, later, fmt);
    var r := PlaceAll(colors, fmt, first, st', words[1..]);
    assert r.runs == (st.runs + head) + tail by {
      PlaceWordTagged(colors, fmt, first, st, w);
      PlaceAllRuns(colors, fmt, first, st', words[1..]);
    }
    assert ExpectedRuns(st.prev, first, ws, cs, fmt) == head + tail by {
      assert ws == [w] + rest;
      SliceCons(colors, st.ptr, st.ptr + |ws|);
      ExpectedRunsCons(st.prev, first, w, colors[st.ptr], rest, later, fmt);
    }
    assert PlaceAll(colors, fmt, first, st, words) == r;
    Reassociate(r.runs, st.runs, head, tail, ExpectedRuns(st.prev, first, ws, cs, fmt));
  }

  lemma Reassociate<T>(r: seq<T>, base: seq<T>, head: seq<T>, tail: seq<T>, whole: seq<T>)
    requires r == (base + head) + tail && whole == head + tail
    ensures r == base + whole
  {
  }

  /** ExpectedRuns of a word followed by more words. */
  lemma ExpectedRunsCons(prev: string, first: bool, w: string, c: string, ws: seq<string>, cs: seq<string>, fmt: string)
    requires |prev| > 0 && w != [] && |ws| == |cs|
    requires forall t :: 0 <= t < |ws| ==> ws[t] != []
    ensures forall t :: 0 <= t < |[w] + ws| ==> ([w] + ws)[t] != []
    ensures ExpectedRuns(prev, first, [w] + ws, [c] + cs, fmt) ==
      (Sep(w, prev, first) + [WordRun(w, c, fmt)]) + ExpectedRuns(w, first, ws, cs, fmt)
  {
    assert ([w] + ws)[1..] == ws && ([c] + cs)[1..] == cs;
  }

  /** The metadata `add_words` returns records each word under its colour, in
      order, so a later word overwrites an earlier one with the same colour. */
  lemma {:induction false} PlaceAllMetadata(colors: seq<string>, fmt: string, first: bool, st: Placed, words: seq<string>)
    requires |st.prev| > 0 && st.ok && st.ptr + |NonEmpty(words)| <= |colors|
    ensures var r := PlaceAll(colors, fmt, first, st, words); var ws := NonEmpty(words);
      r.metadata == Register(st.metadata, colors[st.ptr..st.ptr + |ws|], ws)
    decreases |words|, 1
  {
    if words != [] {
      var w := words[0];
      var st' := PlaceWord(colors, fmt, first, st, w);
      var rest := NonEmpty(words[1..]);
      if w == [] {
        assert NonEmpty(words) == rest;
        PlaceAllMetadata(colors, fmt, first, st', words[1..]);
      } else {
        PlaceAllMetadataWord(colors, fmt, first, st, words);
      }
    }
  }

  /** PlaceAllMetadata when the first piece is a word. */
  lemma {:induction false} PlaceAllMetadataWord(colors: seq<string>, fmt: string, first: bool, st: Placed, words: seq<string>)
    requires |st.prev| > 0 && st.ok && st.ptr + |NonEmpty(words)| <= |colors|
    requires words != [] && words[0] != []
    ensures var r := PlaceAll(colors, fmt, first, st, words); var ws := NonEmpty(words);
      r.metadata == Register(st.metadata, colors[st.ptr..st.ptr + |ws|], ws)
    decreases |words|, 0
  {
    var w := words[0];
    var st' := PlaceWord(colors, fmt, first, st, w);
    var rest := NonEmpty(words[1..]);
    var ws := NonEmpty(words);
    var cs := colors[st.ptr..st.ptr + |ws|];
    var later := colors[st.ptr + 1..st.ptr + 1 + |rest|];
    var r := PlaceAll(colors, fmt, first, st', words[1..]);
    assert r.metadata == Register(st.metadata[colors[st.ptr] := w], later, rest) by {
      PlaceWordTagged(colors, fmt, first, st, w);
      PlaceAllMetadata(colors, fmt, first, st', words[1..]);
    }
    assert Register(st.metadata, cs, ws) == Register(st.metadata[colors[st.ptr] := w], later, rest) by {
      assert ws == [w] + rest;
      assert cs[0] == colors[st.ptr] && cs[1..] == later;
      assert ws[0] == w && ws[1..] == rest;
    }
    assert PlaceAll(colors, fmt, first, st, words) == r;
  }

  /** The keys after registering are the old keys and the colours used. */
  lemma {:induction false} RegisterKeys(m: map<string, string>, cs: seq<string>, ws: seq<string>)
    requires |cs| == |ws|
    ensures Register(m, cs, ws).Keys == m.Keys + set t | 0 <= t < |cs| :: cs[t]
    decreases |cs|
  {
    if cs != [] {
      RegisterKeys(m[cs[0] := ws[0]], cs[1..], ws[1..]);
      var later := set t | 0 <= t < |cs[1..]| :: cs[1..][t];
      var all := set t | 0 <= t < |cs| :: cs[t];
      assert all == {cs[0]} + later by {
        forall c | c in all ensures c in {cs[0]} + later {
          var t :| 0 <= t < |cs| && cs[t] == c;
          if t > 0 {
            assert cs[1..][t - 1] == c;
          }
        }
        forall c | c in later ensures c in all {
          var t :| 0 <= t < |cs[1..]| && cs[1..][t] == c;
          assert cs[t + 1] == c;
        }
      }
    }
  }

  /** Last writer wins: the word recorded for a colour is the last word that
      received it; a colour used once maps to its own word. */
  lemma {:induction false} RegisterLastWins(m: map<string, string>, cs: seq<string>, ws: seq<string>, t: nat)
    requires |cs| == |ws| && t < |cs|
    requires forall u :: t < u < |cs| ==> cs[u] != cs[t]
    ensures cs[t] in Register(m, cs, ws) && Register(m, cs, ws)[cs[t]] == ws[t]
    decreases |cs|
  {
    if t == 0 {
      RegisterUntouched(m[cs[0] := ws[0]], cs[1..], ws[1..], cs[0]);
    } else {
      assert cs[1..][t - 1] == cs[t] && ws[1..][t - 1] == ws[t];
      RegisterLastWins(m[cs[0] := ws[0]], cs[1..], ws[1..], t - 1);
    }
  }

  /** A key no later pair uses keeps its value. */
  lemma {:induction false} RegisterUntouched(m: map<string, string>, cs: seq<string>, ws: seq<string>, c: string)
    requires |cs| == |ws| && c in m
    requires forall u :: 0 <= u < |cs| ==> cs[u] != c
    ensures c in Register(m, cs, ws) && Register(m, cs, ws)[c] == m[c]
    decreases |cs|
  {
    if cs != [] {
      RegisterUntouched(m[cs[0] := ws[0]], cs[1..], ws[1..], c);
    }
  }

  /** When two words receive the same colour, the earlier word is lost: the
      colour maps to the later word. */
  lemma RegisterCollision(m: map<string, string>, cs: seq<string>, ws: seq<string>, s: nat, t: nat)
    requires |cs| == |ws| && s < t < |cs| && cs[s] == cs[t]
    requires forall u :: t < u < |cs| ==> cs[u] != cs[t]
    ensures cs[s] in Register(m, cs, ws) && Register(m, cs, ws)[cs[s]] == ws[t]
  {
    RegisterLastWins(m, cs, ws, t);
  }
}
