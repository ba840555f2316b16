/** The three text operations `add_words` applies before colouring:
    `re.sub(r'\[.*?\]', '', text)`, `re.split(r'\s+', text)` with the empty
    pieces skipped, and `str.strip()` on table cells. */
module TextSplit {
  import opened Common

  // ---------------------------------------------------------------------------
  // re.sub(r'\[.*?\]', '', text)
  // ---------------------------------------------------------------------------

  /** Where the lazy `.*?\]` that follows an opening bracket stops: the offset
      of the first ']' in s, provided no newline comes before it (`.` does not
      match a newline). None when the match fails. */
  function CloseFrom(s: string): (r: Option<nat>)
    ensures r.Some? ==> r.value < |s| && s[r.value] == ']'
    ensures r.Some? ==> forall k :: 0 <= k < r.value ==> s[k] != ']' && s[k] != '\n'
    ensures r.None? ==> forall k :: 0 <= k < |s| && s[k] == ']' ==> exists m :: 0 <= m < k && s[m] == '\n'
    decreases |s|
  {
    if s == [] then None
    else if s[0] == ']' then Some(0)
    else if s[0] == '\n' then None
    else match CloseFrom(s[1..])
      case Some(k) => Some(k + 1)
      case None => None
  }

  /** `re.sub(r'\[.*?\]', '', t)`: scanning left to right, every '[' that has a
      ']' after it on the same line is removed together with everything up to
      and including that first ']'; scanning resumes after the removed span. */
  function StripBrackets(t: string): (r: string)
    ensures |r| <= |t|
    decreases |t|
  {
    if t == [] then []
    else if t[0] == '[' && CloseFrom(t[1..]).Some? then StripBrackets(t[CloseFrom(t[1..]).value + 2..])
    else [t[0]] + StripBrackets(t[1..])
  }

  /** No bracketed segment is left for the pattern to match. */
  ghost predicate BracketFree(r: string)
  {
    forall i :: 0 <= i < |r| && r[i] == '[' ==> CloseFrom(r[i + 1..]).None?
  }

  /** Text without an opening bracket is left alone. */
  lemma {:induction false} StripBracketsNoOpen(t: string)
    requires forall k :: 0 <= k < |t| ==> t[k] != '['
    ensures StripBrackets(t) == t
    decreases |t|
  {
    if t != [] {
      StripBracketsNoOpen(t[1..]);
    }
  }

  /** Removing segments never creates a ']' ahead of the first newline. */
  lemma {:induction false} StripKeepsNoClose(s: string)
    requires CloseFrom(s).None?
    ensures CloseFrom(StripBrackets(s)).None?
    decreases |s|
  {
    if s != [] && s[0] != '\n' {
      StripKeepsNoClose(s[1..]);
    }
  }

  /** After the substitution no '[' has a ']' after it on the same line. */
  lemma {:induction false} StripBracketsComplete(t: string)
    ensures BracketFree(StripBrackets(t))
    decreases |t|
  {
    if t == [] {
    } else if t[0] == '[' && CloseFrom(t[1..]).Some? {
      StripBracketsComplete(t[CloseFrom(t[1..]).value + 2..]);
    } else {
      var rest := StripBrackets(t[1..]);
      StripBracketsComplete(t[1..]);
      var r := [t[0]] + rest;
      forall i | 0 <= i < |r| && r[i] == '['
        ensures CloseFrom(r[i + 1..]).None?
      {
        if i == 0 {
          assert r[1..] == rest;
          StripKeepsNoClose(t[1..]);
        } else {
          assert r[i + 1..] == rest[i..];
          assert rest[i - 1] == '[';
        }
      }
    }
  }

  /** Text with nothing left to match is a fixed point. */
  lemma {:induction false} StripBracketsFixed(r: string)
    requires BracketFree(r)
    ensures StripBrackets(r) == r
    decreases |r|
  {
    if r != [] {
      assert BracketFree(r[1..]) by {
        forall i | 0 <= i < |r[1..]| && r[1..][i] == '['
          ensures CloseFrom(r[1..][i + 1..]).None?
        {
          assert r[1..][i + 1..] == r[i + 2..];
        }
      }
      StripBracketsFixed(r[1..]);
    }
  }

  /** Applying the substitution twice is the same as applying it once. */
  lemma StripBracketsIdempotent(t: string)
    ensures StripBrackets(StripBrackets(t)) == StripBrackets(t)
  {
    StripBracketsComplete(t);
    StripBracketsFixed(StripBrackets(t));
  }

  // ---------------------------------------------------------------------------
  // re.split(r'\s+', text), and the `if word:` filter
  // ---------------------------------------------------------------------------

  predicate SpaceFree(w: string)
  {
    forall k :: 0 <= k < |w| ==> !IsSpace(w[k])
  }

  /** Index of the first whitespace character, |t| when there is none. */
  function FirstSpace(t: string): (i: nat)
    ensures i <= |t|
    decreases |t|
  {
    if t == [] then 0
    else if IsSpace(t[0]) then 0
    else 1 + FirstSpace(t[1..])
  }

  lemma {:induction false} FirstSpaceSpec(t: string)
    ensures var i := FirstSpace(t); (i < |t| ==> IsSpace(t[i])) && SpaceFree(t[..i])
    decreases |t|
  {
    if t != [] && !IsSpace(t[0]) {
      FirstSpaceSpec(t[1..]);
      var i := FirstSpace(t);
      assert t[..i] == [t[0]] + t[1..][..i - 1];
    }
  }

  /** t without its leading whitespace run. */
  function SkipSpaces(t: string): (r: string)
    ensures |r| <= |t| && (t != [] && IsSpace(t[0]) ==> |r| < |t|)
    ensures r == [] || !IsSpace(r[0])
    decreases |t|
  {
    if t != [] && IsSpace(t[0]) then SkipSpaces(t[1..]) else t
  }

  lemma {:induction false} SkipSpacesSuffix(t: string)
    ensures SkipSpaces(t) == t[|t| - |SkipSpaces(t)|..]
    ensures forall k :: 0 <= k < |t| - |SkipSpaces(t)| ==> IsSpace(t[k])
    decreases |t|
  {
    if t != [] && IsSpace(t[0]) {
      SkipSpacesSuffix(t[1..]);
    }
  }

  /** `re.split(r'\s+', t)`: the pieces between maximal whitespace runs,
      including the empty first (last) piece when t starts (ends) with
      whitespace. */
  function SplitWs(t: string): (pieces: seq<string>)
    ensures |pieces| >= 1
    decreases |t|
  {
    var i := FirstSpace(t);
    if i == |t| then [t] else [t[..i]] + SplitWs(SkipSpaces(t[i..]))
  }

  /** No piece holds whitespace. */
  lemma {:induction false} SplitWsSpaceFree(t: string)
    ensures forall p :: 0 <= p < |SplitWs(t)| ==> SpaceFree(SplitWs(t)[p])
    decreases |t|
  {
    var i := FirstSpace(t);
    FirstSpaceSpec(t);
    if i == |t| {
      assert t[..i] == t;
    } else {
      SplitWsSpaceFree(SkipSpaces(t[i..]));
    }
  }

  /** The pieces that `if word:` lets through. */
  function NonEmpty(ps: seq<string>): (r: seq<string>)
    ensures |r| <= |ps|
    ensures forall p :: 0 <= p < |r| ==> r[p] != []
  {
    if ps == [] then []
    else if ps[0] == [] then NonEmpty(ps[1..])
    else [ps[0]] + NonEmpty(ps[1..])
  }

  lemma {:induction false} NonEmptyAppend(a: seq<string>, b: seq<string>)
    ensures NonEmpty(a + b) == NonEmpty(a) + NonEmpty(b)
    decreases |a|
  {
    if a != [] {
      assert (a + b)[0] == a[0] && (a + b)[1..] == a[1..] + b;
      NonEmptyAppend(a[1..], b);
    } else {
      assert a + b == b;
    }
  }

  /** The words of t: what `for word in re.split(r'\s+', t): if word:` visits. */
  function Tokens(t: string): seq<string>
  {
    NonEmpty(SplitWs(t))
  }

  /** The words `add_words` colours, in order. */
  function WordsOf(text: string): seq<string>
  {
    Tokens(StripBrackets(text))
  }

  function Flatten(ps: seq<string>): string
  {
    if ps == [] then [] else ps[0] + Flatten(ps[1..])
  }

  function RemoveSpaces(t: string): string
  {
    if t == [] then [] else (if IsSpace(t[0]) then [] else [t[0]]) + RemoveSpaces(t[1..])
  }

  lemma {:induction false} RemoveSpacesAppend(a: string, b: string)
    ensures RemoveSpaces(a + b) == RemoveSpaces(a) + RemoveSpaces(b)
    decreases |a|
  {
    if a != [] {
      assert (a + b)[0] == a[0] && (a + b)[1..] == a[1..] + b;
      RemoveSpacesAppend(a[1..], b);
    } else {
      assert a + b == b;
    }
  }

  lemma {:induction false} RemoveSpacesOfSpaceFree(w: string)
    requires SpaceFree(w)
    ensures RemoveSpaces(w) == w
    decreases |w|
  {
    if w != [] {
      RemoveSpacesOfSpaceFree(w[1..]);
    }
  }

  lemma {:induction false} RemoveSpacesOfSpaces(w: string)
    requires forall k :: 0 <= k < |w| ==> IsSpace(w[k])
    ensures RemoveSpaces(w) == []
    decreases |w|
  {
    if w != [] {
      RemoveSpacesOfSpaces(w[1..]);
    }
  }

  lemma {:induction false} FlattenNonEmpty(ps: seq<string>)
    ensures Flatten(NonEmpty(ps)) == Flatten(ps)
    decreases |ps|
  {
    if ps != [] {
      FlattenNonEmpty(ps[1..]);
    }
  }

  /** Splitting loses exactly the whitespace: the pieces put back together are
      t with its whitespace removed. */
  lemma {:induction false} SplitWsFlatten(t: string)
    ensures Flatten(SplitWs(t)) == RemoveSpaces(t)
    decreases |t|
  {
    var i := FindSpace(t);
    if i == |t| {
      assert t[..i] == t;
      FirstSpaceIs(t, i);
      RemoveSpacesOfSpaceFree(t);
    } else {
      SplitWsFlatten(SkipSpaces(t[i..]));
      SplitWsFlattenStep(t, i);
    }
  }

  lemma SplitWsFlattenStep(t: string, i: nat)
    requires i < |t| && IsSpace(t[i]) && SpaceFree(t[..i])
    requires Flatten(SplitWs(SkipSpaces(t[i..]))) == RemoveSpaces(SkipSpaces(t[i..]))
    ensures Flatten(SplitWs(t)) == RemoveSpaces(t)
  {
    FlattenSplitUnfold(t, i);
    RemoveSpacesAtGap(t, i);
  }

  lemma FlattenSplitUnfold(t: string, i: nat)
    requires i < |t| && IsSpace(t[i]) && SpaceFree(t[..i])
    ensures Flatten(SplitWs(t)) == t[..i] + Flatten(SplitWs(SkipSpaces(t[i..])))
  {
    var w, s := t[..i], SkipSpaces(t[i..]);
    FirstSpaceIs(t, i);
    assert SplitWs(t) == [w] + SplitWs(s);
    assert ([w] + SplitWs(s))[1..] == SplitWs(s);
  }

  lemma RemoveSpacesAtGap(t: string, i: nat)
    requires i < |t| && SpaceFree(t[..i])
    ensures RemoveSpaces(t) == t[..i] + RemoveSpaces(SkipSpaces(t[i..]))
  {
    var w, s := t[..i], SkipSpaces(t[i..]);
    var gap := t[i..][..|t[i..]| - |s|];
    assert t[i..] == gap + s && forall k :: 0 <= k < |gap| ==> IsSpace(gap[k]) by {
      SkipSpacesSuffix(t[i..]);
    }
    assert t == w + (gap + s);
    assert RemoveSpaces(gap + s) == RemoveSpaces(s) by {
      RemoveSpacesAppend(gap, s);
      RemoveSpacesOfSpaces(gap);
      assert [] + RemoveSpaces(s) == RemoveSpaces(s);
    }
    assert RemoveSpaces(w) == w by {
      RemoveSpacesOfSpaceFree(w);
    }
    RemoveSpacesAppend(w, gap + s);
  }

  /** Every word is non-empty and free of whitespace, and the words put back
      together are the text with its whitespace removed. */
  lemma TokensSpec(t: string)
    ensures forall p :: 0 <= p < |Tokens(t)| ==> Tokens(t)[p] != [] && SpaceFree(Tokens(t)[p])
    ensures Flatten(Tokens(t)) == RemoveSpaces(t)
  {
    SplitWsFlatten(t);
    FlattenNonEmpty(SplitWs(t));
    SplitWsSpaceFree(t);
    NonEmptySpaceFree(SplitWs(t));
  }

  lemma {:induction false} NonEmptySpaceFree(ps: seq<string>)
    requires forall q :: 0 <= q < |ps| ==> SpaceFree(ps[q])
    ensures forall p :: 0 <= p < |NonEmpty(ps)| ==> SpaceFree(NonEmpty(ps)[p])
    decreases |ps|
  {
    if ps != [] {
      NonEmptySpaceFree(ps[1..]);
    }
  }

  lemma TokensEmpty()
    ensures Tokens("") == []
  {
    assert SplitWs("") == [""];
  }

  lemma TokensWord(w: string)
    requires w != [] && SpaceFree(w)
    ensures Tokens(w) == [w]
  {
    TokensOfSpaceFree(w);
  }

  /** Leading whitespace contributes an empty first piece, which is skipped. */
  lemma TokensSkipSpaces(t: string)
    ensures Tokens(SkipSpaces(t)) == Tokens(t)
  {
    if t != [] && IsSpace(t[0]) {
      assert FirstSpace(t) == 0;
      assert t[0..] == t;
      assert SplitWs(t) == [[]] + SplitWs(SkipSpaces(t));
      NonEmptyAppend([[]], SplitWs(SkipSpaces(t)));
    }
  }

  lemma {:induction false} SkipSpacesAppend(a: string, b: string)
    ensures SkipSpaces(a + b) == if SkipSpaces(a) == [] then SkipSpaces(b) else SkipSpaces(a) + b
    decreases |a|
  {
    if a != [] {
      assert (a + b)[0] == a[0] && (a + b)[1..] == a[1..] + b;
      SkipSpacesAppend(a[1..], b);
    } else {
      assert a + b == b;
    }
  }

  /** Tokens unfolded once at the first whitespace character, at index i. */
  lemma TokensUnfoldAt(t: string, i: nat)
    requires i < |t| && IsSpace(t[i]) && SpaceFree(t[..i])
    ensures Tokens(t) == NonEmpty([t[..i]]) + Tokens(SkipSpaces(t[i..]))
  {
    FirstSpaceIs(t, i);
    NonEmptyAppend([t[..i]], SplitWs(SkipSpaces(t[i..])));
  }

  /** The words of a string without whitespace: itself, unless it is empty. */
  lemma TokensOfSpaceFree(w: string)
    requires SpaceFree(w)
    ensures Tokens(w) == NonEmpty([w])
  {
    assert w[..|w|] == w;
    FirstSpaceIs(w, |w|);
  }

  /** The first whitespace character of t, if any. */
  lemma FindSpace(t: string) returns (i: nat)
    ensures i <= |t| && (i < |t| ==> IsSpace(t[i])) && SpaceFree(t[..i])
  {
    i := FirstSpace(t);
    FirstSpaceSpec(t);
  }

  /** A whitespace character in front of b changes nothing about its words. */
  lemma TokensSpaceFront(c: char, b: string)
    requires IsSpace(c)
    ensures Tokens(SkipSpaces([c] + b)) == Tokens(b)
  {
    assert ([c] + b)[1..] == b;
    TokensSkipSpaces(b);
  }

  /** Whitespace separates words: the words of a + [c] + b for a whitespace
      character c are the words of a followed by the words of b. With
      TokensEmpty and TokensWord this determines Tokens on every string. */
  lemma {:induction false} TokensSplitAt(a: string, c: char, b: string)
    requires IsSpace(c)
    ensures Tokens(a + [c] + b) == Tokens(a) + Tokens(b)
    decreases |a|
  {
    var i := FindSpace(a);
    if i == |a| {
      assert a[..i] == a;
      TokensSplitAtWord(a, c, b);
    } else {
      TokensSplitStep(a, c, b, i);
      var a' := SkipSpaces(a[i..]);
      if a' != [] {
        TokensSplitAt(a', c, b);
      }
    }
  }

  /** One step of TokensSplitAt: the first word of a, then the rest a'. */
  lemma TokensSplitStep(a: string, c: char, b: string, i: nat)
    requires IsSpace(c) && i < |a| && IsSpace(a[i]) && SpaceFree(a[..i])
    ensures var a' := SkipSpaces(a[i..]);
      |a'| < |a| &&
      (a' == [] ==> Tokens(a + [c] + b) == Tokens(a) + Tokens(b)) &&
      (a' != [] && Tokens(a' + [c] + b) == Tokens(a') + Tokens(b) ==>
         Tokens(a + [c] + b) == Tokens(a) + Tokens(b))
  {
    var a' := SkipSpaces(a[i..]);
    TokensSplitHead(a, c, b, i);
    var head := NonEmpty([a[..i]]);
    if a' == [] {
      TokensSpaceFront(c, b);
      TokensEmpty();
      assert Tokens(a) == head + [] == head;
    } else if Tokens(a' + [c] + b) == Tokens(a') + Tokens(b) {
      assert Tokens(a + [c] + b) == head + (Tokens(a') + Tokens(b));
      assert head + (Tokens(a') + Tokens(b)) == (head + Tokens(a')) + Tokens(b);
    }
  }

  /** The first word of a + [c] + b is the first word of a; what follows it
      is the rest of a, with c and b behind it. */
  lemma TokensSplitHead(a: string, c: char, b: string, i: nat)
    requires IsSpace(c) && i < |a| && IsSpace(a[i]) && SpaceFree(a[..i])
    ensures var a' := SkipSpaces(a[i..]); var head := NonEmpty([a[..i]]);
      Tokens(a) == head + Tokens(a') &&
      Tokens(a + [c] + b) == head + Tokens(if a' == [] then SkipSpaces([c] + b) else a' + [c] + b)
  {
    var t := a + [c] + b;
    var cb := [c] + b;
    assert t[..i] == a[..i];
    assert t[i..] == a[i..] + cb;
    TokensUnfoldAt(t, i);
    TokensUnfoldAt(a, i);
    SkipSpacesAppend(a[i..], cb);
    assert SkipSpaces(a[i..]) + cb == SkipSpaces(a[i..]) + [c] + b;
  }

  /** The case of TokensSplitAt where a holds no whitespace. */
  lemma TokensSplitAtWord(a: string, c: char, b: string)
    requires IsSpace(c) && SpaceFree(a)
    ensures Tokens(a + [c] + b) == Tokens(a) + Tokens(b)
  {
    var t := a + [c] + b;
    assert t[..|a|] == a;
    TokensUnfoldAt(t, |a|);
    assert t[|a|..] == [c] + b;
    TokensSpaceFront(c, b);
    TokensOfSpaceFree(a);
  }

  lemma {:induction false} FirstSpaceIs(t: string, i: nat)
    requires i <= |t| && (i < |t| ==> IsSpace(t[i])) && SpaceFree(t[..i])
    ensures FirstSpace(t) == i
    decreases i
  {
    if i > 0 {
      assert t[..i][0] == t[0];
      var u := t[1..][..i - 1];
      assert SpaceFree(u) by {
        forall k | 0 <= k < |u| ensures !IsSpace(u[k]) {
          assert u[k] == t[..i][k + 1];
        }
      }
      FirstSpaceIs(t[1..], i - 1);
    }
  }


  // ---------------------------------------------------------------------------
  // str.strip()
  // ---------------------------------------------------------------------------

  function LStrip(s: string): (r: string)
    decreases |s|
  {
    if s != [] && IsSpace(s[0]) then LStrip(s[1..]) else s
  }

  function RStrip(s: string): (r: string)
    decreases |s|
  {
    if s != [] && IsSpace(s[|s| - 1]) then RStrip(s[..|s| - 1]) else s
  }

  /** `s.strip()`: whitespace removed from both ends. */
  function Strip(s: string): string
  {
    RStrip(LStrip(s))
  }

  lemma {:induction false} LStripSpec(s: string) returns (i: nat)
    ensures i <= |s| && LStrip(s) == s[i..]
    ensures forall k :: 0 <= k < i ==> IsSpace(s[k])
    ensures LStrip(s) == [] || !IsSpace(LStrip(s)[0])
    decreases |s|
  {
    if s != [] && IsSpace(s[0]) {
      var j := LStripSpec(s[1..]);
      i := j + 1;
      assert s[1..][j..] == s[i..];
    } else {
      i := 0;
    }
  }

  lemma {:induction false} RStripSpec(s: string) returns (j: nat)
    ensures j <= |s| && RStrip(s) == s[..j]
    ensures forall k :: j <= k < |s| ==> IsSpace(s[k])
    ensures RStrip(s) == [] || !IsSpace(RStrip(s)[|RStrip(s)| - 1])
    decreases |s|
  {
    if s != [] && IsSpace(s[|s| - 1]) {
      j := RStripSpec(s[..|s| - 1]);
      assert s[..|s| - 1][..j] == s[..j];
    } else {
      j := |s|;
      assert s[..j] == s;
    }
  }

  /** `strip` removes a whitespace prefix and a whitespace suffix and nothing
      else, and leaves no whitespace at either end. */
  lemma StripSpec(s: string) returns (i: nat, j: nat)
    ensures i <= j <= |s| && Strip(s) == s[i..j]
    ensures forall k :: 0 <= k < i ==> IsSpace(s[k])
    ensures forall k :: j <= k < |s| ==> IsSpace(s[k])
    ensures Strip(s) == [] || (!IsSpace(Strip(s)[0]) && !IsSpace(Strip(s)[|Strip(s)| - 1]))
  {
    i := LStripSpec(s);
    var l := LStrip(s);
    var m := RStripSpec(l);
    j := i + m;
    assert l[..m] == s[i..j];
    assert forall k :: j <= k < |s| ==> s[k] == l[k - i];
  }
}
