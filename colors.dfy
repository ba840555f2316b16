/** The colour registry's table of tag colours and the hex codec around it
    (`DocxDocument._init_colors` and the colour parsing in `color_word`). */
module Colors {
  import opened Common

  /** One 8-bit colour channel. */
  type Channel = c: int | 0 <= c < 256

  datatype Rgb = Rgb(r: Channel, g: Channel, b: Channel)

  const Black := Rgb(0, 0, 0)

  // ---------------------------------------------------------------------------
  // Hex codec: '#{:02x}{:02x}{:02x}'.format(r, g, b) and int(s[i:i+2], 16)
  // ---------------------------------------------------------------------------

  /** Lower-case hex digit, as `{:x}` prints it. */
  function HexDigit(d: int): char
    requires 0 <= d < 16
  {
    if d < 10 then ('0' as int + d) as char else ('a' as int + d - 10) as char
  }

  /** Value of one digit as `int(_, 16)` reads it (either case). */
  function HexDigitValue(c: char): Option<int>
  {
    if '0' <= c <= '9' then Some(c as int - '0' as int)
    else if 'a' <= c <= 'f' then Some(c as int - 'a' as int + 10)
    else if 'A' <= c <= 'F' then Some(c as int - 'A' as int + 10)
    else None
  }

  predicate IsLowerHexDigit(c: char)
  {
    '0' <= c <= '9' || 'a' <= c <= 'f'
  }

  /** `{:02x}` of one channel. */
  function TwoHex(v: Channel): string
  {
    [HexDigit(v / 16), HexDigit(v % 16)]
  }

  /** '#{:02x}{:02x}{:02x}'.format(r, g, b); also what '#%02x%02x%02x' % rgb gives. */
  function FormatHex(c: Rgb): string
  {
    "#" + TwoHex(c.r) + TwoHex(c.g) + TwoHex(c.b)
  }

  /** Python's `s[lo:hi]` for 0 <= lo <= hi: bounds past the end are clipped. */
  function PySlice(s: string, lo: nat, hi: nat): string
    requires lo <= hi
  {
    var a := if lo < |s| then lo else |s|;
    var b := if hi < |s| then hi else |s|;
    s[a..b]
  }

  /** `int(t, 16)` for the one- and two-character slices the codec takes. */
  function ParseChannel(t: string): Option<Channel>
  {
    if |t| == 1 then
      match HexDigitValue(t[0])
      case Some(d) => Some(d)
      case None => None
    else if |t| == 2 then
      match (HexDigitValue(t[0]), HexDigitValue(t[1]))
      case (Some(h), Some(l)) => Some(16 * h + l)
      case _ => None
    else None
  }

  /** `tuple(int(color[i:i + 2], 16) for i in (1, 3, 5))`; None where Python raises. */
  function ParseHex(s: string): Option<Rgb>
  {
    match (ParseChannel(PySlice(s, 1, 3)), ParseChannel(PySlice(s, 3, 5)), ParseChannel(PySlice(s, 5, 7)))
    case (Some(r), Some(g), Some(b)) => Some(Rgb(r, g, b))
    case _ => None
  }

  /** A well-formed colour string: '#' and six lower-case hex digits. */
  predicate IsColorString(s: string)
  {
    |s| == 7 && s[0] == '#' && forall k :: 1 <= k < 7 ==> IsLowerHexDigit(s[k])
  }

  lemma TwoHexRoundTrip(v: Channel)
    ensures ParseChannel(TwoHex(v)) == Some(v)
    ensures IsLowerHexDigit(TwoHex(v)[0]) && IsLowerHexDigit(TwoHex(v)[1])
  {
    assert 16 * (v / 16) + v % 16 == v;
  }

  /** Parsing a formatted colour gives the colour back. */
  lemma {:induction false} ParseFormatHex(c: Rgb)
    ensures ParseHex(FormatHex(c)) == Some(c)
    ensures IsColorString(FormatHex(c))
  {
    var s := FormatHex(c);
    TwoHexRoundTrip(c.r);
    TwoHexRoundTrip(c.g);
    TwoHexRoundTrip(c.b);
    assert PySlice(s, 1, 3) == TwoHex(c.r);
    assert PySlice(s, 3, 5) == TwoHex(c.g);
    assert PySlice(s, 5, 7) == TwoHex(c.b);
  }

  lemma TwoHexOfParsed(t: string, v: Channel)
    requires |t| == 2 && IsLowerHexDigit(t[0]) && IsLowerHexDigit(t[1])
    requires ParseChannel(t) == Some(v)
    ensures TwoHex(v) == t
  {
    var h := HexDigitValue(t[0]).value;
    var l := HexDigitValue(t[1]).value;
    assert v == 16 * h + l;
    assert v / 16 == h && v % 16 == l;
  }

  /** Formatting a parsed well-formed colour string gives the string back. */
  lemma {:induction false} FormatParseHex(s: string, c: Rgb)
    requires IsColorString(s) && ParseHex(s) == Some(c)
    ensures FormatHex(c) == s
  {
    assert PySlice(s, 1, 3) == s[1..3] && PySlice(s, 3, 5) == s[3..5] && PySlice(s, 5, 7) == s[5..7];
    TwoHexOfParsed(s[1..3], c.r);
    TwoHexOfParsed(s[3..5], c.g);
    TwoHexOfParsed(s[5..7], c.b);
    assert s == "#" + s[1..3] + s[3..5] + s[5..7];
  }

  /** Distinct colours have distinct strings, so a registry keyed by the
      string is keyed by the colour. */
  lemma FormatHexInjective(c: Rgb, d: Rgb)
    requires FormatHex(c) == FormatHex(d)
    ensures c == d
  {
    ParseFormatHex(c);
    ParseFormatHex(d);
  }

  // ---------------------------------------------------------------------------
  // The colour table: x^3 colours by a cumulative recurrence
  // ---------------------------------------------------------------------------

  /** One step of the recurrence: each channel advances by its loop index mod 256. */
  function Bump(c: Rgb, i: nat, j: nat, k: nat): Rgb
  {
    Rgb((c.r + i) % 256, (c.g + j) % 256, (c.b + k) % 256)
  }

  /** The loop indices (i, j, k) of the n-th pass through the innermost loop of
      three nested `range(x)` loops. */
  function Indices(x: nat, n: nat): (nat, nat, nat)
    requires x > 0
  {
    var rem := n % (x * x);
    (n / (x * x), rem / x, rem % x)
  }

  /** The colour produced on the n-th pass: the previous colour (black before the
      first pass) bumped by that pass's loop indices. */
  function Acc(x: nat, n: nat): Rgb
    requires x > 0
    decreases n
  {
    var prev := if n == 0 then Black else Acc(x, n - 1);
    var (i, j, k) := Indices(x, n);
    Bump(prev, i, j, k)
  }

  /** The whole table `_init_colors` returns for cube side x. */
  function ColorTable(x: nat): seq<string>
  {
    if x == 0 then [] else seq(x * x * x, n requires 0 <= n < x * x * x => FormatHex(Acc(x, n)))
  }

  lemma MulLe(a: int, b: int, c: int)
    requires a <= b && c >= 0
    ensures a * c <= b * c
  {
  }

  lemma Distrib(a: int, b: int, c: int)
    ensures (a + b) * c == a * c + b * c
    ensures c * (a + b) == c * a + c * b
  {
  }

  lemma DivModUnique(n: int, d: int, q: int, r: int)
    requires d > 0 && 0 <= r < d && n == q * d + r
    ensures n / d == q && n % d == r
  {
    var q', r' := n / d, n % d;
    assert n == q' * d + r';
    if q' < q {
      MulLe(q' + 1, q, d);
      Distrib(q', 1, d);
    } else if q < q' {
      MulLe(q + 1, q', d);
      Distrib(q, 1, d);
    }
  }

  /** j*x + k stays below x*x when j and k are loop indices. */
  lemma RowOffsetBound(x: nat, j: nat, k: nat)
    requires j < x && k < x
    ensures j * x + k < x * x
  {
    MulLe(j, x - 1, x);
    Distrib(x - 1, 1, x);
  }

  /** The pass number of (i, j, k) is i*x*x + j*x + k. */
  lemma IndicesOf(x: nat, i: nat, j: nat, k: nat)
    requires j < x && k < x
    ensures Indices(x, i * x * x + j * x + k) == (i, j, k)
  {
    var xx := x * x;
    var n := i * x * x + j * x + k;
    assert i * x * x == i * xx;
    RowOffsetBound(x, j, k);
    DivModUnique(n, xx, i, j * x + k);
    DivModUnique(j * x + k, x, j, k);
  }

  lemma IndicesDecompose(x: nat, n: nat)
    requires x > 0
    ensures var (i, j, k) := Indices(x, n); n == i * x * x + j * x + k && j < x && k < x
  {
    var xx := x * x;
    var rem := n % xx;
    var j := rem / x;
    assert n == (n / xx) * xx + rem;
    assert (n / xx) * xx == (n / xx) * x * x;
    assert rem == j * x + rem % x;
    if j >= x {
      MulLe(x, j, x);
    }
  }

  /** The table has x^3 entries and starts with black. */
  lemma ColorTableShape(x: nat)
    ensures |ColorTable(x)| == x * x * x
    ensures x > 0 ==> ColorTable(x)[0] == "#000000"
  {
    if x > 0 {
      IndicesOf(x, 0, 0, 0);
      assert Acc(x, 0) == Black;
    }
  }

  /** `_init_colors(max_colors)` with x = int(max_colors ** (1/3)) + 1 given
      directly: three nested loops that parse the previous colour string back,
      bump each channel by its loop index mod 256, format and append. */
  method InitColors(x: nat) returns (colors: seq<string>)
    ensures colors == ColorTable(x)
    ensures |colors| == x * x * x
    ensures forall n :: 0 <= n < |colors| ==> IsColorString(colors[n])
  {
    colors := [];
    var hexColor := "#000000";
    for i := 0 to x
      invariant |colors| == i * x * x
      invariant TablePrefix(x, colors, hexColor)
    {
      for j := 0 to x
        invariant |colors| == i * x * x + j * x
        invariant TablePrefix(x, colors, hexColor)
      {
        ghost var rowStart := i * x * x + j * x;
        for k := 0 to x
          invariant |colors| == rowStart + k
          invariant TablePrefix(x, colors, hexColor)
        {
          TablePrefixStep(x, colors, hexColor, i, j, k);
          var rgb := ParseHex(hexColor).value;
          hexColor := FormatHex(Bump(rgb, i, j, k));
          colors := colors + [hexColor];
        }
        Distrib(j, 1, x);
      }
      NextBlock(x, i);
    }
    if x > 0 {
      TableUpToEntries(x, |colors|);
    }
    forall n | 0 <= n < |colors| ensures IsColorString(colors[n]) {
      ParseFormatHex(Acc(x, n));
    }
  }

  lemma NextBlock(x: nat, i: nat)
    ensures i * x * x + (x - 1) * x + x == (i + 1) * x * x
  {
    var xx := x * x;
    assert i * x * x == i * xx && (i + 1) * x * x == (i + 1) * xx;
    Distrib(i, 1, xx);
    Distrib(x - 1, 1, x);
  }

  /** One pass of the innermost loop: the previous colour string parses, and
      bumping it by the pass's indices yields the next table entry. */
  lemma TablePrefixStep(x: nat, colors: seq<string>, hexColor: string, i: nat, j: nat, k: nat)
    requires TablePrefix(x, colors, hexColor)
    requires j < x && k < x && |colors| == i * x * x + j * x + k
    ensures ParseHex(hexColor).Some?
    ensures var next := FormatHex(Bump(ParseHex(hexColor).value, i, j, k));
      TablePrefix(x, colors + [next], next)
  {
    IndicesOf(x, i, j, k);
    ParseFormatHex(if |colors| == 0 then Black else Acc(x, |colors| - 1));
  }

  /** The first m entries of the table. */
  ghost function TableUpTo(x: nat, m: nat): (t: seq<string>)
    requires x > 0
    ensures |t| == m
    decreases m
  {
    if m == 0 then [] else TableUpTo(x, m - 1) + [FormatHex(Acc(x, m - 1))]
  }

  lemma {:induction false} TableUpToEntries(x: nat, m: nat)
    requires x > 0
    ensures forall n :: 0 <= n < m ==> TableUpTo(x, m)[n] == FormatHex(Acc(x, n))
    decreases m
  {
    if m > 0 {
      TableUpToEntries(x, m - 1);
    }
  }

  /** Loop invariant of InitColors: the colours so far are the table's first
      entries, and hexColor is the last of them (black before the first). */
  ghost predicate TablePrefix(x: nat, colors: seq<string>, hexColor: string)
  {
    (x == 0 ==> colors == []) &&
    (x > 0 ==>
      colors == TableUpTo(x, |colors|) &&
      hexColor == FormatHex(if |colors| == 0 then Black else Acc(x, |colors| - 1)))
  }

  // ---------------------------------------------------------------------------
  // Closed form of the recurrence, and a repeated colour
  // ---------------------------------------------------------------------------

  /** 0 + 1 + ... + (n - 1). */
  function Tri(n: nat): nat
  {
    if n == 0 then 0 else Tri(n - 1) + (n - 1)
  }

  /** The red channel before reduction mod 256 on pass (i, j, k): the sum of the
      outer loop index over every pass so far. */
  function SumR(x: nat, i: nat, j: nat, k: nat): nat
  {
    x * x * Tri(i) + i * (j * x + k + 1)
  }

  /** The green channel before reduction: the sum of the middle loop index. */
  function SumG(x: nat, i: nat, j: nat, k: nat): nat
  {
    i * x * Tri(x) + x * Tri(j) + j * (k + 1)
  }

  /** The blue channel before reduction: the sum of the inner loop index. */
  function SumB(x: nat, i: nat, j: nat, k: nat): nat
  {
    (i * x + j) * Tri(x) + Tri(k + 1)
  }

  function Closed(x: nat, i: nat, j: nat, k: nat): Rgb
  {
    Rgb(SumR(x, i, j, k) % 256, SumG(x, i, j, k) % 256, SumB(x, i, j, k) % 256)
  }

  lemma ModAdd(a: int, d: int)
    ensures (a % 256 + d) % 256 == (a + d) % 256
  {
  }

  lemma BumpClosed(x: nat, i: nat, j: nat, k: nat, i': nat, j': nat, k': nat, di: nat, dj: nat, dk: nat)
    requires SumR(x, i, j, k) == SumR(x, i', j', k') + di
    requires SumG(x, i, j, k) == SumG(x, i', j', k') + dj
    requires SumB(x, i, j, k) == SumB(x, i', j', k') + dk
    ensures Bump(Closed(x, i', j', k'), di, dj, dk) == Closed(x, i, j, k)
  {
    ModAdd(SumR(x, i', j', k'), di);
    ModAdd(SumG(x, i', j', k'), dj);
    ModAdd(SumB(x, i', j', k'), dk);
  }

  /** Inner step: k - 1 to k within one row. */
  lemma StepInner(x: nat, i: nat, j: nat, k: nat)
    requires k > 0
    ensures SumR(x, i, j, k) == SumR(x, i, j, k - 1) + i
    ensures SumG(x, i, j, k) == SumG(x, i, j, k - 1) + j
    ensures SumB(x, i, j, k) == SumB(x, i, j, k - 1) + k
  {
    var a := j * x + k;
    Distrib(a, 1, i);
    Distrib(k, 1, j);
  }

  /** Middle step: (j - 1, x - 1) to (j, 0). */
  lemma StepMiddle(x: nat, i: nat, j: nat)
    requires x > 0 && j > 0
    ensures SumR(x, i, j, 0) == SumR(x, i, j - 1, x - 1) + i
    ensures SumG(x, i, j, 0) == SumG(x, i, j - 1, x - 1) + j
    ensures SumB(x, i, j, 0) == SumB(x, i, j - 1, x - 1)
  {
    var t := Tri(x);
    var a := j * x;
    Distrib(j - 1, 1, x);
    assert (j - 1) * x + (x - 1) + 1 == a;
    Distrib(a, 1, i);
    assert Tri(j) == Tri(j - 1) + (j - 1);
    Distrib(Tri(j - 1), j - 1, x);
    var c := i * x + (j - 1);
    Distrib(c, 1, t);
    assert Tri(1) == 0;
  }

  /** Outer step: (i - 1, x - 1, x - 1) to (i, 0, 0). */
  lemma StepOuter(x: nat, i: nat)
    requires x > 0 && i > 0
    ensures SumR(x, i, 0, 0) == SumR(x, i - 1, x - 1, x - 1) + i
    ensures SumG(x, i, 0, 0) == SumG(x, i - 1, x - 1, x - 1)
    ensures SumB(x, i, 0, 0) == SumB(x, i - 1, x - 1, x - 1)
  {
    StepOuterRed(x, i);
    StepOuterGreen(x, i);
    StepOuterBlue(x, i);
  }

  lemma StepOuterRed(x: nat, i: nat)
    requires x > 0 && i > 0
    ensures SumR(x, i, 0, 0) == SumR(x, i - 1, x - 1, x - 1) + i
  {
    var xx := x * x;
    assert Tri(i) == Tri(i - 1) + (i - 1);
    Distrib(x - 1, 1, x);
    assert (x - 1) * x + (x - 1) + 1 == xx;
    Distrib(Tri(i - 1), i - 1, xx);
    assert x * x * Tri(i) == xx * Tri(i);
    assert x * x * Tri(i - 1) == xx * Tri(i - 1);
    assert (i - 1) * xx == xx * (i - 1);
  }

  lemma StepOuterGreen(x: nat, i: nat)
    requires x > 0 && i > 0
    ensures SumG(x, i, 0, 0) == SumG(x, i - 1, x - 1, x - 1)
  {
    var t := Tri(x);
    assert t == Tri(x - 1) + (x - 1);
    var xt := x * t;
    assert i * x * t == i * xt;
    assert (i - 1) * x * t == (i - 1) * xt;
    Distrib(i - 1, 1, xt);
    Distrib(Tri(x - 1), x - 1, x);
    assert (x - 1) * ((x - 1) + 1) == (x - 1) * x;
  }

  lemma StepOuterBlue(x: nat, i: nat)
    requires x > 0 && i > 0
    ensures SumB(x, i, 0, 0) == SumB(x, i - 1, x - 1, x - 1)
  {
    var t := Tri(x);
    assert Tri(1) == 0;
    Distrib(i - 1, 1, x);
    var c := (i - 1) * x + (x - 1);
    assert c + 1 == i * x;
    Distrib(c, 1, t);
  }

  /** The table entry on pass (i, j, k) in closed form: the channels are running
      sums of the loop indices, reduced mod 256. */
  lemma {:induction false} AccClosedForm(x: nat, n: nat)
    requires x > 0
    ensures var (i, j, k) := Indices(x, n); Acc(x, n) == Closed(x, i, j, k)
    decreases n
  {
    var (i, j, k) := Indices(x, n);
    if n == 0 {
      IndicesOf(x, 0, 0, 0);
      assert Tri(1) == 0;
    } else {
      var prev := Acc(x, n - 1);
      assert Acc(x, n) == Bump(prev, i, j, k);
      var (i', j', k') := Indices(x, n - 1);
      assert prev == Closed(x, i', j', k') by {
        AccClosedForm(x, n - 1);
      }
      if k > 0 {
        assert (i', j', k') == (i, j, k - 1) by {
          PrevIndices(x, n);
        }
        assert Bump(prev, i, j, k) == Closed(x, i, j, k) by {
          StepInner(x, i, j, k);
          BumpClosed(x, i, j, k, i, j, k - 1, i, j, k);
        }
      } else if j > 0 {
        assert (i', j', k') == (i, j - 1, x - 1) by {
          PrevIndices(x, n);
        }
        assert Bump(prev, i, j, k) == Closed(x, i, j, k) by {
          StepMiddle(x, i, j);
          BumpClosed(x, i, j, 0, i, j - 1, x - 1, i, j, 0);
        }
      } else {
        assert i > 0 && (i', j', k') == (i - 1, x - 1, x - 1) by {
          PrevIndices(x, n);
        }
        assert Bump(prev, i, j, k) == Closed(x, i, j, k) by {
          StepOuter(x, i);
          BumpClosed(x, i, 0, 0, i - 1, x - 1, x - 1, i, 0, 0);
        }
      }
    }
  }

  /** The loop indices of the pass before pass n. */
  lemma PrevIndices(x: nat, n: nat)
    requires x > 0 && n > 0
    ensures var (i, j, k) := Indices(x, n);
      && (k > 0 ==> Indices(x, n - 1) == (i, j, k - 1))
      && (k == 0 && j > 0 ==> Indices(x, n - 1) == (i, j - 1, x - 1))
      && (k == 0 && j == 0 ==> i > 0 && Indices(x, n - 1) == (i - 1, x - 1, x - 1))
  {
    var (i, j, k) := Indices(x, n);
    IndicesDecompose(x, n);
    if k > 0 {
      IndicesOf(x, i, j, k - 1);
    } else if j > 0 {
      PrevOfRowStart(x, i, j);
      IndicesOf(x, i, j - 1, x - 1);
    } else {
      assert i > 0;
      PrevOfBlockStart(x, i);
      IndicesOf(x, i - 1, x - 1, x - 1);
    }
  }

  lemma PrevOfRowStart(x: nat, i: nat, j: nat)
    requires x > 0 && j > 0
    ensures i * x * x + j * x - 1 == i * x * x + (j - 1) * x + (x - 1)
  {
    Distrib(j - 1, 1, x);
  }

  lemma PrevOfBlockStart(x: nat, i: nat)
    requires x > 0 && i > 0
    ensures i * x * x - 1 == (i - 1) * x * x + (x - 1) * x + (x - 1)
  {
    var xx := x * x;
    assert i * x * x == i * xx && (i - 1) * x * x == (i - 1) * xx;
    Distrib(i - 1, 1, xx);
    Distrib(x - 1, 1, x);
  }

  /** The table does not hold distinct colours: with side 8 (512 colours, the
      table the float cube root gives for 344 <= max_words <= 512) entries
      219 and 292 are both #14c4fa, so a document of 293 or more words tags
      two words alike. */
  lemma ColorTableRepeats()
    ensures |ColorTable(8)| == 512
    ensures ColorTable(8)[219] == ColorTable(8)[292] == "#14c4fa"
  {
    var c := Rgb(20, 196, 250);
    assert Acc(8, 219) == c by {
      IndicesOf(8, 3, 3, 3);
      AccClosedForm(8, 219);
      ClosedValues();
    }
    assert Acc(8, 292) == c by {
      IndicesOf(8, 4, 4, 4);
      AccClosedForm(8, 292);
      ClosedValues();
    }
    assert FormatHex(c) == "#14c4fa" by {
      assert 20 / 16 == 1 && 20 % 16 == 4 && 196 / 16 == 12 && 196 % 16 == 4 && 250 / 16 == 15 && 250 % 16 == 10;
      assert TwoHex(20) == "14" && TwoHex(196) == "c4" && TwoHex(250) == "fa";
    }
  }

  lemma ClosedValues()
    ensures Closed(8, 3, 3, 3) == Rgb(20, 196, 250) == Closed(8, 4, 4, 4)
  {
    assert Tri(3) == 3 && Tri(4) == 6 && Tri(5) == 10;
    assert Tri(8) == 28;
    assert SumR(8, 3, 3, 3) == 276 && SumR(8, 4, 4, 4) == 532;
    assert SumG(8, 3, 3, 3) == 708 && SumG(8, 4, 4, 4) == 964;
    assert SumB(8, 3, 3, 3) == 762 && SumB(8, 4, 4, 4) == 1018;
  }
}
