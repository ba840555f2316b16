/** The bookkeeping of the `Manager` of src/manager.py: the split of the URL
    list into one contiguous chunk per process, the pairing of ports, the
    check of an annotation file, and the merge of the per-process folders
    into numbered files of the output directory. */
module ManagerModel {
  import opened Common
  import opened FileStore

  // ---------------------------------------------------------------------------
  // _split_urls_to_chunks
  // ---------------------------------------------------------------------------

  function Min(a: nat, b: nat): nat
  {
    if a <= b then a else b
  }

  /** Where chunk i starts and ends, for n URLs over k processes. */
  function ChunkStart(n: nat, k: nat, i: nat): nat
    requires k > 0
  {
    i * (n / k) + Min(i, n % k)
  }

  function ChunkEnd(n: nat, k: nat, i: nat): nat
    requires k > 0
  {
    ChunkStart(n, k, i) + n / k + (if i < n % k then 1 else 0)
  }

  /** Each chunk ends where the next begins, the first begins at 0 and the
      k-th would begin at n, so the chunks tile the list. */
  lemma ChunkTiles(n: nat, k: nat, i: nat)
    requires k > 0 && i <= k
    ensures ChunkStart(n, k, 0) == 0
    ensures i < k ==> ChunkEnd(n, k, i) == ChunkStart(n, k, i + 1)
    ensures ChunkStart(n, k, i) <= ChunkStart(n, k, k) == n
  {
    var cs, rem := n / k, n % k;
    assert (i + 1) * cs == i * cs + cs;
    assert k * cs + rem == n;
    assert i * cs <= k * cs by {
      MulMono(i, k, cs);
    }
  }

  lemma MulMono(a: nat, b: nat, c: nat)
    requires a <= b
    ensures a * c <= b * c
  {
  }

  /** `urls[start:end]` for chunk i. */
  function Chunk(urls: seq<string>, k: nat, i: nat): seq<string>
    requires 0 <= i < k
  {
    ChunkTiles(|urls|, k, i);
    ChunkTiles(|urls|, k, i + 1);
    urls[ChunkStart(|urls|, k, i)..ChunkEnd(|urls|, k, i)]
  }

  lemma ChunkLength(urls: seq<string>, k: nat, i: nat)
    requires 0 <= i < k
    ensures |Chunk(urls, k, i)| == |urls| / k + (if i < |urls| % k then 1 else 0)
  {
    ChunkTiles(|urls|, k, i);
    ChunkTiles(|urls|, k, i + 1);
  }

  lemma ChunkBounds(urls: seq<string>, k: nat, i: nat)
    requires 0 <= i < k
    ensures ChunkStart(|urls|, k, i) <= ChunkEnd(|urls|, k, i) == ChunkStart(|urls|, k, i + 1) <= |urls|
    ensures Chunk(urls, k, i) == urls[ChunkStart(|urls|, k, i)..ChunkEnd(|urls|, k, i)]
  {
    ChunkTiles(|urls|, k, i);
    ChunkTiles(|urls|, k, i + 1);
  }

  /** Appending the slice that follows a covered prefix covers up to its
      end. */
  lemma ConcatSnoc(urls: seq<string>, chunks: seq<seq<string>>, s: nat, e: nat)
    requires s <= e <= |urls| && Concat(chunks) == urls[..s]
    ensures Concat(chunks + [urls[s..e]]) == urls[..e]
  {
    var cs := chunks + [urls[s..e]];
    assert cs[..|cs| - 1] == chunks;
    assert urls[..e] == urls[..s] + urls[s..e];
  }

  /** The concatenation of a list of chunks, last chunk last. */
  function Concat(chunks: seq<seq<string>>): seq<string>
  {
    if chunks == [] then [] else Concat(chunks[..|chunks| - 1]) + chunks[|chunks| - 1]
  }

  // ---------------------------------------------------------------------------
  // Port pairs
  // ---------------------------------------------------------------------------

  /** The ports the generators get: process i gets `ports[i]` for its server
      and `ports[k + i]` for UNO; an index past the list raises. */
  function PortPairs(ports: seq<int>, k: nat): Result<seq<(int, int)>>
  {
    if 2 * k <= |ports| then Ok(seq(k, i requires 0 <= i < k => (ports[i], ports[k + i])))
    else Err(IndexOutOfRange)
  }

  /** The pairing succeeds exactly when there are at least 2k ports, and then with
      pairwise different ports no two of the 2k ports handed out coincide. */
  lemma PortPairsDistinct(ports: seq<int>, k: nat)
    requires forall a, b :: 0 <= a < b < |ports| ==> ports[a] != ports[b]
    ensures PortPairs(ports, k).Ok? <==> 2 * k <= |ports|
    ensures PortPairs(ports, k).Ok? ==>
      var pairs := PortPairs(ports, k).value;
      |pairs| == k &&
      (forall i :: 0 <= i < k ==> pairs[i].0 != pairs[i].1) &&
      (forall i, j :: 0 <= i < j < k ==>
        pairs[i].0 != pairs[j].0 && pairs[i].1 != pairs[j].1 && pairs[i].0 != pairs[j].1 && pairs[i].1 != pairs[j].0)
  {
  }

  // ---------------------------------------------------------------------------
  // Python's string order and sorted()
  // ---------------------------------------------------------------------------

  /** Python's `a < b` on strings: by code points, a proper prefix first. */
  predicate StrLt(a: string, b: string)
    decreases |a|
  {
    |b| > 0 && (|a| == 0 || a[0] < b[0] || (a[0] == b[0] && StrLt(a[1..], b[1..])))
  }

  lemma {:induction false} StrLtAsym(a: string, b: string)
    requires StrLt(a, b)
    ensures !StrLt(b, a) && a != b
    decreases |a|
  {
    if |a| > 0 && a[0] == b[0] {
      StrLtAsym(a[1..], b[1..]);
    }
  }

  lemma {:induction false} StrLtTrans(a: string, b: string, c: string)
    requires StrLt(a, b) && StrLt(b, c)
    ensures StrLt(a, c)
    decreases |a|
  {
    if |a| > 0 && a[0] == b[0] && b[0] == c[0] {
      StrLtTrans(a[1..], b[1..], c[1..]);
    }
  }

  lemma {:induction false} StrLtTotal(a: string, b: string)
    ensures a == b || StrLt(a, b) || StrLt(b, a)
    decreases |a|
  {
    if |a| > 0 && |b| > 0 && a[0] == b[0] {
      StrLtTotal(a[1..], b[1..]);
      if a[1..] == b[1..] {
        assert a == [a[0]] + a[1..] && b == [b[0]] + b[1..];
      }
    }
  }

  predicate IsLeast(m: string, s: set<string>)
  {
    m in s && forall y :: y in s && y != m ==> StrLt(m, y)
  }

  lemma {:induction false} LeastExists(s: set<string>)
    requires s != {}
    ensures exists m :: IsLeast(m, s)
    decreases |s|
  {
    var x :| x in s;
    if s == {x} {
      assert IsLeast(x, s);
    } else {
      LeastExists(s - {x});
      var m :| IsLeast(m, s - {x});
      StrLtTotal(m, x);
      if StrLt(m, x) {
        assert IsLeast(m, s);
      } else {
        forall y | y in s && y != x ensures StrLt(x, y) {
          if y != m {
            StrLtTrans(x, m, y);
          }
        }
        assert IsLeast(x, s);
      }
    }
  }

  lemma LeastUnique(a: string, b: string, s: set<string>)
    requires IsLeast(a, s) && IsLeast(b, s)
    ensures a == b
  {
    if a != b {
      StrLtAsym(a, b);
    }
  }

  /** The least name of a non-empty set. */
  ghost function Least(s: set<string>): (m: string)
    requires s != {}
    ensures IsLeast(m, s)
  {
    LeastExists(s);
    var m :| IsLeast(m, s);
    m
  }

  /** `sorted()` of a set of names: the least name first, then the rest. */
  ghost function SortedOf(s: set<string>): seq<string>
    decreases |s|
  {
    if s == {} then [] else [Least(s)] + SortedOf(s - {Least(s)})
  }

  /** SortedOf lists every name of the set once, in strictly increasing order. */
  lemma {:induction false} SortedOfSpec(s: set<string>)
    ensures var xs := SortedOf(s);
      |xs| == |s| && (forall x :: x in xs <==> x in s) &&
      forall i, j :: 0 <= i < j < |xs| ==> StrLt(xs[i], xs[j])
    decreases |s|
  {
    if s != {} {
      var m := Least(s);
      SortedOfSpec(s - {m});
      var xs := SortedOf(s);
      forall i, j | 0 <= i < j < |xs| ensures StrLt(xs[i], xs[j]) {
        if i == 0 {
          assert xs[j] in s - {m};
        } else {
          assert xs[i] == SortedOf(s - {m})[i - 1] && xs[j] == SortedOf(s - {m})[j - 1];
        }
      }
    }
  }

  lemma SortedOfUnfold(s: set<string>, m: string)
    requires IsLeast(m, s)
    ensures SortedOf(s) == [m] + SortedOf(s - {m})
  {
    LeastUnique(m, Least(s), s);
  }

  /** `sorted()` as a selection loop: take the least name left each time. */
  method SortedNames(s: set<string>) returns (xs: seq<string>)
    ensures xs == SortedOf(s)
  {
    xs := [];
    var rest := s;
    while rest != {}
      invariant xs + SortedOf(rest) == SortedOf(s)
      decreases |rest|
    {
      LeastExists(rest);
      var m :| IsLeast(m, rest);
      SortedOfUnfold(rest, m);
      xs := xs + [m];
      rest := rest - {m};
    }
  }

  /** Sorting is by characters, not by numbers: page 10 is merged before
      page 2. */
  lemma MergeOrderNotNumeric()
    ensures StrLt(JsonName(10), JsonName(2))
  {
    assert DecimalString(10) == "10";
    assert DecimalString(2) == "2";
    assert JsonName(10) == "im_10.png.json";
    assert JsonName(2) == "im_2.png.json";
    assert StrLt("1", "2");
    assert "im_10.png.json"[3..] == "10.png.json";
    assert "im_2.png.json"[3..] == "2.png.json";
  }

  // ---------------------------------------------------------------------------
  // The file system and _validate_annotations
  // ---------------------------------------------------------------------------

  /** The directories and the files directly inside them. */
  datatype Fs = Fs(dirs: set<string>, files: map<Path, Content>)

  /** `_validate_annotations(image, anno)`: a missing image or annotation
      makes it false; an annotation `json.load` or the key lookups reject
      raises; otherwise it holds exactly when there are as many words as
      boxes. */
  function Validate(fs: Fs, image: Path, json: Path): Result<bool>
  {
    if image !in fs.files then Ok(false)
    else if json !in fs.files then Ok(false)
    else match fs.files[json]
      case Json(a) => Ok(|a.words| == |a.bboxes|)
      case _ => Err(MalformedJson)
  }

  lemma ValidateIff(fs: Fs, image: Path, json: Path)
    ensures Validate(fs, image, json) == Ok(true) <==>
      image in fs.files && json in fs.files && fs.files[json].Json? &&
      |fs.files[json].anno.words| == |fs.files[json].anno.bboxes|
    ensures Validate(fs, image, json).Err? <==>
      image in fs.files && json in fs.files && !fs.files[json].Json?
  {
  }

  // ---------------------------------------------------------------------------
  // _merge_all_folders
  // ---------------------------------------------------------------------------

  /** `out_dir / f"tmp_process_{i}"`. */
  function TmpFolder(outDir: string, i: nat): string
  {
    outDir + "/tmp_process_" + DecimalString(i)
  }

  lemma TmpFolderDistinct(outDir: string, i: nat, j: nat)
    ensures TmpFolder(outDir, i) != outDir
    ensures TmpFolder(outDir, i) == TmpFolder(outDir, j) ==> i == j
  {
    var p := outDir + "/tmp_process_";
    if TmpFolder(outDir, i) == TmpFolder(outDir, j) {
      assert DecimalString(i) == TmpFolder(outDir, i)[|p|..] == TmpFolder(outDir, j)[|p|..] == DecimalString(j);
      DecimalStringInjective(i, j);
    }
  }

  /** The merged names `image_{c}.png`, `image_{c}.png.json` and
      `image_{c}_colored.png`. */
  function OutImage(c: nat): string
  {
    "image_" + DecimalString(c) + ".png"
  }

  function OutJson(c: nat): string
  {
    OutImage(c) + ".json"
  }

  function OutTwin(c: nat): string
  {
    "image_" + DecimalString(c) + "_colored.png"
  }

  /** `shutil.move`: the file goes to its new path, replacing what was there. */
  function Move(fs: Fs, src: Path, dst: Path): Fs
    requires src in fs.files
  {
    fs.(files := (fs.files - {src})[dst := fs.files[src]])
  }

  /** The number of occurrences of c in s. */
  function CountChar(s: string, c: char): nat
  {
    if s == [] then 0 else (if s[0] == c then 1 else 0) + CountChar(s[1..], c)
  }

  /** The part of s after its first c, if it has one. */
  function After(s: string, c: char): Option<string>
  {
    if s == [] then None else if s[0] == c then Some(s[1..]) else After(s[1..], c)
  }

  /** `s.split(c)[0]`: the part of s before its first c, or all of s. */
  function Before(s: string, c: char): string
  {
    if s == [] || s[0] == c then [] else [s[0]] + Before(s[1..], c)
  }

  /** `_, number = name.split("_")` then `number.split(".")[0]`: the unpack
      raises unless the name has exactly one underscore. */
  function NumberOf(name: string): Option<string>
  {
    if CountChar(name, '_') == 1 && After(name, '_').Some? then Some(Before(After(name, '_').value, '.'))
    else None
  }

  /** The names the generator writes give back their number. */
  lemma NumberOfJsonName(n: nat)
    ensures NumberOf(JsonName(n)) == Some(DecimalString(n))
  {
    var d := DecimalString(n);
    var rest := d + ".png.json";
    assert JsonName(n) == "im_" + rest;
    CountInName(d);
    AfterPrefix(rest);
    DigitsBefore(d, ".png.json");
  }

  lemma CountInName(d: string)
    requires forall k :: 0 <= k < |d| ==> IsDigit(d[k])
    ensures CountChar("im_" + (d + ".png.json"), '_') == 1
  {
    DigitsCount(d, '_');
    AppendCount(d, ".png.json", '_');
    AppendCount("im_", d + ".png.json", '_');
    assert CountChar(".png.json", '_') == 0;
    assert CountChar("im_", '_') == 1;
  }

  lemma AfterPrefix(t: string)
    ensures After("im_" + t, '_') == Some(t)
  {
    var s := "im_" + t;
    assert s[0] == 'i' && s[1..] == "m_" + t;
    assert ("m_" + t)[0] == 'm' && ("m_" + t)[1..] == "_" + t;
    assert ("_" + t)[0] == '_' && ("_" + t)[1..] == t;
    assert After("_" + t, '_') == Some(t);
    assert After("m_" + t, '_') == Some(t);
  }

  lemma {:induction false} AppendCount(a: string, b: string, c: char)
    ensures CountChar(a + b, c) == CountChar(a, c) + CountChar(b, c)
    decreases |a|
  {
    if a == [] {
      assert a + b == b;
    } else {
      assert (a + b)[1..] == a[1..] + b;
      AppendCount(a[1..], b, c);
    }
  }

  lemma {:induction false} DigitsCount(d: string, c: char)
    requires !IsDigit(c) && forall k :: 0 <= k < |d| ==> IsDigit(d[k])
    ensures CountChar(d, c) == 0
    decreases |d|
  {
    if d != [] {
      DigitsCount(d[1..], c);
    }
  }

  lemma {:induction false} DigitsBefore(d: string, rest: string)
    requires forall k :: 0 <= k < |d| ==> IsDigit(d[k])
    requires |rest| > 0 && rest[0] == '.'
    ensures Before(d + rest, '.') == d
    decreases |d|
  {
    if d == [] {
      assert d + rest == rest;
    } else {
      assert (d + rest)[1..] == d[1..] + rest;
      DigitsBefore(d[1..], rest);
      assert d == [d[0]] + d[1..];
    }
  }

  /** The merge state: the file system, the next output number and the count
      of rejected annotations. */
  datatype Merge = Merge(fs: Fs, counter: nat, bad: nat)

  /** One annotation `name` of `folder`: a valid pair moves to the next
      output number, then the coloured twin follows if it exists; an invalid
      pair only counts as bad. The unpack of the name's number raises after
      the pair has moved. */
  function MergeFile(outDir: string, folder: string, name: string, m: Merge): (Merge, Option<Error>)
    requires |name| >= 5
  {
    var json := (folder, name);
    var image := (folder, name[..|name| - 5]);
    var v := Validate(m.fs, image, json);
    if v.Err? then (m, Some(v.error))
    else if !v.value then (m.(bad := m.bad + 1), None)
    else
      var fs1 := Move(Move(m.fs, image, (outDir, OutImage(m.counter))), json, (outDir, OutJson(m.counter)));
      var number := NumberOf(name);
      if number.None? then (m.(fs := fs1), Some(UnpackMismatch))
      else
        var twin := (folder, "im_" + number.value + "_colored.png");
        var fs2 := if twin in fs1.files then Move(fs1, twin, (outDir, OutTwin(m.counter))) else fs1;
        (Merge(fs2, m.counter + 1, m.bad), None)
  }

  /** The inner loop over the sorted annotation names of one folder. */
  function MergeNames(outDir: string, folder: string, names: seq<string>, m: Merge): (Merge, Option<Error>)
    requires forall k :: 0 <= k < |names| ==> |names[k]| >= 5
    decreases |names|
  {
    if names == [] then (m, None)
    else
      var (m1, err) := MergeFile(outDir, folder, names[0], m);
      if err.Some? then (m1, err) else MergeNames(outDir, folder, names[1..], m1)
  }

  /** One step of the folder loop, from name j on. */
  lemma MergeNamesStep(outDir: string, folder: string, names: seq<string>, j: nat, m: Merge)
    requires forall k :: 0 <= k < |names| ==> |names[k]| >= 5
    requires j < |names|
    ensures MergeNames(outDir, folder, names[j..], m) ==
      (var (m1, err) := MergeFile(outDir, folder, names[j], m);
       if err.Some? then (m1, err) else MergeNames(outDir, folder, names[j + 1..], m1))
  {
    assert names[j..][0] == names[j] && names[j..][1..] == names[j + 1..];
  }

  /** The names in a folder that end with ".png.json". */
  function JsonNames(fs: Fs, folder: string): set<string>
  {
    set q | q in fs.files && q.0 == folder && EndsWith(q.1, ".png.json") :: q.1
  }

  lemma JsonNamesLong(fs: Fs, folder: string, names: seq<string>)
    requires forall x :: x in names ==> x in JsonNames(fs, folder)
    ensures forall k :: 0 <= k < |names| ==> |names[k]| >= 5
  {
    forall k | 0 <= k < |names| ensures |names[k]| >= 5 {
      assert names[k] in JsonNames(fs, folder);
    }
  }

  /** The outer loop: every folder that is a directory, in list order, its
      annotations in sorted order. */
  ghost function MergeFolders(outDir: string, folders: seq<string>, m: Merge): (Merge, Option<Error>)
    decreases |folders|
  {
    if folders == [] then (m, None)
    else if folders[0] !in m.fs.dirs then MergeFolders(outDir, folders[1..], m)
    else
      var names := SortedOf(JsonNames(m.fs, folders[0]));
      SortedOfSpec(JsonNames(m.fs, folders[0]));
      JsonNamesLong(m.fs, folders[0], names);
      var (m1, err) := MergeNames(outDir, folders[0], names, m);
      if err.Some? then (m1, err) else MergeFolders(outDir, folders[1..], m1)
  }

  /** `shutil.rmtree(d)`: the directory and the files in it go. */
  function RemoveTree(fs: Fs, d: string): Fs
  {
    Fs(fs.dirs - {d}, map q | q in fs.files && q.0 != d :: fs.files[q])
  }

  /** The removal loop from folder i on; a missing folder raises. */
  function RemoveFolders(outDir: string, k: nat, fs: Fs, i: nat): (Fs, Option<Error>)
    requires i <= k
    decreases k - i
  {
    if i == k then (fs, None)
    else if TmpFolder(outDir, i) !in fs.dirs then (fs, Some(MissingDirectory))
    else RemoveFolders(outDir, k, RemoveTree(fs, TmpFolder(outDir, i)), i + 1)
  }

  /** After the removal loop without error no process folder and no file in
      one is left, and every other file is as it was; the loop raises
      exactly when one of the folders is not a directory. */
  lemma {:induction false} RemoveFoldersSpec(outDir: string, k: nat, fs: Fs, i: nat)
    requires i <= k
    ensures var (fs', err) := RemoveFolders(outDir, k, fs, i);
      (err.None? <==> forall j :: i <= j < k ==> TmpFolder(outDir, j) in fs.dirs) &&
      (err.None? ==>
        fs'.dirs <= fs.dirs &&
        (forall j :: i <= j < k ==> TmpFolder(outDir, j) !in fs'.dirs) &&
        (forall q :: q in fs'.files ==> q in fs.files && fs'.files[q] == fs.files[q]) &&
        (forall q :: q in fs'.files ==> forall j :: i <= j < k ==> q.0 != TmpFolder(outDir, j)) &&
        (forall q :: q in fs.files && (forall j :: i <= j < k ==> q.0 != TmpFolder(outDir, j)) ==>
           q in fs'.files && fs'.files[q] == fs.files[q]))
    decreases k - i
  {
    if i < k && TmpFolder(outDir, i) in fs.dirs {
      var fs1 := RemoveTree(fs, TmpFolder(outDir, i));
      RemoveFoldersSpec(outDir, k, fs1, i + 1);
      forall j | i < j < k ensures (TmpFolder(outDir, j) in fs1.dirs <==> TmpFolder(outDir, j) in fs.dirs) {
        TmpFolderDistinct(outDir, i, j);
      }
    }
  }

  /** `_merge_all_folders`: merge every folder, then remove every process
      folder. */
  ghost function MergeSpec(outDir: string, folders: seq<string>, k: nat, fs: Fs): (Merge, Option<Error>)
  {
    var (m, err) := MergeFolders(outDir, folders, Merge(fs, 0, 0));
    if err.Some? then (m, err)
    else
      var (fs', err') := RemoveFolders(outDir, k, m.fs, 0);
      (m.(fs := fs'), err')
  }

  // ---------------------------------------------------------------------------
  // Properties of the merge
  // ---------------------------------------------------------------------------

  /** A merge step touches only files of its folder and of the output
      directory, and never the directories. */
  lemma MergeFileFrame(outDir: string, folder: string, name: string, m: Merge)
    requires |name| >= 5
    ensures var m' := MergeFile(outDir, folder, name, m).0;
      m'.fs.dirs == m.fs.dirs &&
      forall q: Path :: q.0 != folder && q.0 != outDir ==>
        (q in m'.fs.files <==> q in m.fs.files) && (q in m.fs.files ==> m'.fs.files[q] == m.fs.files[q])
  {
  }

  /** A step either counts the pair as good (the next number) or as bad, or
      raises. */
  lemma MergeFileCount(outDir: string, folder: string, name: string, m: Merge)
    requires |name| >= 5
    ensures var (m', err) := MergeFile(outDir, folder, name, m);
      err.None? ==> m'.counter + m'.bad == m.counter + m.bad + 1 && m.counter <= m'.counter
  {
  }

  /** Names that cannot collide: the three outputs of any two numbers, and
      the same output of two different numbers. */
  lemma OutNamesDistinct(c: nat, d: nat)
    ensures OutImage(c) != OutJson(d) && OutImage(c) != OutTwin(d) && OutJson(c) != OutTwin(d)
    ensures c != d ==> OutImage(c) != OutImage(d) && OutJson(c) != OutJson(d)
  {
    var i, j, t := OutImage(c), OutJson(d), OutTwin(d);
    assert i[|i| - 1] == 'g' && j[|j| - 1] == 'n';
    NotTwin(OutImage(c), ".png", d);
    NotTwin(OutJson(c), ".png.json", d);
    if c != d {
      OutImageInjective(c, d);
      OutJsonInjective(c, d);
    }
  }

  /** A name of the digits of c followed by a suffix of fewer than 12
      characters that starts with a dot is never a coloured twin's name. */
  lemma NotTwin(name: string, suffix: string, d: nat)
    requires exists c: nat :: name == "image_" + DecimalString(c) + suffix
    requires 0 < |suffix| < 12 && suffix[0] == '.'
    ensures name != OutTwin(d)
  {
    var c: nat :| name == "image_" + DecimalString(c) + suffix;
    var dc, dd, t := DecimalString(c), DecimalString(d), OutTwin(d);
    if |name| == |t| {
      var p := 6 + |dd|;
      assert |dc| > |dd|;
      assert name[p] == dc[|dd|] && IsDigit(dc[|dd|]);
      assert t[p] == '_';
    }
  }

  lemma OutJsonInjective(c: nat, d: nat)
    ensures OutJson(c) == OutJson(d) ==> c == d
  {
    assert OutJson(c)[..|OutJson(c)| - 5] == OutImage(c);
    assert OutJson(d)[..|OutJson(d)| - 5] == OutImage(d);
    OutImageInjective(c, d);
  }

  lemma OutImageInjective(c: nat, d: nat)
    ensures OutImage(c) == OutImage(d) ==> c == d
  {
    var dc, dd := DecimalString(c), DecimalString(d);
    if OutImage(c) == OutImage(d) {
      assert |dc| == |dd|;
      assert dc == OutImage(c)[6..6 + |dc|] == OutImage(d)[6..6 + |dd|] == dd;
      DecimalStringInjective(c, d);
    }
  }

  /** A merged pair: the image and a valid annotation under number c. */
  ghost predicate Merged(fs: Fs, outDir: string, c: nat)
  {
    (outDir, OutImage(c)) in fs.files && (outDir, OutJson(c)) in fs.files &&
    fs.files[(outDir, OutJson(c))].Json? &&
    |fs.files[(outDir, OutJson(c))].anno.words| == |fs.files[(outDir, OutJson(c))].anno.bboxes|
  }

  /** A merge step keeps the pairs merged before it and, when it counts a
      good pair, adds the merged pair under the old counter. */
  lemma MergeFileOutputs(outDir: string, folder: string, name: string, m: Merge)
    requires |name| >= 5 && folder != outDir
    ensures var (m', err) := MergeFile(outDir, folder, name, m);
      (forall c: nat :: c < m.counter && Merged(m.fs, outDir, c) ==> Merged(m'.fs, outDir, c)) &&
      (err.None? && m'.counter == m.counter + 1 ==> Merged(m'.fs, outDir, m.counter))
  {
    var (m', err) := MergeFile(outDir, folder, name, m);
    forall c: nat | c < m.counter && Merged(m.fs, outDir, c) ensures Merged(m'.fs, outDir, c) {
      OutNamesDistinct(c, m.counter);
      OutNamesDistinct(m.counter, c);
    }
    if err.None? && m'.counter == m.counter + 1 {
      OutNamesDistinct(m.counter, m.counter);
    }
  }

  /** The names loop: without an error every name counts once, as good or as
      bad; the good ones are the numbers from the old counter on, each a
      merged pair; pairs merged before stay; only files of the folder and the
      output directory change. */
  lemma {:induction false} MergeNamesSpec(outDir: string, folder: string, names: seq<string>, m: Merge)
    requires forall k :: 0 <= k < |names| ==> |names[k]| >= 5
    requires folder != outDir
    ensures var (m', err) := MergeNames(outDir, folder, names, m);
      m.counter <= m'.counter &&
      (err.None? ==> m'.counter + m'.bad == m.counter + m.bad + |names|) &&
      (forall c: nat :: c < m.counter && Merged(m.fs, outDir, c) ==> Merged(m'.fs, outDir, c)) &&
      (forall c :: m.counter <= c < m'.counter ==> Merged(m'.fs, outDir, c)) &&
      m'.fs.dirs == m.fs.dirs &&
      (forall q: Path :: q.0 != folder && q.0 != outDir ==>
        (q in m'.fs.files <==> q in m.fs.files) && (q in m.fs.files ==> m'.fs.files[q] == m.fs.files[q]))
    decreases |names|
  {
    if names != [] {
      var (m1, err) := MergeFile(outDir, folder, names[0], m);
      MergeFileFrame(outDir, folder, names[0], m);
      MergeFileCount(outDir, folder, names[0], m);
      MergeFileOutputs(outDir, folder, names[0], m);
      if err.None? {
        MergeNamesSpec(outDir, folder, names[1..], m1);
      }
    }
  }

  /** The number of annotations listed in the directories among the folders. */
  function Listed(fs: Fs, folders: seq<string>): nat
    decreases |folders|
  {
    if folders == [] then 0
    else (if folders[0] in fs.dirs then |JsonNames(fs, folders[0])| else 0) + Listed(fs, folders[1..])
  }

  lemma {:induction false} ListedFrame(fs: Fs, fs': Fs, folders: seq<string>)
    requires fs'.dirs == fs.dirs
    requires forall f :: f in folders ==> JsonNames(fs', f) == JsonNames(fs, f)
    ensures Listed(fs', folders) == Listed(fs, folders)
    decreases |folders|
  {
    if folders != [] {
      ListedFrame(fs, fs', folders[1..]);
    }
  }

  lemma JsonNamesFrame(fs: Fs, fs': Fs, f: string)
    requires forall q: Path :: q.0 == f ==> (q in fs'.files <==> q in fs.files)
    ensures JsonNames(fs', f) == JsonNames(fs, f)
  {
    forall x | x in JsonNames(fs, f) ensures x in JsonNames(fs', f) {
      assert (f, x) in fs.files;
    }
    forall x | x in JsonNames(fs', f) ensures x in JsonNames(fs, f) {
      assert (f, x) in fs'.files;
    }
  }

  /** The folder loop, for distinct folders none of which is the output
      directory: without an error every annotation listed in a folder that
      is a directory counts once, as good or as bad, and every good one is
      a merged pair numbered from the start on. */
  lemma {:induction false} MergeFoldersSpec(outDir: string, folders: seq<string>, m: Merge)
    requires forall i, j :: 0 <= i < j < |folders| ==> folders[i] != folders[j]
    requires forall f :: f in folders ==> f != outDir
    ensures var (m', err) := MergeFolders(outDir, folders, m);
      m.counter <= m'.counter &&
      (err.None? ==> m'.counter + m'.bad == m.counter + m.bad + Listed(m.fs, folders)) &&
      (forall c: nat :: c < m.counter && Merged(m.fs, outDir, c) ==> Merged(m'.fs, outDir, c)) &&
      (forall c :: m.counter <= c < m'.counter ==> Merged(m'.fs, outDir, c))
    decreases |folders|
  {
    if folders != [] {
      var f := folders[0];
      assert f in folders;
      assert forall g :: g in folders[1..] ==> g in folders;
      if f !in m.fs.dirs {
        MergeFoldersSpec(outDir, folders[1..], m);
      } else {
        var names := SortedOf(JsonNames(m.fs, f));
        SortedOfSpec(JsonNames(m.fs, f));
        JsonNamesLong(m.fs, f, names);
        var (m1, err) := MergeNames(outDir, f, names, m);
        MergeNamesSpec(outDir, f, names, m);
        if err.None? {
          MergeFoldersSpec(outDir, folders[1..], m1);
          forall g | g in folders[1..] ensures JsonNames(m1.fs, g) == JsonNames(m.fs, g) {
            assert g != f && g != outDir;
            JsonNamesFrame(m.fs, m1.fs, g);
          }
          ListedFrame(m.fs, m1.fs, folders[1..]);
        }
      }
    }
  }

  /** The process folders of k processes are distinct and none of them is
      the output directory. */
  lemma TmpFoldersDistinct(outDir: string, k: nat)
    ensures var folders := seq(k, i requires 0 <= i < k => TmpFolder(outDir, i));
      (forall i, j :: 0 <= i < j < |folders| ==> folders[i] != folders[j]) &&
      (forall f :: f in folders ==> f != outDir)
  {
    var folders := seq(k, i requires 0 <= i < k => TmpFolder(outDir, i));
    forall i, j | 0 <= i < j < |folders| ensures folders[i] != folders[j] {
      TmpFolderDistinct(outDir, i, j);
    }
    forall f | f in folders ensures f != outDir {
      var i :| 0 <= i < k && folders[i] == f;
      TmpFolderDistinct(outDir, i, i);
    }
  }

  /** `_merge_all_folders` over the process folders: without an error every
      listed annotation counts once, as good or as bad, the good ones are
      merged pairs `image_0` .. `image_{counter-1}`, and no process folder
      or file in one is left. */
  lemma MergeSpecResult(outDir: string, k: nat, fs: Fs)
    ensures var folders := seq(k, i requires 0 <= i < k => TmpFolder(outDir, i));
      var (m, err) := MergeSpec(outDir, folders, k, fs);
      err.None? ==>
        m.counter + m.bad == Listed(fs, folders) &&
        (forall c :: 0 <= c < m.counter ==> Merged(m.fs, outDir, c)) &&
        (forall j :: 0 <= j < k ==> TmpFolder(outDir, j) !in m.fs.dirs) &&
        (forall q :: q in m.fs.files ==> forall j :: 0 <= j < k ==> q.0 != TmpFolder(outDir, j))
  {
    var folders := seq(k, i requires 0 <= i < k => TmpFolder(outDir, i));
    TmpFoldersDistinct(outDir, k);
    var (m1, err1) := MergeFolders(outDir, folders, Merge(fs, 0, 0));
    MergeFoldersSpec(outDir, folders, Merge(fs, 0, 0));
    if err1.None? {
      RemoveFoldersSpec(outDir, k, m1.fs, 0);
      var (fs', err') := RemoveFolders(outDir, k, m1.fs, 0);
      if err'.None? {
        forall j | 0 <= j < k ensures outDir != TmpFolder(outDir, j) {
          TmpFolderDistinct(outDir, j, j);
        }
        forall c: nat | c < m1.counter ensures Merged(fs', outDir, c) {
          assert Merged(m1.fs, outDir, c);
          var qi, qj := (outDir, OutImage(c)), (outDir, OutJson(c));
          assert qi in fs'.files && qj in fs'.files && fs'.files[qj] == m1.fs.files[qj];
        }
      }
    }
  }

  // ---------------------------------------------------------------------------
  // The manager
  // ---------------------------------------------------------------------------

  class Manager {
    const outDir: string
    const numProcesses: nat
    /** `out_dir / f"tmp_process_{i}"` for each process. */
    const folders: seq<string>
    /** The file system the merge works on. */
    var disk: Fs

    constructor (out: string, processes: nat, fs: Fs)
      ensures outDir == out && numProcesses == processes && disk == fs
      ensures folders == seq(processes, i requires 0 <= i < processes => TmpFolder(out, i))
    {
      outDir := out;
      numProcesses := processes;
      folders := seq(processes, i requires 0 <= i < processes => TmpFolder(out, i));
      disk := fs;
    }

    /** `_split_urls_to_chunks`: with no processes the floor division raises;
        otherwise one contiguous chunk per process, the first n % k chunks
        one longer, together the whole list in order. */
    method SplitUrlsToChunks(urls: seq<string>) returns (r: Result<seq<seq<string>>>)
      ensures numProcesses == 0 ==> r == Err(ZeroDivision)
      ensures numProcesses > 0 ==> r.Ok?
      ensures r.Ok? ==>
        (var chunks, n, k := r.value, |urls|, numProcesses;
         |chunks| == k > 0 &&
         (forall i :: 0 <= i < k ==> |chunks[i]| == n / k + (if i < n % k then 1 else 0)) &&
         (forall i :: 0 <= i < k ==> chunks[i] == Chunk(urls, k, i)) &&
         Concat(chunks) == urls)
    {
      if numProcesses == 0 {
        return Err(ZeroDivision);
      }
      var n, k := |urls|, numProcesses;
      var chunkSize := n / k;
      var remainder := n % k;
      var chunks: seq<seq<string>> := [];
      assert ChunkStart(n, k, 0) == 0;
      for i := 0 to k
        invariant |chunks| == i
        invariant forall t :: 0 <= t < i ==> chunks[t] == Chunk(urls, k, t)
        invariant ChunkStart(n, k, i) <= n && Concat(chunks) == urls[..ChunkStart(n, k, i)]
      {
        chunks := AppendChunk(urls, k, chunkSize, remainder, i, chunks);
      }
      assert ChunkStart(n, k, k) == n by {
        ChunkTiles(n, k, k);
      }
      forall t | 0 <= t < k ensures |chunks[t]| == n / k + (if t < n % k then 1 else 0) {
        ChunkLength(urls, k, t);
      }
      assert urls[..n] == urls;
      r := Ok(chunks);
    }

    /** Turn i of the chunk loop: the slice from i * chunk_size +
        min(i, remainder), one longer for the first `remainder` turns. */
    static method AppendChunk(urls: seq<string>, k: nat, chunkSize: int, remainder: int, i: nat, chunks: seq<seq<string>>)
      returns (chunks': seq<seq<string>>)
      requires 0 <= i < k && chunkSize == |urls| / k && remainder == |urls| % k
      requires ChunkStart(|urls|, k, i) <= |urls| && Concat(chunks) == urls[..ChunkStart(|urls|, k, i)]
      ensures chunks' == chunks + [Chunk(urls, k, i)]
      ensures ChunkStart(|urls|, k, i + 1) <= |urls| && Concat(chunks') == urls[..ChunkStart(|urls|, k, i + 1)]
    {
      var startIndex := i * chunkSize + Min(i, remainder);
      var endIndex := startIndex + chunkSize + (if i < remainder then 1 else 0);
      assert startIndex == ChunkStart(|urls|, k, i) && endIndex == ChunkEnd(|urls|, k, i);
      assert endIndex == ChunkStart(|urls|, k, i + 1) <= |urls| && Chunk(urls, k, i) == urls[startIndex..endIndex] by {
        ChunkBounds(urls, k, i);
      }
      ConcatSnoc(urls, chunks, startIndex, endIndex);
      chunks' := chunks + [urls[startIndex..endIndex]];
    }

    /** One annotation of the merge. */
    method MergeOne(folder: string, name: string, counter: nat, bad: nat) returns (counter': nat, bad': nat, err: Option<Error>)
      requires |name| >= 5
      modifies this`disk
      ensures (Merge(disk, counter', bad'), err) == MergeFile(outDir, folder, name, Merge(old(disk), counter, bad))
    {
      counter', bad' := counter, bad;
      var json := (folder, name);
      var image := (folder, name[..|name| - 5]);
      var valid := Validate(disk, image, json);
      if valid.Err? {
        return counter', bad', Some(valid.error);
      }
      if !valid.value {
        return counter', bad' + 1, None;
      }
      disk := Move(disk, image, (outDir, OutImage(counter)));
      disk := Move(disk, json, (outDir, OutJson(counter)));
      var number := NumberOf(name);
      if number.None? {
        return counter', bad', Some(UnpackMismatch);
      }
      var twin := (folder, "im_" + number.value + "_colored.png");
      if twin in disk.files {
        disk := Move(disk, twin, (outDir, OutTwin(counter)));
      }
      return counter + 1, bad', None;
    }

    /** The annotations of one folder, in sorted order. */
    method MergeFolder(folder: string, counter: nat, bad: nat) returns (counter': nat, bad': nat, err: Option<Error>)
      modifies this`disk
      ensures var names := SortedOf(JsonNames(old(disk), folder));
        (forall k :: 0 <= k < |names| ==> |names[k]| >= 5) &&
        (Merge(disk, counter', bad'), err) == MergeNames(outDir, folder, names, Merge(old(disk), counter, bad))
    {
      var names := SortedNames(JsonNames(disk, folder));
      SortedOfSpec(JsonNames(disk, folder));
      JsonNamesLong(disk, folder, names);
      ghost var m0 := Merge(disk, counter, bad);
      counter', bad', err := counter, bad, None;
      for j := 0 to |names|
        invariant err.None?
        invariant MergeNames(outDir, folder, names[j..], Merge(disk, counter', bad')) == MergeNames(outDir, folder, names, m0)
      {
        counter', bad', err := MergeAt(folder, names, j, counter', bad');
        if err.Some? {
          return;
        }
      }
      assert names[|names|..] == [];
    }

    /** Turn j of the folder loop: the annotation names[j] is merged, and
        either the loop goes on with the next name or it stops with an error. */
    method MergeAt(folder: string, names: seq<string>, j: nat, counter: nat, bad: nat) returns (counter': nat, bad': nat, err: Option<Error>)
      requires forall k :: 0 <= k < |names| ==> |names[k]| >= 5
      requires j < |names|
      modifies this`disk
      ensures err.None? ==> (MergeNames(outDir, folder, names[j..], Merge(old(disk), counter, bad)) ==
        MergeNames(outDir, folder, names[j + 1..], Merge(disk, counter', bad')))
      ensures err.Some? ==> (MergeNames(outDir, folder, names[j..], Merge(old(disk), counter, bad)) ==
        (Merge(disk, counter', bad'), err))
    {
      MergeNamesStep(outDir, folder, names, j, Merge(disk, counter, bad));
      counter', bad', err := MergeOne(folder, names[j], counter, bad);
    }

    /** The removal loop over the process folders. */
    method RemoveProcessFolders() returns (err: Option<Error>)
      modifies this`disk
      ensures (disk, err) == RemoveFolders(outDir, numProcesses, old(disk), 0)
    {
      for i := 0 to numProcesses
        invariant RemoveFolders(outDir, numProcesses, disk, i) == RemoveFolders(outDir, numProcesses, old(disk), 0)
      {
        var d := TmpFolder(outDir, i);
        if d !in disk.dirs {
          return Some(MissingDirectory);
        }
        disk := RemoveTree(disk, d);
      }
      return None;
    }

    /** `_merge_all_folders`; the counts are the last output number plus one
        and the number of rejected annotations. */
    method MergeAllFolders() returns (counter: nat, bad: nat, err: Option<Error>)
      modifies this`disk
      ensures (Merge(disk, counter, bad), err) == MergeSpec(outDir, folders, numProcesses, old(disk))
    {
      counter, bad, err := 0, 0, None;
      for f := 0 to |folders|
        invariant err.None?
        invariant MergeFolders(outDir, folders[f..], Merge(disk, counter, bad)) == MergeFolders(outDir, folders, Merge(old(disk), 0, 0))
      {
        assert folders[f..][0] == folders[f] && folders[f..][1..] == folders[f + 1..];
        if folders[f] in disk.dirs {
          counter, bad, err := MergeFolder(folders[f], counter, bad);
          if err.Some? {
            return;
          }
        }
      }
      assert folders[|folders|..] == [];
      err := RemoveProcessFolders();
    }
  }
}
