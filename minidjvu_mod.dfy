/**
 * The command-line front end of minidjvu-mod (tools/minidjvu-mod.c): the
 * option-name matcher, the checks on numeric switches, the pages-per-dict
 * clamp of multi-page encoding, the page numbering of each dictionary and
 * the order of the chunks in the document directory.
 */
module MinidjvuMod {
  import opened Options

  // ---------------------------------------------------------------- switches

  /**
   * same_option: a switch (with its first `-` already dropped) names the
   * option s when it is the first letter of s alone, s itself, or s after
   * a second `-`.
   */
  function SameOption(o: string, s: string): (r: bool)
    requires s != []
    ensures r <==> o == [s[0]] || o == s || o == ['-'] + s
  {
    if |o| == 1 && o[0] == s[0] then true
    else if o == s then true
    else if |o| >= 1 && o[0] == '-' && o[1..] == s then true
    else false
  }

  /** The switches process_options knows, in the order it tries them. */
  const Switches: seq<string> := ["verbose", "smooth", "match", "Match", "no-prototypes", "erosion", "clean",
    "warnings", "report", "Averaging", "lossy", "Lossy", "pages-per-dict", "dpi", "aggression", "Classifier",
    "Xtension", "indirect", "threads-max", "unbuffered", "Settings"]

  /** Names of at least two letters, none starting with `-`, no two with the same first letter. */
  predicate Distinguishable(names: seq<string>) {
    (forall i :: 0 <= i < |names| ==> |names[i]| >= 2 && names[i][0] != '-') &&
    (forall i, j :: 0 <= i < j < |names| ==> names[i][0] != names[j][0])
  }

  /** Among distinguishable names, a switch names at most one. */
  lemma DistinguishableUnambiguous(names: seq<string>, o: string, i: nat, j: nat)
    requires Distinguishable(names) && i < |names| && j < |names|
    requires SameOption(o, names[i]) && SameOption(o, names[j])
    ensures i == j
  {
  }

  /** The first letters of the switches, in order. */
  const SwitchLetters: string := "vsmMnecwrAlLpdaCXituS"

  lemma SwitchLettersDistinct()
    ensures forall k, l :: 0 <= k < l < |SwitchLetters| ==> SwitchLetters[k] != SwitchLetters[l]
  {
  }

  lemma SwitchesDistinguishable()
    ensures Distinguishable(Switches)
  {
    assert forall k :: 0 <= k < |Switches| ==> |Switches[k]| >= 2 && Switches[k][0] == SwitchLetters[k];
    SwitchLettersDistinct();
  }

  /** Every switch of minidjvu-mod, in any of its three forms, selects exactly one option. */
  lemma SwitchesUnambiguous(o: string, i: nat, j: nat)
    requires i < |Switches| && j < |Switches|
    requires SameOption(o, Switches[i]) && SameOption(o, Switches[j])
    ensures i == j
  {
    SwitchesDistinguishable();
    DistinguishableUnambiguous(Switches, o, i, j);
  }

  /** What a numeric switch leaves: its value, or the exit code of a bad one. */
  datatype Checked = Accepted(value: int) | Rejected(exitCode: int)

  /** `-pages-per-dict N`: a negative count ends the program with status 2. */
  function PagesPerDictArgument(v: int): (r: Checked)
    ensures r.Accepted? <==> v >= 0
    ensures r.Accepted? ==> r.value == v
    ensures r.Rejected? ==> r.exitCode == 2
  {
    if v < 0 then Rejected(2) else Accepted(v)
  }

  /** `-dpi N`: a resolution outside [20, 2000] ends the program with status 2. */
  function DpiArgument(v: int): (r: Checked)
    ensures r.Accepted? <==> 20 <= v <= 2000
    ensures r.Accepted? ==> r.value == v
    ensures r.Rejected? ==> r.exitCode == 2
  {
    if v < 20 || v > 2000 then Rejected(2) else Accepted(v)
  }

  // ---------------------------------------------------------------- multi-page encoding

  /**
   * The clamp at the start of multipage_encode: no more pages per
   * dictionary than files, and all files in one when the count is not
   * positive.
   */
  function ClampPagesPerDict(ppd: int, n: nat): (r: int)
    ensures r == ppd || r == n
    ensures n >= 1 ==> 1 <= r <= n && (r == ppd <==> 0 < ppd <= n)
  {
    if ppd <= 0 then n
    else if ppd > n then n
    else ppd
  }

  lemma ClampIdempotent(ppd: int, n: nat)
    ensures ClampPagesPerDict(ClampPagesPerDict(ppd, n), n) == ClampPagesPerDict(ppd, n)
  {
  }

  /** The pages of the dictionaries before dictionary k. */
  function PagesBefore(ds: seq<DjbzOptions>, k: nat): nat
    requires k <= |ds|
  {
    if k == 0 then 0 else PagesBefore(ds, k - 1) + |ds[k - 1].fileListRef.files|
  }

  /** The page numbers of two dictionaries do not overlap, and come in the order of the dictionaries. */
  lemma {:induction false} PagesBeforeOrdered(ds: seq<DjbzOptions>, k: nat, j: nat)
    requires k < j <= |ds|
    ensures PagesBefore(ds, k) + |ds[k].fileListRef.files| <= PagesBefore(ds, j)
  {
    if j > k + 1 {
      PagesBeforeOrdered(ds, k, j - 1);
    }
  }

  /** The inner loop summing the sizes of the dictionaries before dictionary k. */
  method CountPagesBefore(ds: seq<DjbzOptions>, k: nat) returns (pagesCompressed: nat)
    requires k <= |ds|
    ensures pagesCompressed == PagesBefore(ds, k)
  {
    pagesCompressed := 0;
    for i := 0 to k
      invariant pagesCompressed == PagesBefore(ds, i)
    {
      pagesCompressed := pagesCompressed + |ds[i].fileListRef.files|;
    }
  }

  /**
   * The dictionary a page's chunk refers to: none when the dictionary is
   * not saved (it came out empty) or the page has no bitmaps.
   */
  function DictChunk(d: DjbzOptions, pageBitmaps: nat): (r: Option<string>)
    ensures r.Some? <==> !d.doNotSave && pageBitmaps > 0 && d.chunkId.Some?
    ensures r.Some? ==> r == d.chunkId
  {
    if d.doNotSave || pageBitmaps == 0 then None else d.chunkId
  }

  /**
   * One turn of the dictionary loop of multipage_encode, for dictionary
   * k. The compression is not part of this model: dictBitmaps is the
   * bitmap count of the shared dictionary it makes, pageBitmaps that of
   * each page. A dictionary without bitmaps is marked not to be saved;
   * startPage is the number of the dictionary's first page; chunks gives
   * the dictionary each page refers to.
   */
  method EncodeDictionary(app: AppOptions, k: nat, dictBitmaps: nat, pageBitmaps: seq<nat>)
      returns (startPage: nat, chunks: seq<Option<string>>)
    requires k < |app.djbzList| && |pageBitmaps| == |app.djbzList[k].fileListRef.files|
    modifies app
    ensures app.djbzList == old(app.djbzList)[k := old(app.djbzList[k]).(doNotSave :=
      old(app.djbzList[k].doNotSave) || dictBitmaps == 0)]
    ensures app.fileList == old(app.fileList) && app.defaultDjbz == old(app.defaultDjbz)
    ensures startPage == PagesBefore(old(app.djbzList), k) + 1
    ensures |chunks| == |pageBitmaps|
    ensures forall i :: 0 <= i < |chunks| ==> chunks[i] == DictChunk(app.djbzList[k], pageBitmaps[i])
  {
    var pagesCompressed := CountPagesBefore(app.djbzList, k);
    startPage := pagesCompressed + 1;
    if dictBitmaps == 0 {
      app.djbzList := app.djbzList[k := app.djbzList[k].(doNotSave := true)];
    }
    var d := app.djbzList[k];
    chunks := [];
    for i := 0 to |pageBitmaps|
      invariant |chunks| == i
      invariant forall j :: 0 <= j < i ==> chunks[j] == DictChunk(d, pageBitmaps[j])
    {
      chunks := chunks + [DictChunk(d, pageBitmaps[i])];
    }
  }

  // ---------------------------------------------------------------- the document directory

  /** A chunk of the document directory: a shared dictionary or a page. */
  datatype Element = DictElement(dict: nat) | PageElement(page: nat)

  /** Every file is in no dictionary or in one of the m dictionaries. */
  predicate LinksWithin(files: seq<InputFile>, m: nat) {
    forall i :: 0 <= i < |files| && files[i].djbz.Some? ==> files[i].djbz.value < m
  }

  /** Some file before the i-th is in dictionary k. */
  ghost predicate UsedBefore(files: seq<InputFile>, i: nat, k: nat)
    requires i <= |files|
  {
    exists j :: 0 <= j < i && files[j].djbz == Some(k)
  }

  /**
   * The directory of the first n files: each page preceded by its
   * dictionary when it is the first page of a dictionary still to be
   * saved (skip[k] is the do-not-save mark of dictionary k).
   */
  ghost function Directory(files: seq<InputFile>, skip: seq<bool>, n: nat): seq<Element>
    requires n <= |files| && LinksWithin(files, |skip|)
  {
    if n == 0 then []
    else
      var i := n - 1;
      var dict := if files[i].djbz.Some? && !skip[files[i].djbz.value] && !UsedBefore(files, i, files[i].djbz.value)
                  then [DictElement(files[i].djbz.value)] else [];
      Directory(files, skip, i) + dict + [PageElement(i)]
  }

  /** The page numbers in a list of chunks, in order. */
  function Pages(d: seq<Element>): seq<nat> {
    if d == [] then []
    else Pages(d[..|d| - 1]) + (if d[|d| - 1].PageElement? then [d[|d| - 1].page] else [])
  }

  lemma {:induction false} PagesAppend(a: seq<Element>, b: seq<Element>)
    ensures Pages(a + b) == Pages(a) + Pages(b)
    decreases |b|
  {
    if b == [] {
      assert a + b == a;
    } else {
      assert (a + b)[..|a + b| - 1] == a + b[..|b| - 1];
      PagesAppend(a, b[..|b| - 1]);
    }
  }

  /** 0, 1, ..., n - 1. */
  function Iota(n: nat): (r: seq<nat>)
    ensures |r| == n && forall i :: 0 <= i < n ==> r[i] == i
  {
    if n == 0 then [] else Iota(n - 1) + [n - 1]
  }

  /** Every page is in the directory exactly once, in the order of the file list. */
  lemma {:induction false} DirectoryPages(files: seq<InputFile>, skip: seq<bool>, n: nat)
    requires n <= |files| && LinksWithin(files, |skip|)
    ensures Pages(Directory(files, skip, n)) == Iota(n)
  {
    if n > 0 {
      var i := n - 1;
      var dict := if files[i].djbz.Some? && !skip[files[i].djbz.value] && !UsedBefore(files, i, files[i].djbz.value)
                  then [DictElement(files[i].djbz.value)] else [];
      DirectoryPages(files, skip, i);
      PagesAppend(Directory(files, skip, i), dict);
      PagesAppend(Directory(files, skip, i) + dict, [PageElement(i)]);
      assert Pages(dict) == [] by {
        if dict != [] {
          assert Pages(dict) == Pages(dict[..0]) + [];
        }
      }
      assert Pages([PageElement(i)]) == Pages([PageElement(i)][..0]) + [i];
    }
  }

  /**
   * A dictionary is in the directory once when it is to be saved and
   * some file is in it, and otherwise not at all.
   */
  lemma {:induction false} DirectoryDicts(files: seq<InputFile>, skip: seq<bool>, n: nat, k: nat)
    requires n <= |files| && LinksWithin(files, |skip|) && k < |skip|
    ensures multiset(Directory(files, skip, n))[DictElement(k)] == if !skip[k] && UsedBefore(files, n, k) then 1 else 0
  {
    if n > 0 {
      var i := n - 1;
      var prev := Directory(files, skip, i);
      var dict := if files[i].djbz.Some? && !skip[files[i].djbz.value] && !UsedBefore(files, i, files[i].djbz.value)
                  then [DictElement(files[i].djbz.value)] else [];
      assert Directory(files, skip, n) == prev + dict + [PageElement(i)];
      DirectoryDicts(files, skip, i, k);
      UsedBeforeNext(files, i, k);
      assert multiset(dict)[DictElement(k)] ==
        if files[i].djbz == Some(k) && !skip[k] && !UsedBefore(files, i, k) then 1 else 0;
    }
  }

  /** The files before file i + 1 are those before file i and file i. */
  lemma UsedBeforeNext(files: seq<InputFile>, i: nat, k: nat)
    requires i < |files|
    ensures UsedBefore(files, i + 1, k) <==> UsedBefore(files, i, k) || files[i].djbz == Some(k)
  {
    if UsedBefore(files, i + 1, k) && files[i].djbz != Some(k) {
      var j :| 0 <= j < i + 1 && files[j].djbz == Some(k);
      assert j < i;
    }
  }

  /** A dictionary in the directory comes right before the first page in it. */
  lemma {:induction false} DirectoryDictFirst(files: seq<InputFile>, skip: seq<bool>, n: nat, p: nat)
    requires n <= |files| && LinksWithin(files, |skip|)
    requires p < |Directory(files, skip, n)| && Directory(files, skip, n)[p].DictElement?
    ensures p + 1 < |Directory(files, skip, n)|
    ensures var d := Directory(files, skip, n);
      d[p + 1].PageElement? && d[p + 1].page < n && files[d[p + 1].page].djbz == Some(d[p].dict) &&
      !UsedBefore(files, d[p + 1].page, d[p].dict)
  {
    var i := n - 1;
    var prev := Directory(files, skip, i);
    var dict := if files[i].djbz.Some? && !skip[files[i].djbz.value] && !UsedBefore(files, i, files[i].djbz.value)
                then [DictElement(files[i].djbz.value)] else [];
    var d := prev + dict + [PageElement(i)];
    assert Directory(files, skip, n) == d;
    if p < |prev| {
      DirectoryDictFirst(files, skip, i, p);
      assert d[p] == prev[p] && d[p + 1] == prev[p + 1];
    } else {
      assert dict != [] && p == |prev|;
      assert d[p] == dict[0] && d[p + 1] == PageElement(i);
    }
  }

  /** The do-not-save marks of the dictionaries. */
  function Skips(ds: seq<DjbzOptions>): (s: seq<bool>)
    ensures |s| == |ds| && forall k :: 0 <= k < |ds| ==> s[k] == ds[k].doNotSave
  {
    if ds == [] then [] else Skips(ds[..|ds| - 1]) + [ds[|ds| - 1].doNotSave]
  }

  /** The dictionaries after the directory loop has seen i files: those used so far are marked. */
  ghost function Marked(ds: seq<DjbzOptions>, files: seq<InputFile>, i: nat): (r: seq<DjbzOptions>)
    requires i <= |files|
    ensures |r| == |ds|
    ensures forall k :: 0 <= k < |ds| ==> r[k] == ds[k].(doNotSave := ds[k].doNotSave || UsedBefore(files, i, k))
  {
    seq(|ds|, k requires 0 <= k < |ds| => ds[k].(doNotSave := ds[k].doNotSave || UsedBefore(files, i, k)))
  }

  /** The number of marked dictionaries. */
  function Trues(s: seq<bool>): (c: nat)
    ensures c <= |s|
  {
    if s == [] then 0 else Trues(s[..|s| - 1]) + (if s[|s| - 1] then 1 else 0)
  }

  lemma {:induction false} TruesSet(s: seq<bool>, k: nat)
    requires k < |s| && !s[k]
    ensures Trues(s[k := true]) == Trues(s) + 1
    ensures Trues(s) < |s|
    decreases |s|
  {
    var t := s[k := true];
    assert t[..|t| - 1] == if k < |s| - 1 then s[..|s| - 1][k := true] else s[..|s| - 1];
    if k < |s| - 1 {
      TruesSet(s[..|s| - 1], k);
    }
  }

  /** One more file seen by the directory loop. */
  lemma MarkedNext(ds: seq<DjbzOptions>, files: seq<InputFile>, i: nat)
    requires i < |files| && LinksWithin(files, |ds|)
    ensures var cur := Marked(ds, files, i);
      Marked(ds, files, i + 1) ==
        if files[i].djbz.Some? && !cur[files[i].djbz.value].doNotSave
        then cur[files[i].djbz.value := cur[files[i].djbz.value].(doNotSave := true)]
        else cur
  {
    var cur, next := Marked(ds, files, i), Marked(ds, files, i + 1);
    forall k | 0 <= k < |ds|
      ensures UsedBefore(files, i + 1, k) <==> UsedBefore(files, i, k) || files[i].djbz == Some(k)
    {
      UsedBeforeNext(files, i, k);
    }
  }

  /** Marking dictionary k sets its do-not-save mark and no other. */
  lemma SkipsSet(ds: seq<DjbzOptions>, k: nat)
    requires k < |ds|
    ensures Skips(ds[k := ds[k].(doNotSave := true)]) == Skips(ds)[k := true]
  {
  }

  /** The directory after file i, in terms of the marks the loop has made before it. */
  lemma DirectoryNext(ds: seq<DjbzOptions>, files: seq<InputFile>, i: nat)
    requires i < |files| && LinksWithin(files, |ds|)
    ensures var cur := Marked(ds, files, i);
      Directory(files, Skips(ds), i + 1) == Directory(files, Skips(ds), i) +
        (if files[i].djbz.Some? && !cur[files[i].djbz.value].doNotSave then [DictElement(files[i].djbz.value)] else []) +
        [PageElement(i)]
  {
  }

  /**
   * The directory loop of multipage_encode: every page's chunk, each
   * preceded by its dictionary's chunk when that dictionary is still to
   * be saved, which the loop then marks as saved. elements has room for
   * every file and every dictionary; count chunks are filled.
   */
  method DirectoryElements(app: AppOptions) returns (elements: array<Element>, count: nat)
    requires LinksWithin(app.fileList.files, |app.djbzList|)
    modifies app
    ensures app.fileList == old(app.fileList) && app.defaultDjbz == old(app.defaultDjbz)
    ensures elements.Length == |app.fileList.files| + |old(app.djbzList)| && count <= elements.Length
    ensures elements[..count] == Directory(app.fileList.files, Skips(old(app.djbzList)), |app.fileList.files|)
    ensures app.djbzList == Marked(old(app.djbzList), app.fileList.files, |app.fileList.files|)
  {
    var files, ds := app.fileList.files, app.djbzList;
    ghost var skip := Skips(ds);
    var n, m := |files|, |ds|;
    elements := new Element[n + m];
    var el: nat := 0;
    for i := 0 to n
      invariant DirectorySoFar(files, old(app.djbzList), ds, el, i, elements[..])
      modifies elements
    {
      ds, el := DirectoryItem(files, ds, elements, el, i, old(app.djbzList));
    }
    app.djbzList := ds;
    count := el;
  }

  /** Writing slot n of a buffer extends its first n slots by one. */
  lemma Extended(before: seq<Element>, after: seq<Element>, n: nat)
    requires n < |before| == |after| && after == before[n := after[n]]
    ensures after[..n + 1] == before[..n] + [after[n]]
  {
    assert after[..n] == before[..n];
  }

  /**
   * The state of the directory loop after i files: the dictionaries those
   * files use are marked, and the first el elements are the directory of
   * those files, which fits in the buffer.
   */
  ghost predicate DirectorySoFar(files: seq<InputFile>, ds0: seq<DjbzOptions>, ds: seq<DjbzOptions>, el: nat, i: nat,
                                 elements: seq<Element>)
  {
    i <= |files| && LinksWithin(files, |ds0|) && |elements| == |files| + |ds0| &&
    ds == Marked(ds0, files, i) && el + Trues(Skips(ds0)) == i + Trues(Skips(ds)) && el <= |elements| &&
    elements[..el] == Directory(files, Skips(ds0), i)
  }

  /** One turn of the directory loop: file i's dictionary when it is first used, then file i. */
  method DirectoryItem(files: seq<InputFile>, ds: seq<DjbzOptions>, elements: array<Element>, el: nat, i: nat,
                       ghost ds0: seq<DjbzOptions>)
    returns (ds': seq<DjbzOptions>, el': nat)
    requires i < |files| && DirectorySoFar(files, ds0, ds, el, i, elements[..])
    modifies elements
    ensures DirectorySoFar(files, ds0, ds', el', i + 1, elements[..])
  {
    MarkedNext(ds0, files, i);
    DirectoryNext(ds0, files, i);
    ds', el' := ds, el;
    if files[i].djbz.Some? && !ds[files[i].djbz.value].doNotSave {
      var k := files[i].djbz.value;
      TruesSet(Skips(ds), k);
      SkipsSet(ds, k);
      elements[el] := DictElement(k);
      Extended(old(elements[..]), elements[..], el);
      el' := el + 1;
      ds' := ds[k := ds[k].(doNotSave := true)];
    }
    ghost var mid := elements[..];
    elements[el'] := PageElement(i);
    Extended(mid, elements[..], el');
    el' := el' + 1;
  }
}
