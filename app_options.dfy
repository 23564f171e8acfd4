/**
 * The option containers of the command-line tool
 * (tools/settings-reader/AppOptions.cpp): image options, input files,
 * growable file lists, dictionary (djbz) settings and their list, the
 * grouping of unassigned pages into dictionaries, and the file-name and
 * chunk-id string routines.
 *
 * Lists are values here: a FileList is its entries and the allocated
 * capacity (data_size); a file's `djbz` pointer is the index its
 * dictionary has in the dictionary list. The structure the tool mutates,
 * AppOptions, is a class.
 */
module Options {

  datatype Option<T> = None | Some(value: T)

  /** The result of an operation that may end the program with exit(-2). */
  datatype Outcome<T> = Done(value: T) | Abort

  // ---------------------------------------------------------------- image options

  datatype ImageOptions = ImageOptions(dpiSpecified: int, dpi: int, smooth: int, clean: int, erosion: int)

  /**
   * image_options_create: a copy of the given defaults; without them,
   * smoothing, cleaning and erosion are off and 300 dpi is not specified.
   */
  function ImageOptionsCreate(defaults: Option<ImageOptions>): (o: ImageOptions)
    ensures defaults.Some? ==> o == defaults.value
    ensures defaults.None? ==> o.smooth == 0 && o.clean == 0 && o.erosion == 0 && o.dpi == 300 && o.dpiSpecified == 0
  {
    if defaults.Some? then defaults.value else ImageOptions(0, 300, 0, 0, 0)
  }

  // ---------------------------------------------------------------- input files

  datatype InputFile = InputFile(
    name: string,
    page: int,
    imageOptions: Option<ImageOptions>,
    outputDpi: int,
    chunkId: Option<string>,
    djbz: Option<nat>)

  /**
   * The entry file_list_add_filename_and_page makes: input_file_create's
   * defaults (300 dpi output, no chunk id, no dictionary) with the name,
   * the page and a copy of the options.
   */
  function NewInputFile(name: string, page: int, options: Option<ImageOptions>): (f: InputFile)
    ensures f.name == name && f.page == page && f.imageOptions == options
    ensures f.outputDpi == 300 && f.chunkId.None? && f.djbz.None?
  {
    InputFile(name, page, if options.Some? then Some(ImageOptionsCreate(options)) else None, 300, None, None)
  }

  /** A list of entries with the capacity allocated for it. */
  datatype FileList<T> = FileList(files: seq<T>, dataSize: nat) {
    ghost predicate Valid() {
      |files| <= dataSize
    }
  }

  /** file_list_reserve: grow the capacity to size when it is smaller; the entries stay. */
  function Reserve<T>(fl: FileList<T>, size: int): (r: FileList<T>)
    ensures r.files == fl.files
    ensures r.dataSize >= fl.dataSize && r.dataSize >= size
    ensures r.dataSize == fl.dataSize || r.dataSize == size
  {
    if size > fl.dataSize then FileList(fl.files, size) else fl
  }

  /**
   * file_list_add_file_ref: append at index size, first growing a full
   * list by 10 entries.
   */
  function AddFileRef<T>(fl: FileList<T>, x: T): (r: FileList<T>)
    requires fl.Valid()
    ensures r.Valid()
    ensures r.files == fl.files + [x]
    ensures fl.dataSize <= |fl.files| ==> r.dataSize == fl.dataSize + 10
    ensures fl.dataSize > |fl.files| ==> r.dataSize == fl.dataSize
  {
    var g := if fl.dataSize <= |fl.files| then Reserve(fl, fl.dataSize + 10) else fl;
    FileList(g.files + [x], g.dataSize)
  }

  /** Entries appended one at a time with AddFileRef. */
  function AddAll<T>(fl: FileList<T>, xs: seq<T>): (r: FileList<T>)
    requires fl.Valid()
    ensures r.Valid() && r.files == fl.files + xs
    decreases |xs|
  {
    if xs == [] then fl
    else
      var r := AddFileRef(AddAll(fl, xs[..|xs| - 1]), xs[|xs| - 1]);
      assert xs[..|xs| - 1] + [xs[|xs| - 1]] == xs;
      r
  }

  /** Appending one more entry is one more AddFileRef. */
  lemma AddAllSnoc<T>(fl: FileList<T>, xs: seq<T>, x: T)
    requires fl.Valid()
    ensures AddAll(fl, xs + [x]) == AddFileRef(AddAll(fl, xs), x)
  {
    assert (xs + [x])[..|xs|] == xs;
  }

  /**
   * A list built from nothing by AddFileRef has a capacity that is a
   * multiple of 10 and less than 10 entries larger than the list.
   */
  lemma {:induction false} AddAllCapacity<T>(xs: seq<T>)
    ensures var r := AddAll(FileList([], 0), xs);
      r.dataSize % 10 == 0 && |xs| <= r.dataSize < |xs| + 10
    decreases |xs|
  {
    if xs != [] {
      AddAllCapacity(xs[..|xs| - 1]);
    }
  }

  // ---------------------------------------------------------------- multi-page files

  function LowerChar(c: char): char {
    if 'A' <= c <= 'Z' then (c as int + 32) as char else c
  }

  function Lower(s: string): (r: string)
    ensures |r| == |s|
  {
    seq(|s|, k requires 0 <= k < |s| => LowerChar(s[k]))
  }

  /** The name ends in suffix, letter case aside. */
  predicate EndsWithIgnoreCase(s: string, suffix: string) {
    |suffix| <= |s| && Lower(s[|s| - |suffix|..]) == Lower(suffix)
  }

  /** is_tiff: the name ends in .tif or .tiff. */
  predicate IsTiff(name: string) {
    EndsWithIgnoreCase(name, ".tiff") || EndsWithIgnoreCase(name, ".tif")
  }

  /**
   * A multi-page TIFF: a TIFF name for which libtiff reports more than one
   * page. The page count libtiff reports is the parameter tiffPages.
   */
  predicate Multipage(name: string, tiffPages: string -> int) {
    IsTiff(name) && tiffPages(name) > 1
  }

  /** The entries for pages lo .. hi-1 of a file, in page order. */
  function PageEntries(name: string, lo: int, hi: int, options: Option<ImageOptions>): (s: seq<InputFile>)
    ensures |s| == if hi > lo then hi - lo else 0
    ensures forall k :: 0 <= k < |s| ==> s[k] == NewInputFile(name, lo + k, options)
  {
    seq(if hi > lo then hi - lo else 0, k => NewInputFile(name, lo + k, options))
  }

  /** The number of pages file_list_add_filename makes for a file. */
  function PageCount(name: string, tiffPages: string -> int): int {
    if Multipage(name, tiffPages) then tiffPages(name) else 1
  }

  /**
   * file_list_add_filename: one entry per page of a multi-page TIFF,
   * otherwise one entry for page 0.
   */
  method AddFilename(fl: FileList<InputFile>, name: string, options: Option<ImageOptions>, tiffPages: string -> int)
    returns (r: FileList<InputFile>)
    requires fl.Valid()
    ensures r == AddAll(fl, PageEntries(name, 0, PageCount(name, tiffPages), options))
  {
    if Multipage(name, tiffPages) {
      r := AddPages(fl, name, 0, tiffPages(name), options);
    } else {
      r := AddPages(fl, name, 0, 1, options);
    }
  }

  /** The loop of both: one entry per page from lo up to hi (exclusive). */
  method AddPages(fl: FileList<InputFile>, name: string, lo: int, hi: int, options: Option<ImageOptions>)
    returns (r: FileList<InputFile>)
    requires fl.Valid()
    ensures r == AddAll(fl, PageEntries(name, lo, hi, options))
  {
    r := fl;
    var i := lo;
    while i < hi
      invariant lo <= i && (i <= hi || i == lo)
      invariant r == AddAll(fl, PageEntries(name, lo, i, options))
    {
      PageEntriesSnoc(fl, name, lo, i, options);
      r := AddFileRef(r, NewInputFile(name, i, options));
      i := i + 1;
    }
    assert PageEntries(name, lo, i, options) == PageEntries(name, lo, hi, options);
  }

  /** One more page is one more AddFileRef. */
  lemma PageEntriesSnoc(fl: FileList<InputFile>, name: string, lo: int, i: int, options: Option<ImageOptions>)
    requires fl.Valid() && lo <= i
    ensures AddAll(fl, PageEntries(name, lo, i + 1, options)) ==
      AddFileRef(AddAll(fl, PageEntries(name, lo, i, options)), NewInputFile(name, i, options))
  {
    assert PageEntries(name, lo, i, options) + [NewInputFile(name, i, options)] == PageEntries(name, lo, i + 1, options);
    AddAllSnoc(fl, PageEntries(name, lo, i, options), NewInputFile(name, i, options));
  }

  /**
   * adjust_pages_interval as written: a last page beyond the file is
   * clamped to the page count itself, one past the last page.
   */
  function AdjustPagesIntervalAsWritten(count: int, pgMin: int, pgMax: int): (r: Outcome<(int, int)>)
    ensures r.Abort? <==> pgMin + 1 > count
  {
    var hi := if count < pgMax + 1 then count else pgMax;
    if pgMin + 1 > count then Abort else Done((pgMin, hi))
  }

  /** Pages 0 to 5 of a three-page file: the interval kept includes page 3, which does not exist. */
  lemma AdjustAsWrittenKeepsMissingPage()
    ensures AdjustPagesIntervalAsWritten(3, 0, 5) == Done((0, 3))
  {
  }

  /**
   * adjust_pages_interval: a request starting past the file aborts;
   * otherwise the pages that exist are kept and the missing ones ignored.
   */
  function AdjustPagesInterval(count: int, pgMin: int, pgMax: int): (r: Outcome<(int, int)>)
    ensures r.Abort? <==> pgMin >= count
    ensures r.Done? ==> r.value.0 == pgMin && r.value.1 <= pgMax && r.value.1 < count
    ensures r.Done? && pgMax < count ==> r.value.1 == pgMax
    ensures r.Done? && pgMax >= count ==> r.value.1 == count - 1
  {
    var hi := if count < pgMax + 1 then count - 1 else pgMax;
    if pgMin + 1 > count then Abort else Done((pgMin, hi))
  }

  /** The entries file_list_add_filename_with_filter appends, or the abort. */
  function FilteredEntries(name: string, pgMin: int, pgMax: int, options: Option<ImageOptions>, tiffPages: string -> int)
    : (r: Outcome<seq<InputFile>>)
    ensures r.Done? && Multipage(name, tiffPages) ==> forall k :: 0 <= k < |r.value| ==>
      pgMin <= r.value[k].page <= pgMax && r.value[k].page < tiffPages(name)
    ensures !Multipage(name, tiffPages) ==> r == Done([NewInputFile(name, 0, options)])
  {
    if Multipage(name, tiffPages) then
      match AdjustPagesInterval(tiffPages(name), pgMin, pgMax)
      case Abort => Abort
      case Done((lo, hi)) => Done(PageEntries(name, lo, hi + 1, options))
    else Done([NewInputFile(name, 0, options)])
  }

  /**
   * file_list_add_filename_with_filter: for a multi-page TIFF the pages
   * of the adjusted interval, otherwise page 0.
   */
  method AddFilenameWithFilter(fl: FileList<InputFile>, name: string, pgMin: int, pgMax: int,
                               options: Option<ImageOptions>, tiffPages: string -> int)
    returns (r: Outcome<FileList<InputFile>>)
    requires fl.Valid()
    ensures r.Abort? <==> FilteredEntries(name, pgMin, pgMax, options, tiffPages).Abort?
    ensures r.Done? ==> r.value == AddAll(fl, FilteredEntries(name, pgMin, pgMax, options, tiffPages).value)
  {
    if Multipage(name, tiffPages) {
      var adj := AdjustPagesInterval(tiffPages(name), pgMin, pgMax);
      if adj.Abort? {
        return Abort;
      }
      var pages := AddPages(fl, name, adj.value.0, adj.value.1 + 1, options);
      r := Done(pages);
    } else {
      var pages := AddPages(fl, name, 0, 1, options);
      assert PageEntries(name, 0, 1, options) == [NewInputFile(name, 0, options)];
      r := Done(pages);
    }
  }

  /** The entry for a page of a file. */
  predicate IsEntry(f: InputFile, name: string, page: int) {
    f.page == page && f.name == name
  }

  /** The first index holding the page of the file, or -1. */
  function IndexOf(files: seq<InputFile>, name: string, page: int): (r: int)
    ensures -1 <= r < |files|
    ensures r >= 0 ==> IsEntry(files[r], name, page) && forall k :: 0 <= k < r ==> !IsEntry(files[k], name, page)
    ensures r == -1 <==> forall k :: 0 <= k < |files| ==> !IsEntry(files[k], name, page)
    decreases |files|
  {
    if files == [] then -1
    else if IsEntry(files[0], name, page) then 0
    else
      var r := IndexOf(files[1..], name, page);
      if r == -1 then -1 else r + 1
  }

  /** file_list_find_by_filename_and_page: scan the list in order. */
  method FindByFilenameAndPage(files: seq<InputFile>, name: string, page: int) returns (idx: int)
    ensures idx == IndexOf(files, name, page)
  {
    var i := 0;
    while i < |files|
      invariant 0 <= i <= |files|
      invariant forall k :: 0 <= k < i ==> !IsEntry(files[k], name, page)
    {
      if files[i].page == page && files[i].name == name {
        IndexOfFirst(files, name, page, i);
        return i;
      }
      i := i + 1;
    }
    return -1;
  }

  /** The first matching index is the one IndexOf gives. */
  lemma IndexOfFirst(files: seq<InputFile>, name: string, page: int, i: nat)
    requires i < |files| && IsEntry(files[i], name, page)
    requires forall k :: 0 <= k < i ==> !IsEntry(files[k], name, page)
    ensures IndexOf(files, name, page) == i
  {
  }

  /** file_list_find: the first entry with the page and name of f. */
  method Find(files: seq<InputFile>, f: InputFile) returns (idx: int)
    ensures idx == IndexOf(files, f.name, f.page)
    ensures idx >= 0 ==> files[idx].name == f.name && files[idx].page == f.page
  {
    idx := FindByFilenameAndPage(files, f.name, f.page);
  }

  /** The indices of pages lo .. hi-1 of a file in src; None when one of them is missing. */
  function RefsFor(src: seq<InputFile>, name: string, lo: int, hi: int): (r: Option<seq<nat>>)
    ensures r.Some? ==> |r.value| == (if hi > lo then hi - lo else 0)
    ensures r.Some? ==> forall k :: 0 <= k < |r.value| ==> r.value[k] < |src| && IsEntry(src[r.value[k]], name, lo + k)
    decreases if hi > lo then hi - lo else 0
  {
    if hi <= lo then Some([])
    else
      var prev := RefsFor(src, name, lo, hi - 1);
      var idx := IndexOf(src, name, hi - 1);
      if prev.None? || idx == -1 then None else Some(prev.value + [idx as nat])
  }

  /**
   * file_list_add_ref: the entries of src for every page of the file
   * (page 0 unless it is a multi-page TIFF) are referenced from dest; a
   * page missing from src ends the program.
   */
  method AddRef(dest: FileList<nat>, src: seq<InputFile>, name: string, tiffPages: string -> int)
    returns (r: Outcome<FileList<nat>>)
    requires dest.Valid()
    ensures var refs := RefsFor(src, name, 0, PageCount(name, tiffPages));
      (r.Abort? <==> refs.None?) && (r.Done? ==> r.value == AddAll(dest, refs.value))
  {
    r := AddRefRange(dest, src, name, 0, PageCount(name, tiffPages));
  }

  /**
   * file_list_add_ref_with_filter: as AddRef for the adjusted interval of
   * a multi-page TIFF.
   */
  method AddRefWithFilter(dest: FileList<nat>, src: seq<InputFile>, name: string, pgMin: int, pgMax: int,
                          tiffPages: string -> int)
    returns (r: Outcome<FileList<nat>>)
    requires dest.Valid()
    ensures Multipage(name, tiffPages) && AdjustPagesInterval(tiffPages(name), pgMin, pgMax).Abort? ==> r.Abort?
    ensures Multipage(name, tiffPages) && AdjustPagesInterval(tiffPages(name), pgMin, pgMax).Done? ==>
      var (lo, hi) := AdjustPagesInterval(tiffPages(name), pgMin, pgMax).value;
      var refs := RefsFor(src, name, lo, hi + 1);
      (r.Abort? <==> refs.None?) && (r.Done? ==> r.value == AddAll(dest, refs.value))
    ensures !Multipage(name, tiffPages) ==> var refs := RefsFor(src, name, 0, 1);
      (r.Abort? <==> refs.None?) && (r.Done? ==> r.value == AddAll(dest, refs.value))
  {
    if Multipage(name, tiffPages) {
      var adj := AdjustPagesInterval(tiffPages(name), pgMin, pgMax);
      if adj.Abort? {
        return Abort;
      }
      r := AddRefRange(dest, src, name, adj.value.0, adj.value.1 + 1);
    } else {
      r := AddRefRange(dest, src, name, 0, 1);
    }
  }

  /** The loop shared by the two: find each page in turn and reference it. */
  method AddRefRange(dest: FileList<nat>, src: seq<InputFile>, name: string, lo: int, hi: int)
    returns (r: Outcome<FileList<nat>>)
    requires dest.Valid()
    ensures var refs := RefsFor(src, name, lo, hi);
      (r.Abort? <==> refs.None?) && (r.Done? ==> r.value == AddAll(dest, refs.value))
  {
    var acc := dest;
    var i := lo;
    while i < hi
      invariant lo <= i <= hi || (i == lo && hi < lo)
      invariant RefsFor(src, name, lo, i).Some? && acc == AddAll(dest, RefsFor(src, name, lo, i).value)
    {
      var idx := FindByFilenameAndPage(src, name, i);
      if idx == -1 {
        RefsMissing(src, name, lo, i, hi);
        return Abort;
      }
      AddAllSnoc(dest, RefsFor(src, name, lo, i).value, idx as nat);
      acc := AddFileRef(acc, idx as nat);
      i := i + 1;
    }
    if hi < lo {
      assert RefsFor(src, name, lo, hi) == Some([]) == RefsFor(src, name, lo, i);
    }
    r := Done(acc);
  }

  /** A missing page makes every longer range fail. */
  lemma {:induction false} RefsMissing(src: seq<InputFile>, name: string, lo: int, p: int, hi: int)
    requires lo <= p < hi && IndexOf(src, name, p) == -1
    ensures RefsFor(src, name, lo, hi).None?
    decreases hi - lo
  {
    if p < hi - 1 {
      RefsMissing(src, name, lo, p, hi - 1);
    }
  }

  /** The references are missing exactly when some page of the range is not in src. */
  lemma {:induction false} RefsForMeaning(src: seq<InputFile>, name: string, lo: int, hi: int)
    ensures RefsFor(src, name, lo, hi).None? <==> exists p :: lo <= p < hi && IndexOf(src, name, p) == -1
    decreases if hi > lo then hi - lo else 0
  {
    if hi > lo {
      RefsForMeaning(src, name, lo, hi - 1);
      if RefsFor(src, name, lo, hi).None? && IndexOf(src, name, hi - 1) != -1 {
        var p :| lo <= p < hi - 1 && IndexOf(src, name, p) == -1;
        assert lo <= p < hi;
      }
      if exists p :: lo <= p < hi && IndexOf(src, name, p) == -1 {
        var p :| lo <= p < hi && IndexOf(src, name, p) == -1;
        RefsMissing(src, name, lo, p, hi);
      }
    }
  }

  // ---------------------------------------------------------------- dictionaries

  datatype DjbzOptions = DjbzOptions(
    id: Option<string>,
    dictSuffix: string,
    averaging: int,
    aggression: int,
    classifier: int,
    noPrototypes: int,
    erosion: int,
    fileListRef: FileList<nat>,
    chunkId: Option<string>,
    doNotSave: bool)

  /**
   * djbz_setting_create: no id, no files, no chunk id, to be saved; the
   * settings are copied from the defaults, or are averaging 0, aggression
   * 100, classifier 3, prototypes used, erosion 0 and suffix "djbz".
   */
  function DjbzSettingCreate(defaults: Option<DjbzOptions>): (d: DjbzOptions)
    ensures d.id.None? && d.fileListRef == FileList([], 0) && d.chunkId.None? && !d.doNotSave
    ensures defaults.None? ==> (d.averaging == 0 && d.aggression == 100 && d.classifier == 3 &&
      d.noPrototypes == 0 && d.erosion == 0 && d.dictSuffix == "djbz")
    ensures defaults.Some? ==> (var s := defaults.value;
      d.averaging == s.averaging && d.aggression == s.aggression && d.classifier == s.classifier &&
      d.noPrototypes == s.noPrototypes && d.erosion == s.erosion && d.dictSuffix == s.dictSuffix)
  {
    match defaults
    case None => DjbzOptions(None, "djbz", 0, 100, 3, 0, 0, FileList([], 0), None, false)
    case Some(s) => DjbzOptions(None, s.dictSuffix, s.averaging, s.aggression, s.classifier, s.noPrototypes, s.erosion,
                                FileList([], 0), None, false)
  }

  /** djbz_list_add_option: exactly one entry more, at the end, the others in place. */
  function DjbzListAddOption(dl: seq<DjbzOptions>, d: DjbzOptions): (r: seq<DjbzOptions>)
    ensures |r| == |dl| + 1 && r[..|dl|] == dl && r[|dl|] == d
  {
    dl + [d]
  }

  // ---------------------------------------------------------------- grouping pages into dictionaries

  /** The indices of the first n files that no dictionary claims, in order. */
  function Unassigned(files: seq<InputFile>, n: nat): (u: seq<nat>)
    requires n <= |files|
    ensures |u| <= n
    ensures forall k :: 0 <= k < |u| ==> u[k] < n && files[u[k]].djbz.None?
  {
    if n == 0 then [] else Unassigned(files, n - 1) + (if files[n - 1].djbz.None? then [n - 1] else [])
  }

  /**
   * How many files a new dictionary takes before it is closed; a
   * pages-per-dict of 0 (or less) means no limit, that is, more than
   * there are files.
   */
  function GroupSize(pagesPerDict: int, fileCount: nat): (k: nat)
    ensures k > 0
    ensures pagesPerDict <= 0 ==> k > fileCount
  {
    if pagesPerDict > 0 then pagesPerDict else fileCount + 1
  }

  /** The closing test at AppOptions.cpp:673 as written: with 0 a dictionary closes after one file. */
  function GroupSizeAsWritten(pagesPerDict: int): (k: nat)
    ensures k > 0
  {
    if pagesPerDict > 0 then pagesPerDict else 1
  }

  /** The number of dictionaries n files make, k to a dictionary. */
  function GroupCount(n: nat, k: nat): nat
    requires k > 0
  {
    (n + k - 1) / k
  }

  /** Read as written, pages-per-dict 0 gives every one of n unassigned files a dictionary of its own. */
  lemma GroupingAsWrittenSplitsAll(n: nat)
    ensures GroupCount(n, GroupSizeAsWritten(0)) == n
  {
  }

  /** With pages-per-dict 0 all unassigned files share one dictionary (none if there are none). */
  lemma GroupingUnlimited(n: nat, fileCount: nat)
    requires n <= fileCount
    ensures GroupCount(n, GroupSize(0, fileCount)) == if n == 0 then 0 else 1
  {
    var k := fileCount + 1;
    if n > 0 {
      assert k <= n + k - 1 < 2 * k;
      DivBetween(n + k - 1, k, 1);
    }
  }

  /** m*k <= x < (m+1)*k pins x / k down to m. */
  lemma DivBetween(x: int, k: int, m: int)
    requires k > 0 && m * k <= x < (m + 1) * k
    ensures x / k == m
  {
    var q := x / k;
    assert x == q * k + x % k;
    assert (m - q - 1) * k == m * k - q * k - k;
    NegFactor(m - q - 1, k);
    assert (q - m - 1) * k == q * k - m * k - k;
    NegFactor(q - m - 1, k);
  }

  lemma NegFactor(a: int, k: int)
    requires k > 0 && a * k < 0
    ensures a < 0
  {
  }

  /** The files of the first n that go to the g-th new dictionary: the unassigned ones whose rank divided by k is g. */
  function Members(files: seq<InputFile>, n: nat, k: nat, g: nat): (s: seq<nat>)
    requires n <= |files| && k > 0
    ensures forall j :: 0 <= j < |s| ==> s[j] < n
  {
    if n == 0 then []
    else
      Members(files, n - 1, k, g) +
      (if files[n - 1].djbz.None? && |Unassigned(files, n - 1)| / k == g then [n - 1] else [])
  }

  /** A file is a member of exactly the group its rank among the unassigned files gives. */
  lemma {:induction false} MembersMeaning(files: seq<InputFile>, n: nat, k: nat, g: nat, j: nat)
    requires n <= |files| && k > 0
    ensures j in Members(files, n, k, g) <==> j < n && files[j].djbz.None? && |Unassigned(files, j)| / k == g
  {
    if n > 0 {
      MembersMeaning(files, n - 1, k, g, j);
    }
  }

  /**
   * Groups fill in order: the g-th has k members while enough unassigned
   * files follow, then what is left, then none.
   */
  lemma {:induction false} MembersCount(files: seq<InputFile>, n: nat, k: nat, g: nat)
    requires n <= |files| && k > 0
    ensures |Members(files, n, k, g)| == Clamp(|Unassigned(files, n)|, k, g)
  {
    if n > 0 {
      MembersCount(files, n - 1, k, g);
      ClampStep(|Unassigned(files, n - 1)|, k, g);
    }
  }

  /** How many of the first u ranks fall into group g, k to a group. */
  function Clamp(u: nat, k: nat, g: nat): nat {
    if u <= g * k then 0 else if u >= (g + 1) * k then k else u - g * k
  }

  /** One more rank adds one to its own group's count and nothing to the others. */
  lemma ClampStep(r: nat, k: nat, g: nat)
    requires k > 0
    ensures r / k == g ==> Clamp(r + 1, k, g) == Clamp(r, k, g) + 1
    ensures r / k != g ==> Clamp(r + 1, k, g) == Clamp(r, k, g)
  {
    var q := r / k;
    assert r == q * k + r % k;
    assert (g + 1) * k == g * k + k;
    assert (q + 1) * k == q * k + k;
    if q < g {
      MulLe(q + 1, g, k);
    } else if q > g {
      MulLe(g + 1, q, k);
    }
  }

  lemma MulLe(a: nat, b: nat, k: nat)
    requires a <= b
    ensures a * k <= b * k
  {
  }

  /** Every new dictionary gets at least one file: an empty trailing group is not kept. */
  lemma GroupsNonEmpty(files: seq<InputFile>, k: nat, g: nat)
    requires k > 0 && g < GroupCount(|Unassigned(files, |files|)|, k)
    ensures |Members(files, |files|, k, g)| > 0
  {
    var u := |Unassigned(files, |files|)|;
    var c := (u + k - 1) / k;
    assert u + k - 1 == c * k + (u + k - 1) % k;
    MulLe(g + 1, c, k);
    assert (g + 1) * k == g * k + k;
    MembersCount(files, |files|, k, g);
  }

  /** The dictionary autocomplete makes for a group of files. */
  function NewDjbz(defaults: DjbzOptions, members: seq<nat>): (d: DjbzOptions)
    ensures d.fileListRef.files == members
    ensures d.id.None? && d.dictSuffix == defaults.dictSuffix && d.averaging == defaults.averaging
  {
    DjbzSettingCreate(Some(defaults)).(fileListRef := AddAll(FileList([], 0), members))
  }

  /** A file after autocomplete: an unassigned one is given the dictionary of its group. */
  function Assigned(files: seq<InputFile>, j: nat, base: nat, k: nat): (f: InputFile)
    requires j < |files| && k > 0
    ensures files[j].djbz.Some? ==> f == files[j]
    ensures files[j].djbz.None? ==> f == files[j].(djbz := Some(base + |Unassigned(files, j)| / k))
  {
    if files[j].djbz.Some? then files[j] else files[j].(djbz := Some(base + |Unassigned(files, j)| / k))
  }

  // ---------------------------------------------------------------- names

  /** The index just after the last `.` of s, or 0 when there is none. */
  function ExtDelimPos(s: string): (r: nat)
    ensures r <= |s|
    ensures r > 0 ==> s[r - 1] == '.'
    ensures forall k :: r <= k < |s| ==> s[k] != '.'
  {
    if s == [] then 0 else if s[|s| - 1] == '.' then |s| else ExtDelimPos(s[..|s| - 1])
  }

  /** A dot (or the start) followed by no dot is where ExtDelimPos stops. */
  lemma {:induction false} ExtDelimPosUnique(s: string, p: nat)
    requires p <= |s| && (p == 0 || s[p - 1] == '.')
    requires forall k :: p <= k < |s| ==> s[k] != '.'
    ensures ExtDelimPos(s) == p
    decreases |s|
  {
    if s != [] && s[|s| - 1] != '.' {
      ExtDelimPosUnique(s[..|s| - 1], p);
    }
  }

  /** strcspn(s + from, "."): how many characters from `from` on are not a dot. */
  function Cspn(s: string, from: nat): (n: nat)
    requires from <= |s|
    ensures from + n <= |s|
    ensures forall k :: from <= k < from + n ==> s[k] != '.'
    ensures from + n < |s| ==> s[from + n] == '.'
    decreases |s| - from
  {
    if from == |s| || s[from] == '.' then 0 else 1 + Cspn(s, from + 1)
  }

  /** get_ext_delim_pos: hop from dot to dot until none is left. */
  method GetExtDelimPos(fname: string) returns (last: nat)
    ensures last == ExtDelimPos(fname)
  {
    var pos := Cspn(fname, 0);
    last := 0;
    while last + pos != |fname|
      invariant last + pos <= |fname|
      invariant pos == Cspn(fname, last)
      invariant last == 0 || fname[last - 1] == '.'
      decreases |fname| - last
    {
      last := last + pos + 1;
      pos := Cspn(fname, last);
    }
    ExtDelimPosUnique(fname, last);
  }

  function DigitChar(d: nat): char
    requires d < 10
  {
    ('0' as int + d) as char
  }

  /** The decimal digits of n. */
  function Decimal(n: nat): (s: string)
    ensures |s| >= 1
    ensures forall k :: 0 <= k < |s| ==> '0' <= s[k] <= '9'
    decreases n
  {
    if n < 10 then [DigitChar(n)] else Decimal(n / 10) + [DigitChar(n % 10)]
  }

  /** The number a string of decimal digits stands for. */
  function DecimalValue(s: string): nat
    requires forall k :: 0 <= k < |s| ==> '0' <= s[k] <= '9'
    decreases |s|
  {
    if s == [] then 0 else DecimalValue(s[..|s| - 1]) * 10 + (s[|s| - 1] as int - '0' as int)
  }

  /** `%03d`: the decimal digits of n, with zeros in front up to three. */
  function Pad3(n: nat): (s: string)
    ensures |s| >= 3
    ensures forall k :: 0 <= k < |s| ==> '0' <= s[k] <= '9'
    ensures n < 1000 ==> |s| == 3
  {
    DecimalLength(n);
    var d := Decimal(n);
    if |d| >= 3 then d else seq(3 - |d|, _ => '0') + d
  }

  lemma {:induction false} DecimalRoundTrip(n: nat)
    ensures DecimalValue(Decimal(n)) == n
    decreases n
  {
    if n >= 10 {
      DecimalRoundTrip(n / 10);
      var s := Decimal(n);
      assert s[..|s| - 1] == Decimal(n / 10);
    }
  }

  lemma DecimalLength(n: nat)
    ensures n < 1000 ==> |Decimal(n)| <= 3
    ensures n < 100 ==> |Decimal(n)| <= 2
    ensures n < 10 ==> |Decimal(n)| == 1
  {
  }

  /** Leading zeros do not change the value. */
  lemma {:induction false} ZerosValue(z: nat, d: string)
    requires forall k :: 0 <= k < |d| ==> '0' <= d[k] <= '9'
    ensures var s := seq(z, _ => '0') + d; (forall k :: 0 <= k < |s| ==> '0' <= s[k] <= '9') && DecimalValue(s) == DecimalValue(d)
    decreases |d|
  {
    var s := seq(z, _ => '0') + d;
    if d == [] {
      assert s == seq(z, _ => '0');
      ZerosOnly(z);
    } else {
      ZerosValue(z, d[..|d| - 1]);
      assert s[..|s| - 1] == seq(z, _ => '0') + d[..|d| - 1];
    }
  }

  lemma {:induction false} ZerosOnly(z: nat)
    ensures DecimalValue(seq(z, _ => '0')) == 0
  {
    if z > 0 {
      ZerosOnly(z - 1);
      assert seq(z, _ => '0')[..z - 1] == seq(z - 1, _ => '0');
    }
  }

  /** `%03d` can be read back: the page number in a chunk name is recoverable. */
  lemma Pad3RoundTrip(n: nat)
    ensures DecimalValue(Pad3(n)) == n
  {
    DecimalRoundTrip(n);
    var d := Decimal(n);
    if |d| < 3 {
      ZerosValue(3 - |d|, d);
    }
  }

  /** The part of a file name before its extension: everything up to the last dot. */
  function BaseName(fname: string): (b: string)
    ensures ExtDelimPos(fname) > 0 ==> b == fname[..ExtDelimPos(fname) - 1]
    ensures ExtDelimPos(fname) == 0 ==> b == fname
  {
    var e := ExtDelimPos(fname);
    if e > 0 then fname[..e - 1] else fname
  }

  /**
   * get_page_or_dict_name as written, as the string the caller sees:
   * without a dot in the name, page 0 gives ".djvu" alone, and a later
   * page is printed one byte before the buffer (None); a page number of
   * five digits or more runs past its end (None).
   */
  function PageOrDictNameAsWritten(fname: string, page: int): (r: Option<string>)
    ensures ExtDelimPos(fname) > 0 && page <= 0 ==> r == Some(fname[..ExtDelimPos(fname) - 1] + ".djvu")
  {
    var e := ExtDelimPos(fname);
    var base := if e > 0 then fname[..e - 1] else [];
    if page > 0 then
      if e == 0 || page + 1 > 9999 then None else Some(base + "#" + Pad3(page + 1) + ".djvu")
    else Some(base + ".djvu")
  }

  /** A name without a dot loses its base for page 0 and is written out of bounds for page 1. */
  lemma PageNameAsWrittenLosesBase()
    ensures PageOrDictNameAsWritten("scan", 0) == Some(".djvu")
    ensures PageOrDictNameAsWritten("scan", 1) == None
  {
    assert ExtDelimPos("scan") == 0 by {
      ExtDelimPosUnique("scan", 0);
    }
    assert [] + ".djvu" == ".djvu";
  }

  /**
   * get_page_or_dict_name: the base name (the whole name when it has no
   * dot) with ".djvu" for page 0, or with "#NNN.djvu", NNN being page+1
   * in at least three digits, for a later page.
   */
  function PageOrDictName(fname: string, page: int): (r: string)
    ensures |r| >= 5 && r[|r| - 5..] == ".djvu"
    ensures page <= 0 ==> r == BaseName(fname) + ".djvu"
    ensures page > 0 ==> r == BaseName(fname) + "#" + Pad3(page + 1) + ".djvu"
  {
    if page > 0 then BaseName(fname) + "#" + Pad3(page + 1) + ".djvu" else BaseName(fname) + ".djvu"
  }

  /** Different pages of one file get different names. */
  lemma PageNamesDistinct(fname: string, p: nat, q: nat)
    requires p != q
    ensures PageOrDictName(fname, p) != PageOrDictName(fname, q)
  {
    var b := BaseName(fname);
    var np, nq := PageOrDictName(fname, p), PageOrDictName(fname, q);
    if p > 0 && q > 0 {
      var sp, sq := Pad3(p + 1), Pad3(q + 1);
      Pad3RoundTrip(p + 1);
      Pad3RoundTrip(q + 1);
      assert sp != sq;
      if |sp| == |sq| {
        NumberAt(b, sp);
        NumberAt(b, sq);
        assert np[|b| + 1..|b| + 1 + |sp|] != nq[|b| + 1..|b| + 1 + |sp|];
      } else {
        assert |np| != |nq|;
      }
    } else if p > 0 || q > 0 {
      assert |np| != |nq|;
    }
  }

  /** Where the page number sits in a page name. */
  lemma NumberAt(b: string, d: string)
    ensures (b + "#" + d + ".djvu")[|b| + 1..|b| + 1 + |d|] == d
  {
  }

  /** replace_suffix: drop the last four characters and append the suffix. */
  function ReplaceSuffix(name: string, suffix: string): (r: string)
    requires |name| >= 4
    ensures r == name[..|name| - 4] + suffix
  {
    name[..|name| - 4] + suffix
  }

  /** A dictionary named after a page keeps the page's name with the suffix in place of "djvu". */
  lemma DictNameFromPage(fname: string, page: int, suffix: string)
    ensures var n := PageOrDictName(fname, page);
      ReplaceSuffix(n, suffix) == n[..|n| - 4] + suffix && n[|n| - 5] == '.'
  {
  }

  /** The index of the last directory separator of s, or -1. */
  function LastDirSep(s: string): (r: int)
    ensures -1 <= r < |s|
    ensures r >= 0 ==> IsDirSep(s[r])
    ensures forall k :: r < k < |s| ==> !IsDirSep(s[k])
  {
    if s == [] then -1 else if IsDirSep(s[|s| - 1]) then |s| - 1 else LastDirSep(s[..|s| - 1])
  }

  /** strip: what follows the last sep (strrchr), or the whole string when there is none. */
  function Strip(s: string, sep: char): (r: string)
    ensures |r| <= |s|
  {
    if s == [] || s[|s| - 1] == sep then [] else Strip(s[..|s| - 1], sep) + [s[|s| - 1]]
  }

  predicate IsDirSep(c: char) {
    c == '/' || c == '\\'
  }

  /** strip_dir: the path without its directories, `\` ones first, then `/` ones. */
  function StripDir(path: string): (r: string)
  {
    Strip(Strip(path, '\\'), '/')
  }

  /**
   * strip_dir gives what follows the last `/` or `\`, the whole path when
   * there is neither.
   */
  lemma {:induction false} StripDirMeaning(path: string)
    ensures StripDir(path) == path[LastDirSep(path) + 1..]
    decreases |path|
  {
    if path != [] {
      var t, x := path[..|path| - 1], path[|path| - 1];
      assert path == t + [x];
      StripDirSnoc(t, x);
      LastDirSepSnoc(t, x);
      if !IsDirSep(x) {
        StripDirMeaning(t);
        SliceSnoc(t, x, LastDirSep(t) + 1);
      }
    }
  }

  lemma StripDirSnoc(t: string, x: char)
    ensures StripDir(t + [x]) == if IsDirSep(x) then [] else StripDir(t) + [x]
  {
    StripSnoc(t, x, '\\');
    if x != '\\' {
      StripSnoc(Strip(t, '\\'), x, '/');
    }
  }

  lemma SliceSnoc(t: string, x: char, j: nat)
    requires j <= |t|
    ensures (t + [x])[j..] == t[j..] + [x]
  {
  }

  lemma StripSnoc(t: string, x: char, sep: char)
    ensures Strip(t + [x], sep) == if x == sep then [] else Strip(t, sep) + [x]
  {
    assert (t + [x])[..|t|] == t;
  }

  lemma LastDirSepSnoc(t: string, x: char)
    ensures LastDirSep(t + [x]) == if IsDirSep(x) then |t| else LastDirSep(t)
  {
    assert (t + [x])[..|t|] == t;
  }

  /**
   * The chunk id of a dictionary: "id.suffix" when it has an id; otherwise
   * its first file's chunk id with "djvu" replaced by the suffix.
   */
  function DjbzChunkId(d: DjbzOptions, firstChunkId: string): (r: string)
    requires d.id.Some? || |firstChunkId| >= 4
    ensures d.id.Some? ==> r == d.id.value + "." + d.dictSuffix
    ensures d.id.None? ==> r == firstChunkId[..|firstChunkId| - 4] + d.dictSuffix
  {
    if d.id.Some? then d.id.value + "." + d.dictSuffix else ReplaceSuffix(firstChunkId, d.dictSuffix)
  }

  /** The chunk id construct_chunk_ids gives a file. */
  function FileChunkId(f: InputFile): (r: string)
    ensures |r| >= 5
  {
    PageOrDictName(StripDir(f.name), f.page)
  }

  // ---------------------------------------------------------------- output file

  /**
   * app_options_set_output_file as written, for a non-empty name: the
   * output file is the part after the last separator, and is not set at
   * all when the name has no separator.
   */
  function OutputFileAsWritten(filename: string): (r: Option<string>)
    requires |filename| > 0
    ensures r.Some? <==> LastDirSep(filename) >= 0
  {
    var k := LastDirSep(filename);
    if k >= 0 then Some(filename[k + 1..]) else None
  }

  /** A plain file name in the current directory is never taken as the output. */
  lemma OutputFileAsWrittenDropsPlainName()
    ensures OutputFileAsWritten("out.djvu") == None
  {
    assert LastDirSep("out.djvu") == -1 by {
      assert forall k :: 0 <= k < |"out.djvu"| ==> !IsDirSep("out.djvu"[k]);
    }
  }

  // ---------------------------------------------------------------- the application options

  class AppOptions {
    var pagesPerDict: int
    var verbose: int
    /** The `match` option. */
    var matching: int
    /** The `Match` option (capital M). */
    var matchingAll: int
    var report: int
    var warnings: int
    var indirect: int
    var maxThreads: int
    var defaultImage: ImageOptions
    var fileList: FileList<InputFile>
    var defaultDjbz: DjbzOptions
    var djbzList: seq<DjbzOptions>
    var outputFile: Option<string>
    /** The page count libtiff reports for each file name. */
    const tiffPages: string -> int

    ghost predicate Valid()
      reads this
    {
      fileList.Valid()
    }

    /**
     * app_options_init: 10 pages per dictionary, every flag off, default
     * image and dictionary settings, empty lists, no output file.
     */
    constructor (tiffPages: string -> int)
      ensures Valid()
      ensures pagesPerDict == 10 && verbose == 0 && matching == 0 && matchingAll == 0
      ensures report == 0 && warnings == 0 && indirect == 0 && maxThreads == 0
      ensures defaultImage == ImageOptionsCreate(None) && defaultDjbz == DjbzSettingCreate(None)
      ensures fileList == FileList([], 0) && djbzList == [] && outputFile.None?
      ensures this.tiffPages == tiffPages
    {
      pagesPerDict := 10;
      verbose, matching, matchingAll, report, warnings, indirect := 0, 0, 0, 0, 0, 0;
      maxThreads := 0;
      defaultImage := ImageOptionsCreate(None);
      defaultDjbz := DjbzSettingCreate(None);
      fileList := FileList([], 0);
      djbzList := [];
      outputFile := None;
      this.tiffPages := tiffPages;
    }

    /** app_options_set_djbz_suffix: the default dictionary suffix. */
    method SetDjbzSuffix(suffix: string)
      modifies this
      ensures defaultDjbz == old(defaultDjbz).(dictSuffix := suffix)
      ensures fileList == old(fileList) && djbzList == old(djbzList) && defaultImage == old(defaultImage)
      ensures pagesPerDict == old(pagesPerDict) && outputFile == old(outputFile)
      ensures verbose == old(verbose) && matching == old(matching) && matchingAll == old(matchingAll)
      ensures report == old(report) && warnings == old(warnings) && indirect == old(indirect)
      ensures maxThreads == old(maxThreads)
    {
      defaultDjbz := defaultDjbz.(dictSuffix := suffix);
    }

    /**
     * app_options_set_output_file: with a directory part, change to that
     * directory (chdirOk is whether that succeeds; failing ends the
     * program) and keep the file name; a plain file name is kept as it is.
     */
    method SetOutputFile(filename: string, chdirOk: bool) returns (aborted: bool)
      modifies this
      ensures aborted <==> |filename| > 0 && LastDirSep(filename) >= 0 && !chdirOk
      ensures !aborted && |filename| > 0 ==> outputFile == Some(StripDir(filename))
      ensures |filename| == 0 ==> outputFile == old(outputFile)
      ensures fileList == old(fileList) && djbzList == old(djbzList) && defaultDjbz == old(defaultDjbz)
      ensures defaultImage == old(defaultImage) && pagesPerDict == old(pagesPerDict)
      ensures verbose == old(verbose) && matching == old(matching) && matchingAll == old(matchingAll)
      ensures report == old(report) && warnings == old(warnings) && indirect == old(indirect)
      ensures maxThreads == old(maxThreads)
    {
      aborted := false;
      if |filename| > 0 {
        var idx := |filename| - 1;
        while idx >= 0 && !IsDirSep(filename[idx])
          invariant -1 <= idx < |filename|
          invariant forall k :: idx < k < |filename| ==> !IsDirSep(filename[k])
        {
          idx := idx - 1;
        }
        LastDirSepAt(filename, idx);
        StripDirMeaning(filename);
        if idx != -1 {
          if !chdirOk {
            return true;
          }
          outputFile := Some(filename[idx + 1..]);
        } else {
          outputFile := Some(filename);
        }
      }
    }

    /**
     * app_options_autocomplete_djbzs: the files no dictionary claims are
     * put, in order, into new dictionaries with the default settings,
     * pages-per-dict files to each (all of them when it is 0); the last,
     * partly filled one is kept when it has a file. Files already in a
     * dictionary are left alone.
     */
    method AutocompleteDjbzs()
      requires Valid()
      modifies this
      ensures Valid()
      ensures var f0, k := old(fileList.files), GroupSize(old(pagesPerDict), |old(fileList.files)|);
        |fileList.files| == |f0| &&
        (forall j :: 0 <= j < |f0| ==> fileList.files[j] == Assigned(f0, j, |old(djbzList)|, k))
      ensures fileList.dataSize == old(fileList.dataSize)
      ensures var f0, k := old(fileList.files), GroupSize(old(pagesPerDict), |old(fileList.files)|);
        |djbzList| == |old(djbzList)| + GroupCount(|Unassigned(f0, |f0|)|, k) &&
        djbzList[..|old(djbzList)|] == old(djbzList) &&
        (forall g :: 0 <= g < |djbzList| - |old(djbzList)| ==>
          djbzList[|old(djbzList)| + g] == NewDjbz(defaultDjbz, Members(f0, |f0|, k, g)))
      ensures defaultDjbz == old(defaultDjbz) && pagesPerDict == old(pagesPerDict) && outputFile == old(outputFile)
      ensures defaultImage == old(defaultImage)
      ensures verbose == old(verbose) && matching == old(matching) && matchingAll == old(matchingAll)
      ensures report == old(report) && warnings == old(warnings) && indirect == old(indirect)
      ensures maxThreads == old(maxThreads)
    {
      var fs, made := GroupFiles(fileList.files, pagesPerDict, |djbzList|, defaultDjbz);
      fileList := FileList(fs, fileList.dataSize);
      djbzList := djbzList + made;
    }

    /**
     * app_options_construct_chunk_ids: every file is named after its page
     * (FileChunkId); every dictionary after its id, or after its first
     * file (DjbzChunkId).
     */
    method ConstructChunkIds()
      requires forall g :: 0 <= g < |djbzList| ==> Nameable(djbzList[g], fileList.files)
      modifies this
      ensures |fileList.files| == |old(fileList.files)| && fileList.dataSize == old(fileList.dataSize)
      ensures forall j :: 0 <= j < |fileList.files| ==> fileList.files[j] == NamedFile(old(fileList.files[j]))
      ensures |djbzList| == |old(djbzList)|
      ensures forall g :: 0 <= g < |djbzList| ==> djbzList[g] == NamedDjbz(old(djbzList[g]), old(fileList.files))
      ensures defaultDjbz == old(defaultDjbz) && pagesPerDict == old(pagesPerDict) && outputFile == old(outputFile)
      ensures defaultImage == old(defaultImage)
      ensures verbose == old(verbose) && matching == old(matching) && matchingAll == old(matchingAll)
      ensures report == old(report) && warnings == old(warnings) && indirect == old(indirect)
      ensures maxThreads == old(maxThreads)
    {
      var fs := NameFiles(fileList.files);
      var ds := NameDjbzs(djbzList, fileList.files, fs);
      fileList := FileList(fs, fileList.dataSize);
      djbzList := ds;
    }
  }

  /**
   * The loop of app_options_autocomplete_djbzs over the files f0: the
   * files as updated, and the new dictionaries, numbered from base on.
   */
  method GroupFiles(f0: seq<InputFile>, pagesPerDict: int, base: nat, defaults: DjbzOptions)
    returns (fs: seq<InputFile>, made: seq<DjbzOptions>)
    ensures var k := GroupSize(pagesPerDict, |f0|);
      |fs| == |f0| && forall j :: 0 <= j < |f0| ==> fs[j] == Assigned(f0, j, base, k)
    ensures var k := GroupSize(pagesPerDict, |f0|);
      |made| == GroupCount(|Unassigned(f0, |f0|)|, k) &&
      forall g :: 0 <= g < |made| ==> made[g] == NewDjbz(defaults, Members(f0, |f0|, k, g))
  {
    var k := GroupSize(pagesPerDict, |f0|);
    fs := f0;
    made := [];
    var cur: FileList<nat> := FileList([], 0);
    var i: nat := 0;
    while i < |fs|
      invariant 0 <= i <= |fs| == |f0|
      invariant AssignedUpTo(f0, fs, i, base, k)
      invariant GroupState(f0, i, k, made, cur, defaults)
    {
      fs, made, cur := GroupStep(f0, fs, made, cur, i, pagesPerDict, k, base, defaults);
      i := i + 1;
    }
    GroupEnd(f0, k, made, cur, defaults);
    if |cur.files| > 0 {
      GroupAppend(f0, |f0|, k, made, DjbzSettingCreate(Some(defaults)).(fileListRef := cur), defaults);
      made := made + [DjbzSettingCreate(Some(defaults)).(fileListRef := cur)];
    }
  }

  /** A dictionary for the next group goes after the earlier ones. */
  lemma GroupAppend(f0: seq<InputFile>, n: nat, k: nat, made: seq<DjbzOptions>, d: DjbzOptions, defaults: DjbzOptions)
    requires n <= |f0| && k > 0
    requires forall g :: 0 <= g < |made| ==> made[g] == NewDjbz(defaults, Members(f0, n, k, g))
    requires d == NewDjbz(defaults, Members(f0, n, k, |made|))
    ensures forall g :: 0 <= g < |made| + 1 ==> (made + [d])[g] == NewDjbz(defaults, Members(f0, n, k, g))
  {
  }

  /** The first i files have been through autocomplete's loop, the others not yet. */
  ghost predicate AssignedUpTo(f0: seq<InputFile>, fs: seq<InputFile>, i: nat, base: nat, k: nat)
    requires k > 0
  {
    |fs| == |f0| && i <= |f0| &&
    (forall j :: i <= j < |f0| ==> fs[j] == f0[j]) &&
    (forall j :: 0 <= j < i ==> fs[j] == Assigned(f0, j, base, k))
  }

  /** Giving file i its final value moves the boundary by one. */
  lemma AssignedNext(f0: seq<InputFile>, fs: seq<InputFile>, i: nat, base: nat, k: nat)
    requires k > 0 && i < |f0| && AssignedUpTo(f0, fs, i, base, k)
    ensures fs[i] == f0[i]
    ensures AssignedUpTo(f0, fs[i := Assigned(f0, i, base, k)], i + 1, base, k)
  {
  }

  /** One file through the loop of app_options_autocomplete_djbzs. */
  method GroupStep(f0: seq<InputFile>, fs0: seq<InputFile>, made0: seq<DjbzOptions>, cur0: FileList<nat>, i: nat,
                   pagesPerDict: int, k: nat, base: nat, defaults: DjbzOptions)
    returns (fs: seq<InputFile>, made: seq<DjbzOptions>, cur: FileList<nat>)
    requires i < |fs0| == |f0| && k == GroupSize(pagesPerDict, |f0|)
    requires AssignedUpTo(f0, fs0, i, base, k)
    requires GroupState(f0, i, k, made0, cur0, defaults)
    ensures AssignedUpTo(f0, fs, i + 1, base, k)
    ensures GroupState(f0, i + 1, k, made, cur, defaults)
  {
    AssignedNext(f0, fs0, i, base, k);
    fs, made, cur := fs0, made0, cur0;
    if fs[i].djbz.None? {
      GroupJoin(f0, fs0, i, pagesPerDict, k, base, made, cur, defaults);
      fs := fs[i := fs[i].(djbz := Some(base + |made|))];
      cur := AddFileRef(cur, i);
      if pagesPerDict > 0 && |cur.files| >= pagesPerDict {
        made := made + [DjbzSettingCreate(Some(defaults)).(fileListRef := cur)];
        cur := FileList([], 0);
      }
    } else {
      GroupSkip(f0, fs0, i, k, base, made, cur, defaults);
    }
  }

  /**
   * The state of autocomplete's loop after the first n files: full
   * dictionaries made, one per group, and the open one holding the rest
   * of the files so far (at most k).
   */
  ghost predicate Filling(f0: seq<InputFile>, n: nat, k: nat, made: seq<DjbzOptions>, cur: FileList<nat>,
                          defaults: DjbzOptions)
    requires n <= |f0| && k > 0
  {
    |Unassigned(f0, n)| == Times(|made|, k) + |cur.files| && |cur.files| <= k &&
    cur == AddAll(FileList([], 0), Members(f0, n, k, |made|)) &&
    forall g :: 0 <= g < |made| ==> made[g] == NewDjbz(defaults, Members(f0, n, k, g))
  }

  /** Between files the open dictionary is never full. */
  ghost predicate GroupState(f0: seq<InputFile>, n: nat, k: nat, made: seq<DjbzOptions>, cur: FileList<nat>,
                             defaults: DjbzOptions)
    requires n <= |f0| && k > 0
  {
    Filling(f0, n, k, made, cur, defaults) && |cur.files| < k
  }

  /** A file already in a dictionary leaves the files and the state as they are. */
  lemma GroupSkip(f0: seq<InputFile>, fs0: seq<InputFile>, i: nat, k: nat, base: nat, made: seq<DjbzOptions>,
                  cur: FileList<nat>, defaults: DjbzOptions)
    requires i < |fs0| == |f0| && fs0[i] == f0[i] && k > 0 && f0[i].djbz.Some?
    requires GroupState(f0, i, k, made, cur, defaults)
    ensures fs0 == fs0[i := Assigned(f0, i, base, k)]
    ensures GroupState(f0, i + 1, k, made, cur, defaults)
  {
    AutocompleteStep(f0, i, k, |made|, |cur.files|);
  }

  /**
   * An unassigned file is given the open dictionary and joins it; the
   * dictionary is closed when it reaches k files, which happens exactly
   * when pages-per-dict is set and reached.
   */
  lemma GroupJoin(f0: seq<InputFile>, fs0: seq<InputFile>, i: nat, pagesPerDict: int, k: nat, base: nat,
                  made: seq<DjbzOptions>, cur: FileList<nat>, defaults: DjbzOptions)
    requires i < |fs0| == |f0| && fs0[i] == f0[i] && k == GroupSize(pagesPerDict, |f0|) && f0[i].djbz.None?
    requires GroupState(f0, i, k, made, cur, defaults)
    ensures fs0[i := fs0[i].(djbz := Some(base + |made|))] == fs0[i := Assigned(f0, i, base, k)]
    ensures var c := AddFileRef(cur, i);
      ((pagesPerDict > 0 && |c.files| >= pagesPerDict) ==>
        GroupState(f0, i + 1, k, made + [DjbzSettingCreate(Some(defaults)).(fileListRef := c)], FileList([], 0), defaults)) &&
      (!(pagesPerDict > 0 && |c.files| >= pagesPerDict) ==> GroupState(f0, i + 1, k, made, c, defaults))
  {
    var m := |made|;
    AutocompleteStep(f0, i, k, m, |cur.files|);
    assert fs0[i].(djbz := Some(base + m)) == Assigned(f0, i, base, k);
    AddAllSnoc(FileList([], 0), Members(f0, i, k, m), i);
    var c := AddFileRef(cur, i);
    assert Filling(f0, i + 1, k, made, c, defaults);
    if pagesPerDict > 0 && |c.files| >= pagesPerDict {
      GroupClose(f0, i + 1, k, made, c, defaults);
    }
  }

  /** A full open dictionary is closed and a new, empty one opened. */
  lemma GroupClose(f0: seq<InputFile>, n: nat, k: nat, made: seq<DjbzOptions>, cur: FileList<nat>, defaults: DjbzOptions)
    requires n <= |f0| && k > 0 && |cur.files| == k
    requires Filling(f0, n, k, made, cur, defaults)
    ensures GroupState(f0, n, k, made + [DjbzSettingCreate(Some(defaults)).(fileListRef := cur)], FileList([], 0), defaults)
  {
    var m := |made|;
    var d := DjbzSettingCreate(Some(defaults)).(fileListRef := cur);
    assert d == NewDjbz(defaults, Members(f0, n, k, m));
    GroupAppend(f0, n, k, made, d, defaults);
    assert Times(m + 1, k) == Times(m, k) + k;
    MembersBeyond(f0, n, k, m + 1);
    assert AddAll(FileList([], 0), Members(f0, n, k, m + 1)) == FileList([], 0);
  }

  /** After the last file: the open dictionary is kept when it has files, and that makes GroupCount of them. */
  lemma GroupEnd(f0: seq<InputFile>, k: nat, made: seq<DjbzOptions>, cur: FileList<nat>, defaults: DjbzOptions)
    requires k > 0 && GroupState(f0, |f0|, k, made, cur, defaults)
    ensures |made| + (if |cur.files| > 0 then 1 else 0) == GroupCount(|Unassigned(f0, |f0|)|, k)
    ensures forall g :: 0 <= g < |made| ==> made[g] == NewDjbz(defaults, Members(f0, |f0|, k, g))
    ensures DjbzSettingCreate(Some(defaults)).(fileListRef := cur) == NewDjbz(defaults, Members(f0, |f0|, k, |made|))
  {
    GroupCountOf(|Unassigned(f0, |f0|)|, k, |made|, |cur.files|);
  }

  /** A file with its chunk id set. */
  function NamedFile(f: InputFile): InputFile
  {
    f.(chunkId := Some(FileChunkId(f)))
  }

  /**
   * A dictionary can be named: it has an id, or it has files, the first of
   * them in the list, and a suffix of three or more characters (shorter
   * ones leave the copied name without its terminator).
   */
  predicate Nameable(d: DjbzOptions, files: seq<InputFile>) {
    d.id.Some? || (|d.fileListRef.files| > 0 && d.fileListRef.files[0] < |files| && |d.dictSuffix| >= 3)
  }

  /** A dictionary with its chunk id set, its first file named as NamedFile names it. */
  function NamedDjbz(d: DjbzOptions, files: seq<InputFile>): (r: DjbzOptions)
    requires Nameable(d, files)
    ensures r.(chunkId := d.chunkId) == d
    ensures d.id.Some? ==> r.chunkId == Some(d.id.value + "." + d.dictSuffix)
    ensures d.id.None? ==> r.chunkId == Some(ReplaceSuffix(FileChunkId(files[d.fileListRef.files[0]]), d.dictSuffix))
  {
    d.(chunkId := Some(DjbzChunkId(d, if d.id.Some? then "" else FileChunkId(files[d.fileListRef.files[0]]))))
  }

  /** The first loop of app_options_construct_chunk_ids: name every file. */
  method NameFiles(f0: seq<InputFile>) returns (fs: seq<InputFile>)
    ensures |fs| == |f0| && forall j :: 0 <= j < |f0| ==> fs[j] == NamedFile(f0[j])
  {
    fs := f0;
    var i := 0;
    while i < |fs|
      invariant NamedUpTo(f0, fs, i)
    {
      NamedNext(f0, fs, i);
      fs := fs[i := NamedFile(fs[i])];
      i := i + 1;
    }
  }

  /** The first i files are named, the others untouched. */
  ghost predicate NamedUpTo(f0: seq<InputFile>, fs: seq<InputFile>, i: int) {
    0 <= i <= |fs| == |f0| &&
    (forall j :: 0 <= j < i ==> fs[j] == NamedFile(f0[j])) &&
    (forall j :: i <= j < |fs| ==> fs[j] == f0[j])
  }

  lemma NamedNext(f0: seq<InputFile>, fs: seq<InputFile>, i: int)
    requires NamedUpTo(f0, fs, i) && i < |fs|
    ensures NamedUpTo(f0, fs[i := NamedFile(fs[i])], i + 1)
  {
  }

  /**
   * The second loop: name every dictionary, reading the first file's
   * chunk id from the files as the first loop left them.
   */
  method NameDjbzs(d0: seq<DjbzOptions>, f0: seq<InputFile>, fs: seq<InputFile>) returns (ds: seq<DjbzOptions>)
    requires forall g :: 0 <= g < |d0| ==> Nameable(d0[g], f0)
    requires |fs| == |f0| && forall j :: 0 <= j < |f0| ==> fs[j] == NamedFile(f0[j])
    ensures |ds| == |d0| && forall g :: 0 <= g < |d0| ==> ds[g] == NamedDjbz(d0[g], f0)
  {
    ds := d0;
    var g := 0;
    while g < |ds|
      invariant NamedDjbzsUpTo(d0, f0, ds, g)
    {
      var path := if ds[g].id.Some? then "" else fs[ds[g].fileListRef.files[0]].chunkId.value;
      assert ds[g].id.None? ==> path == FileChunkId(f0[ds[g].fileListRef.files[0]]);
      NamedDjbzNext(d0, f0, fs, ds, g, path);
      ds := ds[g := ds[g].(chunkId := Some(DjbzChunkId(ds[g], path)))];
      g := g + 1;
    }
  }

  /** The first g dictionaries are named, the others untouched. */
  ghost predicate NamedDjbzsUpTo(d0: seq<DjbzOptions>, f0: seq<InputFile>, ds: seq<DjbzOptions>, g: int) {
    0 <= g <= |ds| == |d0| &&
    (forall h :: 0 <= h < |d0| ==> Nameable(d0[h], f0)) &&
    (forall h :: 0 <= h < g ==> ds[h] == NamedDjbz(d0[h], f0)) &&
    (forall h :: g <= h < |ds| ==> ds[h] == d0[h])
  }

  lemma NamedDjbzNext(d0: seq<DjbzOptions>, f0: seq<InputFile>, fs: seq<InputFile>, ds: seq<DjbzOptions>, g: int,
                      path: string)
    requires NamedDjbzsUpTo(d0, f0, ds, g) && g < |ds|
    requires |fs| == |f0| && forall j :: 0 <= j < |f0| ==> fs[j] == NamedFile(f0[j])
    requires ds[g].id.None? ==> path == FileChunkId(f0[ds[g].fileListRef.files[0]])
    ensures ds[g].id.Some? || |path| >= 4
    ensures NamedDjbzsUpTo(d0, f0, ds[g := ds[g].(chunkId := Some(DjbzChunkId(ds[g], path)))], g + 1)
  {
  }

  /** The backward scan of set_output_file stops at the last separator. */
  lemma {:induction false} LastDirSepAt(s: string, idx: int)
    requires -1 <= idx < |s| && (idx >= 0 ==> IsDirSep(s[idx]))
    requires forall k :: idx < k < |s| ==> !IsDirSep(s[k])
    ensures LastDirSep(s) == idx
  {
    if s != [] && idx < |s| - 1 {
      LastDirSepAt(s[..|s| - 1], idx);
    }
  }

  /** One file through autocomplete's loop: its group is the open one. */
  lemma AutocompleteStep(files: seq<InputFile>, i: nat, k: nat, made: nat, open: nat)
    requires i < |files| && k > 0
    requires |Unassigned(files, i)| == Times(made, k) + open && open < k
    ensures files[i].djbz.None? ==> |Unassigned(files, i)| / k == made
    ensures files[i].djbz.None? ==> |Unassigned(files, i + 1)| == |Unassigned(files, i)| + 1
    ensures files[i].djbz.None? ==> Members(files, i + 1, k, made) == Members(files, i, k, made) + [i]
    ensures files[i].djbz.None? ==> forall g :: g != made ==> Members(files, i + 1, k, g) == Members(files, i, k, g)
    ensures files[i].djbz.Some? ==> Unassigned(files, i + 1) == Unassigned(files, i)
    ensures files[i].djbz.Some? ==> forall g :: Members(files, i + 1, k, g) == Members(files, i, k, g)
  {
    TimesMul(made, k);
    DivBetween(made * k + open, k, made);
  }

  /** m times k, counted up one group at a time. */
  function Times(m: nat, k: nat): nat {
    if m == 0 then 0 else Times(m - 1, k) + k
  }

  lemma {:induction false} TimesMul(m: nat, k: nat)
    ensures Times(m, k) == m * k
  {
    if m > 0 {
      TimesMul(m - 1, k);
      assert m * k == (m - 1) * k + k;
    }
  }

  /** No file of the first n belongs to a group that starts after all of them. */
  lemma {:induction false} MembersBeyond(files: seq<InputFile>, n: nat, k: nat, g: nat)
    requires n <= |files| && k > 0 && |Unassigned(files, n)| <= Times(g, k)
    ensures Members(files, n, k, g) == []
  {
    TimesMul(g, k);
    MembersCount(files, n, k, g);
  }

  /** m full groups and a partial one of c files make m (+1 when c > 0) groups. */
  lemma GroupCountOf(n: nat, k: nat, m: nat, c: nat)
    requires k > 0 && n == Times(m, k) + c && c < k
    ensures GroupCount(n, k) == m + (if c > 0 then 1 else 0)
  {
    TimesMul(m, k);
    if c > 0 {
      DivBetween(n + k - 1, k, m + 1);
    } else {
      DivBetween(n + k - 1, k, m);
    }
  }
}
