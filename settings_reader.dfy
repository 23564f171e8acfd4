/**
 * The settings-file reader (tools/settings-reader/SettingsReader.cpp): a
 * recursive-descent reader over the tokens of a ParsingByteStream that
 * fills an AppOptions object.
 *
 * The file is a sequence of lists: `(options ...)`, then one or more
 * `(input-files ...)`, then `(djbz ...)` lists. Inside a list every token
 * is a key, a nested list `(name ...` or the closing `)`. A token such as
 * `0)` that holds a `)` after its first byte is cut there and the rest is
 * pushed back into the stream, so that the `)` closes the list next.
 *
 * Each reading routine is a method; what it promises about the stream is
 * stated against ParsingStream.TokenS, and what it promises about the
 * options is stated as the ranges every value it stores lies in, the
 * lists it appends to and the references it sets.
 */
module SettingsReading {
  import opened ParsingStream
  import opened Options

  /** What a reading routine ends with: true, false, or the end of the program inside file_list_add_*. */
  datatype Status = Success | Failure | Exit

  const LPAREN: byte := 40
  const RPAREN: byte := 41

  // ---------------------------------------------------------------- token text

  /** GUTF8String::downcase on the ASCII letters. */
  function LowerByte(b: byte): byte {
    if 65 <= b <= 90 then b + 32 else b
  }

  function Downcase(s: seq<byte>): (r: seq<byte>)
    ensures |r| == |s|
    ensures forall k :: 0 <= k < |s| ==> r[k] == s[k] || (65 <= s[k] <= 90 && r[k] == s[k] + 32)
    ensures forall k :: 0 <= k < |s| ==> !(65 <= r[k] <= 90)
    ensures forall k :: 0 <= k < |s| ==> (r[k] == RPAREN <==> s[k] == RPAREN)
  {
    seq(|s|, k requires 0 <= k < |s| => LowerByte(s[k]))
  }

  /** Downcasing twice is downcasing once. */
  lemma DowncaseIdempotent(s: seq<byte>)
    ensures Downcase(Downcase(s)) == Downcase(s)
  {
  }

  /** The bytes of a token as the characters of a file name or an option value. */
  function Text(s: seq<byte>): (t: string)
    ensures |t| == |s|
    ensures forall k :: 0 <= k < |s| ==> t[k] as int == s[k] as int
  {
    seq(|s|, k requires 0 <= k < |s| => (s[k] as int) as char)
  }

  /** The bytes of a text of 8-bit characters. */
  function Bytes(t: string): (s: seq<byte>)
    requires forall k :: 0 <= k < |t| ==> t[k] as int < 256
    ensures Text(s) == t
  {
    var s := seq(|t|, k requires 0 <= k < |t| => t[k] as int as byte);
    assert forall k :: 0 <= k < |t| ==> Text(s)[k] == t[k];
    s
  }

  /** GUTF8String::search(')'): the first index of `)`, or -1. */
  function FirstParen(s: seq<byte>): (i: int)
    ensures -1 <= i < |s|
    ensures i >= 0 ==> s[i] == RPAREN && forall k :: 0 <= k < i ==> s[k] != RPAREN
    ensures i == -1 <==> RPAREN !in s
  {
    if s == [] then -1
    else if s[0] == RPAREN then 0
    else
      var j := FirstParen(s[1..]);
      if j == -1 then -1 else j + 1
  }

  /** A token split into what the list loop keeps and what it pushes back. */
  datatype Cut = Cut(head: seq<byte>, tail: seq<byte>)

  /**
   * The cut every list loop makes: a token holding `)` after its first
   * byte keeps what precedes the first `)`; the rest, from the `)` on, is
   * pushed back. A token that starts with `)` is left whole.
   */
  function CutAt(s: seq<byte>): (c: Cut)
    ensures c.head + c.tail == s
    ensures c.tail != [] ==> c.tail[0] == RPAREN && c.head != []
    ensures s == [] || s[0] != RPAREN ==> forall k :: 0 <= k < |c.head| ==> c.head[k] != RPAREN
    ensures s != [] && s[0] == RPAREN ==> c == Cut(s, [])
  {
    var i := FirstParen(s);
    if i > 0 then Cut(s[..i], s[i..]) else Cut(s, [])
  }

  /**
   * Cutting the downcased token cuts the original at the same place: the
   * `)` is no letter.
   */
  lemma CutDowncase(s: seq<byte>)
    ensures CutAt(Downcase(s)) == Cut(Downcase(CutAt(s).head), Downcase(CutAt(s).tail))
  {
    var d := Downcase(s);
    var i := FirstParen(s);
    var j := FirstParen(d);
    if i >= 0 {
      assert d[i] == RPAREN;
      assert j == i;
      assert Downcase(s[..i]) == d[..i];
      assert Downcase(s[i..]) == d[i..];
    }
  }

  // ---------------------------------------------------------------- integers

  predicate IsDigit(b: byte) {
    48 <= b <= 57
  }

  predicate AllDigits(s: seq<byte>) {
    forall k :: 0 <= k < |s| ==> IsDigit(s[k])
  }

  /** GUTF8String::is_int on a token: an optional sign and at least one decimal digit. */
  predicate IsInt(s: seq<byte>) {
    s != [] && (if s[0] == 43 || s[0] == 45 then |s| > 1 && AllDigits(s[1..]) else AllDigits(s))
  }

  function DigitsValue(s: seq<byte>): nat
    requires AllDigits(s)
    decreases |s|
  {
    if s == [] then 0 else DigitsValue(s[..|s| - 1]) * 10 + (s[|s| - 1] - 48) as int
  }

  /** GUTF8String::toInt on a token that is_int accepts. */
  function IntValue(s: seq<byte>): int
    requires IsInt(s)
  {
    if s[0] == 45 then -(DigitsValue(s[1..]) as int)
    else if s[0] == 43 then DigitsValue(s[1..])
    else DigitsValue(s)
  }

  /** The decimal digits of n. */
  function Digits(n: nat): (s: seq<byte>)
    ensures s != [] && AllDigits(s)
  {
    if n < 10 then [(48 + n) as byte] else Digits(n / 10) + [(48 + n % 10) as byte]
  }

  /** n written in decimal, with a minus sign when negative. */
  function Numeral(n: int): (s: seq<byte>)
    ensures IsInt(s)
  {
    if n < 0 then [45] + Digits(-n) else Digits(n)
  }

  lemma {:induction false} DigitsRoundTrip(n: nat)
    ensures DigitsValue(Digits(n)) == n
  {
    if n >= 10 {
      DigitsRoundTrip(n / 10);
      var s := Digits(n);
      assert s[..|s| - 1] == Digits(n / 10);
    }
  }

  /** Every integer written in decimal reads back as itself. */
  lemma NumeralRoundTrip(n: int)
    ensures IntValue(Numeral(n)) == n
  {
    if n < 0 {
      DigitsRoundTrip(-n);
      assert Numeral(n)[1..] == Digits(-n);
    } else {
      DigitsRoundTrip(n);
    }
  }

  /** What readValInt compares with the bounds: the value, or -99999 when the token is no integer. */
  function ValueOrSentinel(s: seq<byte>): (v: int)
    ensures IsInt(s) ==> v == IntValue(s)
  {
    if IsInt(s) then IntValue(s) else -99999
  }

  // ---------------------------------------------------------------- file lists

  /**
   * readFile as written: the file name is the token exactly as read, the
   * `)` tail the loop pushed back included.
   */
  function FileNameAsWritten(orig: seq<byte>): (name: seq<byte>)
    ensures CutAt(orig).tail != [] ==> |CutAt(orig).head| < |name| && name[|CutAt(orig).head|] == RPAREN
  {
    orig
  }

  /**
   * The file name a `(file` list gives: the token as read, letter case
   * kept, cut where the key token was cut.
   */
  function FileName(orig: seq<byte>): (name: seq<byte>)
    ensures Downcase(name) == CutAt(Downcase(orig)).head
    ensures name <= orig
    ensures orig == [] || orig[0] != RPAREN ==> RPAREN !in name
  {
    CutDowncase(orig);
    CutAt(orig).head
  }

  /**
   * A `(file` list closed right after its name, as in `(file scan.tif)`:
   * the name kept holds the `)` that also closes the list, and so is no
   * TIFF name even when the file is one.
   */
  lemma FileNameAsWrittenKeepsParen(stem: seq<byte>)
    requires stem != [] && RPAREN !in stem
    ensures FileNameAsWritten(stem + [RPAREN]) == stem + [RPAREN]
    ensures FileName(stem + [RPAREN]) == stem
    ensures !IsTiff(Text(FileNameAsWritten(stem + [RPAREN])))
  {
    var orig := stem + [RPAREN];
    assert FirstParen(orig) == |stem| by {
      assert forall k :: 0 <= k < |stem| ==> orig[k] != RPAREN;
    }
    assert orig[..|stem|] == stem;
    NotTiffParen(Text(orig));
  }

  /** A name ending in `)` is no TIFF name. */
  lemma NotTiffParen(name: string)
    requires |name| > 0 && name[|name| - 1] == ')'
    ensures !IsTiff(name)
  {
    assert Lower(".tif")[3] == 'f' && Lower(".tiff")[4] == 'f';
    if |name| >= 4 {
      assert Lower(name[|name| - 4..])[3] == ')';
    }
    if |name| >= 5 {
      assert Lower(name[|name| - 5..])[4] == ')';
    }
  }

  /** A `(file` list as read: its name, the pages asked for, the image options. */
  datatype FileSpec = FileSpec(name: Option<seq<byte>>, multipage: bool, start: int, end: int,
                               options: Option<ImageOptions>)

  /** The entries file_list_add_filename(_with_filter) appends for a `(file` list. */
  function FileEntries(s: FileSpec, tiffPages: string -> int): (r: Outcome<seq<InputFile>>)
    requires s.name.Some?
    ensures r.Done? ==> forall k :: 0 <= k < |r.value| ==> r.value[k].djbz.None? && r.value[k].name == Text(s.name.value)
    ensures !s.multipage ==> r.Done?
  {
    var name := Text(s.name.value);
    if s.multipage then FilteredEntries(name, s.start, s.end, s.options, tiffPages)
    else Done(PageEntries(name, 0, PageCount(name, tiffPages), s.options))
  }

  /**
   * The references file_list_add_ref(_with_filter) appends for a `(file`
   * list inside `(files`; None when a page is missing or out of range,
   * which ends the program.
   */
  function FileRefs(s: FileSpec, src: seq<InputFile>, tiffPages: string -> int): (r: Option<seq<nat>>)
    requires s.name.Some?
    ensures r.Some? ==> forall k :: 0 <= k < |r.value| ==> r.value[k] < |src| && src[r.value[k]].name == Text(s.name.value)
  {
    var name := Text(s.name.value);
    if s.multipage && Multipage(name, tiffPages) then
      match AdjustPagesInterval(tiffPages(name), s.start, s.end)
      case Abort => None
      case Done((lo, hi)) => RefsFor(src, name, lo, hi + 1)
    else RefsFor(src, name, 0, PageCount(name, tiffPages))
  }

  /** The files of the list, with the files at the given indices put into dictionary slot, in turn. */
  function Attach(files: seq<InputFile>, refs: seq<nat>, slot: nat): (r: seq<InputFile>)
    ensures |r| == |files|
    ensures forall j :: 0 <= j < |files| ==>
      r[j] == (if j in refs then files[j].(djbz := Some(slot)) else files[j])
    decreases |refs|
  {
    if refs == [] then files
    else
      var f := Attach(files, refs[..|refs| - 1], slot);
      var x := refs[|refs| - 1];
      assert forall j :: j in refs <==> j in refs[..|refs| - 1] || j == x by {
        assert refs == refs[..|refs| - 1] + [x];
      }
      if x < |f| then f[x := f[x].(djbz := Some(slot))] else f
  }

  /** Every index a dictionary refers to is a file of the list. */
  predicate RefsWithin(d: DjbzOptions, n: nat) {
    forall k :: 0 <= k < |d.fileListRef.files| ==> d.fileListRef.files[k] < n
  }

  // ---------------------------------------------------------------- what the readers store

  /** The image options a list may set: each field kept, or set to a value in its range. */
  predicate ImageUpdate(o0: ImageOptions, o: ImageOptions) {
    (o.smooth == o0.smooth || 0 <= o.smooth <= 1) &&
    (o.clean == o0.clean || 0 <= o.clean <= 1) &&
    (o.erosion == o0.erosion || 0 <= o.erosion <= 1) &&
    ((o.dpi == o0.dpi && o.dpiSpecified == o0.dpiSpecified) || (20 <= o.dpi <= 2000 && o.dpiSpecified == 1))
  }

  /** The dictionary settings a list may set: each kept, or set to a value in its range. */
  predicate DjbzUpdate(d0: DjbzOptions, d: DjbzOptions) {
    (d.id == d0.id || (d.id.Some? && d.id.value != [])) &&
    (d.dictSuffix == d0.dictSuffix || d.dictSuffix != []) &&
    (d.averaging == d0.averaging || 0 <= d.averaging <= 1) &&
    (d.aggression == d0.aggression || 0 <= d.aggression <= 1000) &&
    (d.classifier == d0.classifier || 1 <= d.classifier <= 3) &&
    (d.noPrototypes == d0.noPrototypes || 0 <= d.noPrototypes <= 1) &&
    (d.erosion == d0.erosion || 0 <= d.erosion <= 1) &&
    d.chunkId == d0.chunkId && d.doNotSave == d0.doNotSave
  }

  /**
   * What the keys of a `(file` list leave in its description: a nonempty
   * name, pages in [0, 1000000] when any was given (none otherwise), and
   * image options made from the defaults.
   */
  predicate SpecInRange(spec: FileSpec, defaults: ImageOptions) {
    (spec.name.Some? ==> spec.name.value != []) &&
    (spec.multipage ==> 0 <= spec.start <= 1000000 && 0 <= spec.end <= 1000000) &&
    (!spec.multipage ==> spec.start == 0 && spec.end == 0) &&
    (spec.options.Some? ==> ImageUpdate(defaults, spec.options.value))
  }

  // ---------------------------------------------------------------- what one key stores

  /**
   * The value token a key reads from the pending input p: the next token,
   * cut before a `)` that follows its first byte (what readValInt and
   * readValStr look at).
   */
  function ValueToken(p: seq<byte>): seq<byte>
  {
    CutAt(TokenS(p, true, false).str).head
  }

  /** readValInt accepts the value t for the bounds [lo, hi]. */
  predicate IntIn(t: seq<byte>, lo: int, hi: int) {
    lo <= ValueOrSentinel(t) <= hi
  }

  /** Whether a key of an image list takes its value t; a key it does not know reads no value. */
  predicate ImageAccepts(key: string, t: seq<byte>) {
    if key == "smooth" || key == "clean" || key == "erosion" then IntIn(t, 0, 1)
    else if key == "dpi" then IntIn(t, 20, 2000)
    else true
  }

  /** What a key of an image list stores, given its value t. */
  function ImageApply(key: string, t: seq<byte>, o: ImageOptions): ImageOptions {
    var v := ValueOrSentinel(t);
    if key == "smooth" then o.(smooth := v)
    else if key == "clean" then o.(clean := v)
    else if key == "erosion" then o.(erosion := v)
    else if key == "dpi" then o.(dpi := v, dpiSpecified := 1)
    else o
  }

  /** An accepted image key stores a value in its range. */
  lemma ImageApplyInRange(key: string, t: seq<byte>, o: ImageOptions)
    requires ImageAccepts(key, t)
    ensures ImageUpdate(o, ImageApply(key, t, o))
  {
  }

  /** Whether a key of a dictionary list takes its value t; id is refused in the defaults. */
  predicate DjbzAccepts(key: string, t: seq<byte>, isDefaults: bool) {
    if key == "id" then !isDefaults && t != []
    else if key == "xtension" then t != []
    else if key == "averaging" || key == "no-prototypes" || key == "erosion" then IntIn(t, 0, 1)
    else if key == "aggression" then IntIn(t, 0, 1000)
    else if key == "classifier" then IntIn(t, 1, 3)
    else true
  }

  /** What a key of a dictionary list stores, given its value t. */
  function DjbzApply(key: string, t: seq<byte>, d: DjbzOptions): DjbzOptions {
    var v := ValueOrSentinel(t);
    if key == "id" then d.(id := Some(Text(t)))
    else if key == "xtension" then d.(dictSuffix := Text(t))
    else if key == "averaging" then d.(averaging := v)
    else if key == "aggression" then d.(aggression := v)
    else if key == "classifier" then d.(classifier := v)
    else if key == "no-prototypes" then d.(noPrototypes := v)
    else if key == "erosion" then d.(erosion := v)
    else d
  }

  /** An accepted dictionary key stores a value in its range and leaves the file references alone. */
  lemma DjbzApplyInRange(key: string, t: seq<byte>, d: DjbzOptions, isDefaults: bool)
    requires DjbzAccepts(key, t, isDefaults)
    ensures DjbzUpdate(d, DjbzApply(key, t, d)) && DjbzApply(key, t, d).fileListRef == d.fileListRef
    ensures isDefaults ==> DjbzApply(key, t, d).id == d.id
  {
  }

  /** Whether a key of `(options` takes its value t; threads-max is a key only with OpenMP. */
  predicate SettingAccepts(key: string, t: seq<byte>, openmp: bool) {
    if key == "indirect" || key == "report" || key == "verbose" || key == "warnings" then IntIn(t, 0, 1)
    else if key == "lossy" || key == "match" then IntIn(t, 0, 2)
    else if key == "pages-per-dict" then IntIn(t, 0, 1000000)
    else if key == "threads-max" && openmp then IntIn(t, 1, 1000000)
    else if key == "xtension" then t != []
    else true
  }

  /**
   * What a key of `(options` stores, given its value t. lossy v sets
   * match, the default dictionary's erosion and averaging and the default
   * image's smooth and clean to v, except that 2 stores 1 there and also
   * sets Match; match 2 sets match and Match to 1.
   */
  function SettingApply(key: string, t: seq<byte>, s: Settings, openmp: bool): Settings {
    var v := ValueOrSentinel(t);
    if key == "indirect" then s.(indirect := v)
    else if key == "lossy" then
      var m := if v == 2 then 1 else v;
      s.(matching := m, matchingAll := if v == 2 then 1 else s.matchingAll,
         defaultDjbz := s.defaultDjbz.(erosion := m, averaging := m),
         defaultImage := s.defaultImage.(smooth := m, clean := m))
    else if key == "match" then (if v == 2 then s.(matching := 1, matchingAll := 1) else s.(matching := v))
    else if key == "pages-per-dict" then s.(pagesPerDict := v)
    else if key == "report" then s.(report := v)
    else if key == "threads-max" && openmp then s.(maxThreads := v)
    else if key == "verbose" then s.(verbose := v)
    else if key == "warnings" then s.(warnings := v)
    else if key == "xtension" then s.(defaultDjbz := s.defaultDjbz.(dictSuffix := Text(t)))
    else s
  }

  /** An accepted key of `(options` stores values in their ranges. */
  lemma SettingApplyInRange(key: string, t: seq<byte>, s: Settings, openmp: bool)
    requires SettingAccepts(key, t, openmp)
    ensures SettingsUpdate(s, SettingApply(key, t, s, openmp))
  {
  }

  /**
   * `lossy n` for n in 0..2, written in decimal: match, the two default
   * dictionary flags and the two default image flags become min(n, 1),
   * Match becomes 1 exactly for n == 2, and nothing else changes.
   */
  lemma {:induction false} LossyValue(n: int, s: Settings, openmp: bool)
    requires 0 <= n <= 2
    ensures SettingAccepts("lossy", Numeral(n), openmp)
    ensures var m := if n == 2 then 1 else n;
      SettingApply("lossy", Numeral(n), s, openmp) ==
        s.(matching := m, matchingAll := if n == 2 then 1 else s.matchingAll,
           defaultDjbz := s.defaultDjbz.(erosion := m, averaging := m),
           defaultImage := s.defaultImage.(smooth := m, clean := m))
  {
    NumeralRoundTrip(n);
  }

  /** `match 2` sets match and Match; `match 0` and `match 1` set match alone. */
  lemma {:induction false} MatchValue(n: int, s: Settings, openmp: bool)
    requires 0 <= n <= 2
    ensures SettingAccepts("match", Numeral(n), openmp)
    ensures SettingApply("match", Numeral(n), s, openmp) ==
      if n == 2 then s.(matching := 1, matchingAll := 1) else s.(matching := n)
  {
    NumeralRoundTrip(n);
  }

  /** The page keys of a `(file` list. */
  predicate PageKey(key: string) {
    key == "page" || key == "page-start" || key == "page-end"
  }

  /** What a page key of a `(file` list stores, given its value t: `page` sets both bounds. */
  function PageApply(key: string, t: seq<byte>, spec: FileSpec): FileSpec {
    var v := ValueOrSentinel(t);
    if key == "page" then spec.(multipage := true, start := v, end := v)
    else if key == "page-start" then spec.(multipage := true, start := v)
    else if key == "page-end" then spec.(multipage := true, end := v)
    else spec
  }

  /** `page n`, written in decimal, asks for page n alone. */
  lemma {:induction false} PageValue(n: int, spec: FileSpec)
    requires 0 <= n <= 1000000
    ensures IntIn(Numeral(n), 0, 1000000)
    ensures PageApply("page", Numeral(n), spec) == spec.(multipage := true, start := n, end := n)
  {
    NumeralRoundTrip(n);
  }

  /** readFile's swap of reversed page bounds. */
  function Ordered(s: FileSpec): (r: FileSpec)
    ensures r.multipage ==> r.start <= r.end
    ensures r.name == s.name && r.options == s.options && r.multipage == s.multipage
    ensures {r.start, r.end} == {s.start, s.end}
  {
    if s.multipage && s.end < s.start then s.(start := s.end, end := s.start) else s
  }

  /** Everything of an AppOptions object but its file list. */
  ghost function Rest(a: AppOptions): (Settings, seq<DjbzOptions>, Option<string>)
    reads a
  {
    (SettingsOf(a), a.djbzList, a.outputFile)
  }

  /** The settings of an AppOptions object other than its lists and output file. */
  datatype Settings = Settings(pagesPerDict: int, verbose: int, matching: int, matchingAll: int, report: int,
                               warnings: int, indirect: int, maxThreads: int, defaultImage: ImageOptions,
                               defaultDjbz: DjbzOptions)

  ghost function SettingsOf(a: AppOptions): Settings
    reads a
  {
    Settings(a.pagesPerDict, a.verbose, a.matching, a.matchingAll, a.report, a.warnings, a.indirect,
             a.maxThreads, a.defaultImage, a.defaultDjbz)
  }

  /** What `(options` may set: each kept, or set to a value in its range. */
  predicate SettingsUpdate(s0: Settings, s: Settings) {
    (s.pagesPerDict == s0.pagesPerDict || 0 <= s.pagesPerDict <= 1000000) &&
    (s.verbose == s0.verbose || 0 <= s.verbose <= 1) &&
    (s.report == s0.report || 0 <= s.report <= 1) &&
    (s.warnings == s0.warnings || 0 <= s.warnings <= 1) &&
    (s.indirect == s0.indirect || 0 <= s.indirect <= 1) &&
    (s.matching == s0.matching || 0 <= s.matching <= 1) &&
    (s.matchingAll == s0.matchingAll || s.matchingAll == 1) &&
    (s.maxThreads == s0.maxThreads || 1 <= s.maxThreads <= 1000000) &&
    ImageUpdate(s0.defaultImage, s.defaultImage) &&
    DjbzUpdate(s0.defaultDjbz, s.defaultDjbz) &&
    s.defaultDjbz.id == s0.defaultDjbz.id && s.defaultDjbz.fileListRef == s0.defaultDjbz.fileListRef
  }

  /**
   * The links between files and dictionaries are sound: the default
   * dictionary lists no files, a listed dictionary only files of the file
   * list, and a file only a dictionary of the dictionary list.
   */
  ghost predicate Linked(a: AppOptions)
    reads a
  {
    a.defaultDjbz.fileListRef.files == [] && LinkedLists(a.djbzList, a.fileList.files)
  }

  predicate LinkedLists(ds: seq<DjbzOptions>, files: seq<InputFile>) {
    (forall g :: 0 <= g < |ds| ==> RefsWithin(ds[g], |files|)) &&
    (forall j :: 0 <= j < |files| && files[j].djbz.Some? ==> files[j].djbz.value < |ds|)
  }

  /** Files in no dictionary may join the list. */
  lemma LinkedExtends(ds: seq<DjbzOptions>, f0: seq<InputFile>, f: seq<InputFile>)
    requires LinkedLists(ds, f0) && Extends(f0, f)
    ensures LinkedLists(ds, f)
  {
    forall j | 0 <= j < |f0|
      ensures f[j] == f0[j]
    {
      assert f[..|f0|][j] == f[j];
    }
  }

  /** A new dictionary may join the list once its files point to it. */
  lemma LinkedAttach(ds: seq<DjbzOptions>, f: seq<InputFile>, d: DjbzOptions)
    requires LinkedLists(ds, f) && RefsWithin(d, |f|)
    ensures LinkedLists(ds + [d], Attach(f, d.fileListRef.files, |ds|))
  {
    var ds' := ds + [d];
    var a := Attach(f, d.fileListRef.files, |ds|);
    forall g | 0 <= g < |ds'|
      ensures RefsWithin(ds'[g], |a|)
    {
      if g < |ds| {
        assert ds'[g] == ds[g];
      }
    }
    forall j | 0 <= j < |a| && a[j].djbz.Some?
      ensures a[j].djbz.value < |ds'|
    {
      if j !in d.fileListRef.files {
        assert a[j] == f[j];
      }
    }
  }

  /** The list grows by one more file put into the dictionary, as in the loop of readDjbzOptions. */
  lemma AttachNext(f: seq<InputFile>, refs: seq<nat>, i: nat, slot: nat)
    requires i < |refs| && refs[i] < |f|
    ensures var a := Attach(f, refs[..i], slot);
      Attach(f, refs[..i + 1], slot) == a[refs[i] := a[refs[i]].(djbz := Some(slot))]
  {
    assert refs[..i + 1][..i] == refs[..i];
  }

  /** The file list grew at its end by files in no dictionary. */
  predicate Extends(f0: seq<InputFile>, f: seq<InputFile>) {
    |f0| <= |f| && f[..|f0|] == f0 && forall j :: |f0| <= j < |f| ==> f[j].djbz.None?
  }

  /** The kinds of top-level lists. */
  datatype Section = OptionsSection | InputFilesSection | DjbzSection

  /** `(options` comes before every `(input-files`, and `(djbz` after both. */
  predicate InOrder(s: seq<Section>) {
    (forall j :: 0 <= j < |s| && s[j] == OptionsSection ==> InputFilesSection !in s[..j]) &&
    (forall j :: 0 <= j < |s| && s[j] == DjbzSection ==> OptionsSection in s[..j] && InputFilesSection in s[..j])
  }

  /** Files in no dictionary appended to a list extend it. */
  lemma ExtendsBy(f: seq<InputFile>, xs: seq<InputFile>)
    requires forall k :: 0 <= k < |xs| ==> xs[k].djbz.None?
    ensures Extends(f, f + xs)
  {
    assert (f + xs)[..|f|] == f;
  }

  /**
   * What reading a list of files may do: extend the file list, or, when
   * the files are only referenced, leave it and extend refs with indices
   * of its files.
   */
  predicate Grown(refOnly: bool, f0: FileList<InputFile>, f: FileList<InputFile>, r0: FileList<nat>, r: FileList<nat>) {
    Extends(f0.files, f.files) && (refOnly ==> f == f0) && (!refOnly ==> r == r0) &&
    |r0.files| <= |r.files| && r.files[..|r0.files|] == r0.files &&
    forall k :: |r0.files| <= k < |r.files| ==> r.files[k] < |f.files|
  }

  /** References that grow by indices below n stay below n. */
  lemma RefsGrown(d: DjbzOptions, r: FileList<nat>, n: nat)
    requires RefsWithin(d, n)
    requires |d.fileListRef.files| <= |r.files| && r.files[..|d.fileListRef.files|] == d.fileListRef.files
    requires forall k :: |d.fileListRef.files| <= k < |r.files| ==> r.files[k] < n
    ensures RefsWithin(d.(fileListRef := r), n)
  {
    forall k | 0 <= k < |d.fileListRef.files|
      ensures r.files[k] < n
    {
      assert r.files[k] == r.files[..|d.fileListRef.files|][k];
    }
  }

  /**
   * What reading a dictionary list may do to it: each setting kept or set
   * in range, its file references extended by files of a list of n; the
   * defaults keep their id and their (empty) references.
   */
  ghost predicate DjbzGrown(d0: DjbzOptions, d: DjbzOptions, isDefaults: bool, n: nat) {
    DjbzUpdate(d0, d) && RefsWithin(d, n) && d.fileListRef.Valid() &&
    |d0.fileListRef.files| <= |d.fileListRef.files| &&
    d.fileListRef.files[..|d0.fileListRef.files|] == d0.fileListRef.files &&
    (isDefaults ==> d.id == d0.id && d.fileListRef == d0.fileListRef)
  }

  lemma DjbzGrownTrans(d0: DjbzOptions, d1: DjbzOptions, d2: DjbzOptions, isDefaults: bool, n: nat)
    requires DjbzGrown(d0, d1, isDefaults, n) && DjbzGrown(d1, d2, isDefaults, n)
    ensures DjbzGrown(d0, d2, isDefaults, n)
  {
    var a, b := d0.fileListRef.files, d1.fileListRef.files;
    assert d2.fileListRef.files[..|a|] == d2.fileListRef.files[..|b|][..|a|];
  }

  /** The dictionary list grew at its end by dictionaries with an id and files. */
  predicate ListGrown(l0: seq<DjbzOptions>, l: seq<DjbzOptions>) {
    |l0| <= |l| && l[..|l0|] == l0 &&
    forall g :: |l0| <= g < |l| ==> l[g].id.Some? && l[g].fileListRef.files != []
  }

  /**
   * What the top-level lists may do to an AppOptions object: set settings
   * in range, add dictionaries, and keep its file and dictionary lists
   * linked.
   */
  ghost predicate Progressed(s0: Settings, l0: seq<DjbzOptions>, o0: Option<string>, a: AppOptions)
    reads a
  {
    a.Valid() && Linked(a) && SettingsUpdate(s0, SettingsOf(a)) && a.outputFile == o0 && ListGrown(l0, a.djbzList)
  }

  lemma ProgressedTrans(s0: Settings, l0: seq<DjbzOptions>, s1: Settings, l1: seq<DjbzOptions>,
                        o0: Option<string>, a: AppOptions)
    requires SettingsUpdate(s0, s1) && ListGrown(l0, l1) && Progressed(s1, l1, o0, a)
    ensures Progressed(s0, l0, o0, a)
  {
    SettingsUpdateTrans(s0, s1, SettingsOf(a));
    ListGrownTrans(l0, l1, a.djbzList);
  }

  lemma ListGrownTrans(l0: seq<DjbzOptions>, l1: seq<DjbzOptions>, l2: seq<DjbzOptions>)
    requires ListGrown(l0, l1) && ListGrown(l1, l2)
    ensures ListGrown(l0, l2)
  {
    assert l2[..|l0|] == l2[..|l1|][..|l0|];
    forall g | |l0| <= g < |l1|
      ensures l2[g] == l1[g]
    {
      assert l2[..|l1|][g] == l2[g];
    }
  }

  lemma GrownTrans(refOnly: bool, f0: FileList<InputFile>, f1: FileList<InputFile>, f2: FileList<InputFile>,
                   r0: FileList<nat>, r1: FileList<nat>, r2: FileList<nat>)
    requires Grown(refOnly, f0, f1, r0, r1) && Grown(refOnly, f1, f2, r1, r2)
    ensures Grown(refOnly, f0, f2, r0, r2)
  {
    assert f2.files[..|f0.files|] == f2.files[..|f1.files|][..|f0.files|];
    assert r2.files[..|r0.files|] == r2.files[..|r1.files|][..|r0.files|];
  }

  /** Settings changed by two lists in turn are changed as by one. */
  lemma SettingsUpdateTrans(s0: Settings, s1: Settings, s2: Settings)
    requires SettingsUpdate(s0, s1) && SettingsUpdate(s1, s2)
    ensures SettingsUpdate(s0, s2)
  {
  }

  /** The keys `(options` knows; threads-max only with OpenMP. */
  predicate AppKey(key: string, openmp: bool) {
    key in {"indirect", "lossy", "match", "pages-per-dict", "report", "verbose", "xtension", "warnings"} ||
    (openmp && key == "threads-max")
  }

  /** A list that keeps the order may follow lists in order. */
  lemma InOrderSnoc(s: seq<Section>, x: Section)
    requires InOrder(s)
    requires x == OptionsSection ==> InputFilesSection !in s
    requires x == DjbzSection ==> OptionsSection in s && InputFilesSection in s
    ensures InOrder(s + [x])
  {
    var t := s + [x];
    assert t[..|s|] == s;
    forall j | 0 <= j < |s|
      ensures t[..j] == s[..j]
    {
    }
  }

  // ---------------------------------------------------------------- the reader

  /** One more byte of a tail pushed back in front of the rest. */
  lemma PushedOne(tail: seq<byte>, j: nat, p0: seq<byte>)
    requires j < |tail|
    ensures [Low(tail[j] as int)] + (tail[j + 1..] + p0) == tail[j..] + p0
  {
    assert Low(tail[j] as int) == tail[j];
    assert tail[j..] == [tail[j]] + tail[j + 1..];
  }

  class SettingsReader {
    const bs: ParsingByteStream
    const app: AppOptions
    /** Whether the program is built with OpenMP, which adds the threads-max option. */
    const openmp: bool

    /** The stream opening is not part of this model: the reader starts from an open stream. */
    constructor (bs: ParsingByteStream, app: AppOptions, openmp: bool)
      ensures this.bs == bs && this.app == app && this.openmp == openmp
    {
      this.bs := bs;
      this.app := app;
      this.openmp := openmp;
    }

    /** Push the tail back, last byte first; a push-back without room is lost, as in unget. */
    method PushBack(tail: seq<byte>)
      requires bs.Valid()
      modifies bs, bs.buffer
      ensures bs.Valid()
      ensures exists j :: 0 <= j <= |tail| && bs.Pending() == tail[j..] + old(bs.Pending())
      ensures |bs.Pending()| <= |old(bs.Pending())| + |tail|
      ensures old(bs.bufpos) >= |tail| ==> bs.Pending() == tail + old(bs.Pending())
    {
      ghost var p0 := bs.Pending();
      ghost var m := |tail|;
      var j := |tail|;
      while j > 0
        invariant bs.Valid() && 0 <= j <= m <= |tail|
        invariant bs.Pending() == tail[m..] + p0
        invariant m > j ==> bs.bufpos == 0
        invariant m == j ==> bs.bufpos == old(bs.bufpos) - (|tail| - j)
        invariant old(bs.bufpos) >= |tail| ==> m == j
      {
        j := j - 1;
        var r := bs.Unget(tail[j] as int);
        if r != EOF {
          PushedOne(tail, j, p0);
          m := j;
        }
      }
      assert 0 <= m <= |tail| && bs.Pending() == tail[m..] + p0;
    }

    /**
     * The token-reading prologue of every list loop: a token, downcased
     * when asked, cut before a `)` that follows its first byte, the rest
     * pushed back. orig is the token as read.
     */
    method NextKey(lower: bool) returns (tok: seq<byte>, orig: seq<byte>)
      requires bs.Valid()
      modifies bs, bs.buffer
      ensures bs.Valid()
      ensures |bs.Pending()| + |tok| <= |old(bs.Pending())|
      ensures tok == CutAt(if lower then Downcase(orig) else orig).head
      ensures 0xEF !in old(bs.Pending()) ==> orig == TokenS(old(bs.Pending()), true, false).str
      ensures 0xEF !in old(bs.Pending()) ==> var tail := CutAt(if lower then Downcase(orig) else orig).tail;
        exists j :: 0 <= j <= |tail| && bs.Pending() == tail[j..] + TokenS(old(bs.Pending()), true, false).rest
    {
      orig := bs.GetToken(true, false);
      ghost var p1 := bs.Pending();
      var t := if lower then Downcase(orig) else orig;
      var i := FirstParen(t);
      if i > 0 {
        PushBack(t[i..]);
        tok := t[..i];
      } else {
        tok := t;
        assert bs.Pending() == CutAt(t).tail[0..] + p1;
      }
    }

    /** The name of a nested list: the rest of a `(name` token, or the next token after a bare `(`. */
    method NestedKey(tok: seq<byte>) returns (key: seq<byte>)
      requires bs.Valid() && tok != []
      modifies bs, bs.buffer
      ensures bs.Valid()
      ensures |bs.Pending()| <= |old(bs.Pending())|
      ensures |tok| > 1 ==> key == Downcase(tok[1..]) && bs.Pending() == old(bs.Pending())
    {
      if |tok| > 1 {
        key := Downcase(tok[1..]);
      } else {
        var t := bs.GetToken(true, false);
        key := Downcase(t);
      }
    }

    /**
     * readValInt: the next token, cut, must be an integer in [min, max];
     * otherwise false, and the caller keeps its value.
     */
    method ReadValInt(min: int, max: int) returns (ok: bool, v: int)
      requires bs.Valid()
      modifies bs, bs.buffer
      ensures bs.Valid()
      ensures |bs.Pending()| <= |old(bs.Pending())|
      ensures ok ==> min <= v <= max
      ensures 0xEF !in old(bs.Pending()) ==> var t := CutAt(TokenS(old(bs.Pending()), true, false).str).head;
        (ok <==> min <= ValueOrSentinel(t) <= max) && (ok ==> v == ValueOrSentinel(t))
      ensures 0xEF !in old(bs.Pending()) && min > -99999 ==> var t := CutAt(TokenS(old(bs.Pending()), true, false).str).head;
        (ok <==> IsInt(t) && min <= IntValue(t) <= max)
    {
      var val, _ := NextKey(false);
      var i := -99999;
      if val != [] && IsInt(val) {
        i := IntValue(val);
      }
      if i < min || i > max {
        return false, 0;
      }
      return true, i;
    }

    /** readValStr: the next token, cut; false when it is empty. */
    method ReadValStr() returns (ok: bool, val: seq<byte>)
      requires bs.Valid()
      modifies bs, bs.buffer
      ensures bs.Valid()
      ensures |bs.Pending()| <= |old(bs.Pending())|
      ensures ok <==> val != []
      ensures 0xEF !in old(bs.Pending()) ==> val == CutAt(TokenS(old(bs.Pending()), true, false).str).head
    {
      var orig;
      val, orig := NextKey(false);
      ok := val != [];
    }

    /**
     * readImageOptions: smooth, clean and erosion in [0, 1] and dpi in
     * [20, 2000], which also marks the dpi as given; other keys are
     * reported and skipped; false when a value is wrong.
     */
    method ReadImageOptions(o0: ImageOptions) returns (ok: bool, o: ImageOptions)
      requires bs.Valid()
      modifies bs, bs.buffer
      ensures bs.Valid()
      ensures |bs.Pending()| <= |old(bs.Pending())|
      ensures ImageUpdate(o0, o)
    {
      o := o0;
      while true
        invariant bs.Valid() && |bs.Pending()| <= |old(bs.Pending())|
        invariant ImageUpdate(o0, o)
        decreases |bs.Pending()|
      {
        var tok, _ := NextKey(true);
        if tok == [] || tok[0] == RPAREN {
          break;
        }
        var r;
        r, o := ReadImageItem(Text(tok), o);
        if !r {
          return false, o;
        }
      }
      ok := true;
    }

    /**
     * One key of an image list with its value: the key's field takes the
     * value read, or the list fails and the options stay as they were.
     */
    method ReadImageItem(key: string, o0: ImageOptions) returns (ok: bool, o: ImageOptions)
      requires bs.Valid()
      modifies bs, bs.buffer
      ensures bs.Valid()
      ensures |bs.Pending()| <= |old(bs.Pending())|
      ensures ImageUpdate(o0, o)
      ensures !ok ==> o == o0
      ensures 0xEF !in old(bs.Pending()) ==> var t := ValueToken(old(bs.Pending()));
        (ok <==> ImageAccepts(key, t)) && (ok ==> o == ImageApply(key, t, o0))
    {
      ok, o := true, o0;
      if key == "smooth" {
        var r, v := ReadValInt(0, 1);
        if !r {
          return false, o0;
        }
        o := o.(smooth := v);
      } else if key == "clean" {
        var r, v := ReadValInt(0, 1);
        if !r {
          return false, o0;
        }
        o := o.(clean := v);
      } else if key == "erosion" {
        var r, v := ReadValInt(0, 1);
        if !r {
          return false, o0;
        }
        o := o.(erosion := v);
      } else if key == "dpi" {
        var r, v := ReadValInt(20, 2000);
        if !r {
          return false, o0;
        }
        o := o.(dpi := v, dpiSpecified := 1);
      }
    }

    /**
     * The loop of readFile: `page N` sets the first and the last page to
     * N, `page-start` and `page-end` one of them (each in [0, 1000000]);
     * `(image` gives the file's own image options, starting from the
     * default ones; any other token is the file name.
     */
    method ReadFileSpec() returns (ok: bool, spec: FileSpec)
      requires bs.Valid()
      modifies bs, bs.buffer
      ensures bs.Valid()
      ensures |bs.Pending()| <= |old(bs.Pending())|
      ensures ok ==> spec.name.Some?
      ensures SpecInRange(spec, app.defaultImage)
    {
      spec := FileSpec(None, false, 0, 0, None);
      ok := true;
      while true
        invariant bs.Valid() && |bs.Pending()| <= |old(bs.Pending())|
        invariant SpecInRange(spec, app.defaultImage)
        decreases |bs.Pending()|
      {
        var tok, orig := NextKey(true);
        if tok == [] || tok[0] == RPAREN {
          break;
        }
        ok, spec := ReadFileItem(tok, orig, spec);
        if !ok {
          return;
        }
      }
      ok := spec.name.Some?;
    }

    /** One item of a `(file` list: an `(image` list, a page key with its value, or the file name. */
    method ReadFileItem(tok: seq<byte>, orig: seq<byte>, spec0: FileSpec) returns (ok: bool, spec: FileSpec)
      requires bs.Valid() && tok != [] && SpecInRange(spec0, app.defaultImage)
      requires tok == CutAt(Downcase(orig)).head
      modifies bs, bs.buffer
      ensures bs.Valid()
      ensures |bs.Pending()| <= |old(bs.Pending())|
      ensures SpecInRange(spec, app.defaultImage)
      ensures tok[0] != LPAREN && !PageKey(Text(tok)) ==> ok && spec == spec0.(name := Some(FileName(orig)))
      ensures !ok ==> spec == spec0
      ensures 0xEF !in old(bs.Pending()) && tok[0] != LPAREN && PageKey(Text(tok)) ==>
        var t := ValueToken(old(bs.Pending()));
        (ok <==> IntIn(t, 0, 1000000)) && (ok ==> spec == PageApply(Text(tok), t, spec0))
    {
      ok, spec := true, spec0;
      if tok[0] == LPAREN {
        var nested := NestedKey(tok);
        if Text(nested) == "image" {
          var o;
          ok, o := ReadImageOptions(ImageOptionsCreate(Some(app.defaultImage)));
          if ok {
            spec := spec.(options := Some(o));
          }
        } else {
          ok := false;
        }
        return;
      }
      var key := Text(tok);
      if PageKey(key) {
        ok, spec := ReadPageItem(key, spec0, app.defaultImage);
      } else {
        assert |FileName(orig)| == |tok|;
        spec := spec.(name := Some(FileName(orig)));
      }
    }

    /** A page key of a `(file` list with its value, in [0, 1000000]; page sets both bounds. */
    method ReadPageItem(key: string, spec0: FileSpec, defaults: ImageOptions) returns (ok: bool, spec: FileSpec)
      requires bs.Valid() && PageKey(key) && SpecInRange(spec0, defaults)
      modifies bs, bs.buffer
      ensures bs.Valid()
      ensures |bs.Pending()| <= |old(bs.Pending())|
      ensures SpecInRange(spec, defaults)
      ensures !ok ==> spec == spec0
      ensures 0xEF !in old(bs.Pending()) ==> var t := ValueToken(old(bs.Pending()));
        (ok <==> IntIn(t, 0, 1000000)) && (ok ==> spec == PageApply(key, t, spec0))
    {
      var v;
      ok, v := ReadValInt(0, 1000000);
      if !ok {
        return false, spec0;
      }
      if key == "page" {
        spec := spec0.(multipage := true, start := v, end := v);
      } else if key == "page-start" {
        spec := spec0.(multipage := true, start := v);
      } else {
        spec := spec0.(multipage := true, end := v);
      }
    }

    /**
     * readFile: a `(file` list; false without a file name. Reversed page
     * bounds are swapped; the pages are added to the file list, or, in a
     * `(files` list of a dictionary, referenced from refs.
     */
    method ReadFile(refOnly: bool, refs0: FileList<nat>)
      returns (st: Status, refs: FileList<nat>, ghost spec: FileSpec, ghost read: FileSpec)
      requires bs.Valid() && app.Valid() && refs0.Valid()
      modifies bs, bs.buffer, app
      ensures bs.Valid() && app.Valid() && refs.Valid()
      ensures |bs.Pending()| <= |old(bs.Pending())|
      ensures Rest(app) == old(Rest(app))
      ensures !st.Success? ==> app.fileList == old(app.fileList)
      ensures st.Success? ==> Grown(refOnly, old(app.fileList), app.fileList, refs0, refs)
      ensures !st.Failure? ==> spec == Ordered(read) && SpecInRange(read, app.defaultImage)
      ensures !st.Failure? ==> spec.name.Some? && (spec.multipage ==> 0 <= spec.start <= spec.end)
      ensures st.Success? && !refOnly ==> (FileEntries(spec, app.tiffPages).Done? && refs == refs0 &&
        app.fileList == AddAll(old(app.fileList), FileEntries(spec, app.tiffPages).value))
      ensures st.Success? && refOnly ==> (FileRefs(spec, app.fileList.files, app.tiffPages).Some? &&
        app.fileList == old(app.fileList) &&
        refs == AddAll(refs0, FileRefs(spec, app.fileList.files, app.tiffPages).value))
      ensures st.Exit? ==> if refOnly then FileRefs(spec, old(app.fileList.files), app.tiffPages).None?
                           else FileEntries(spec, app.tiffPages).Abort?
    {
      var ok, s := ReadFileSpec();
      spec, read := s, s;
      if !ok {
        return Failure, refs0, spec, read;
      }
      if s.multipage && s.end < s.start {
        s := s.(start := s.end, end := s.start);
      }
      spec := s;
      st, refs := AddSpec(refOnly, refs0, s);
    }

    /** The end of readFile: the pages of a file, added or referenced. */
    method AddSpec(refOnly: bool, refs0: FileList<nat>, s: FileSpec) returns (st: Status, refs: FileList<nat>)
      requires app.Valid() && refs0.Valid() && s.name.Some?
      modifies app
      ensures app.Valid() && refs.Valid()
      ensures Rest(app) == old(Rest(app))
      ensures st != Failure
      ensures st.Exit? ==> app.fileList == old(app.fileList)
      ensures st.Success? ==> Grown(refOnly, old(app.fileList), app.fileList, refs0, refs)
      ensures st.Success? && !refOnly ==> (FileEntries(s, app.tiffPages).Done? && refs == refs0 &&
        app.fileList == AddAll(old(app.fileList), FileEntries(s, app.tiffPages).value))
      ensures st.Success? && refOnly ==> (FileRefs(s, app.fileList.files, app.tiffPages).Some? &&
        app.fileList == old(app.fileList) &&
        refs == AddAll(refs0, FileRefs(s, app.fileList.files, app.tiffPages).value))
      ensures st.Exit? ==> if refOnly then FileRefs(s, old(app.fileList.files), app.tiffPages).None?
                           else FileEntries(s, app.tiffPages).Abort?
    {
      if refOnly {
        st, refs := AddRefs(refs0, s);
      } else {
        st := AddFiles(s);
        refs := refs0;
      }
    }

    /** The pages of a file join the file list. */
    method AddFiles(s: FileSpec) returns (st: Status)
      requires app.Valid() && s.name.Some?
      modifies app
      ensures app.Valid() && Rest(app) == old(Rest(app))
      ensures st != Failure
      ensures st.Exit? <==> FileEntries(s, app.tiffPages).Abort?
      ensures st.Exit? ==> app.fileList == old(app.fileList)
      ensures st.Success? ==> (Extends(old(app.fileList.files), app.fileList.files) &&
        app.fileList == AddAll(old(app.fileList), FileEntries(s, app.tiffPages).value))
    {
      var name := Text(s.name.value);
      var r: Outcome<FileList<InputFile>>;
      if s.multipage {
        r := AddFilenameWithFilter(app.fileList, name, s.start, s.end, s.options, app.tiffPages);
      } else {
        var fl := AddFilename(app.fileList, name, s.options, app.tiffPages);
        r := Done(fl);
      }
      if r.Abort? {
        return Exit;
      }
      ExtendsBy(app.fileList.files, FileEntries(s, app.tiffPages).value);
      app.fileList := r.value;
      st := Success;
    }

    /** The pages of a file, found in the file list, join refs. */
    method AddRefs(refs0: FileList<nat>, s: FileSpec) returns (st: Status, refs: FileList<nat>)
      requires refs0.Valid() && s.name.Some?
      ensures refs.Valid()
      ensures st != Failure
      ensures st.Exit? <==> FileRefs(s, app.fileList.files, app.tiffPages).None?
      ensures st.Success? ==> (refs == AddAll(refs0, FileRefs(s, app.fileList.files, app.tiffPages).value) &&
        |refs0.files| <= |refs.files| && refs.files[..|refs0.files|] == refs0.files &&
        forall k :: |refs0.files| <= k < |refs.files| ==> refs.files[k] < |app.fileList.files|)
    {
      refs := refs0;
      var name := Text(s.name.value);
      var r: Outcome<FileList<nat>>;
      if s.multipage {
        r := AddRefWithFilter(refs, app.fileList.files, name, s.start, s.end, app.tiffPages);
      } else {
        r := AddRef(refs, app.fileList.files, name, app.tiffPages);
      }
      if r.Abort? {
        return Exit, refs;
      }
      assert r.value.files[..|refs0.files|] == refs0.files;
      refs := r.value;
      st := Success;
    }

    /**
     * readInputFiles: file names and `(file` lists, added to the file
     * list, or, in a `(files` list of a dictionary, referenced from refs;
     * false when the list adds nothing.
     */
    method ReadInputFiles(refOnly: bool, refs0: FileList<nat>) returns (st: Status, refs: FileList<nat>)
      requires bs.Valid() && app.Valid() && refs0.Valid()
      modifies bs, bs.buffer, app
      ensures bs.Valid() && app.Valid() && refs.Valid()
      ensures |bs.Pending()| <= |old(bs.Pending())|
      ensures Rest(app) == old(Rest(app))
      ensures Grown(refOnly, old(app.fileList), app.fileList, refs0, refs)
      ensures st.Success? && refOnly ==> |refs.files| > |refs0.files|
      ensures st.Success? && !refOnly ==> |app.fileList.files| > |old(app.fileList.files)|
    {
      refs, st := refs0, Success;
      var oldCount := if refOnly then |refs0.files| else |app.fileList.files|;
      while true
        invariant st == Success
        invariant bs.Valid() && app.Valid() && refs.Valid()
        invariant |bs.Pending()| <= |old(bs.Pending())|
        invariant Rest(app) == old(Rest(app))
        invariant Grown(refOnly, old(app.fileList), app.fileList, refs0, refs)
        decreases |bs.Pending()|
      {
        ghost var f1, r1 := app.fileList, refs;
        var more, s, r := ReadInputItem(refOnly, refs);
        if !s.Success? {
          st := s;
          break;
        }
        GrownTrans(refOnly, old(app.fileList), f1, app.fileList, refs0, r1, r);
        refs := r;
        if !more {
          break;
        }
      }
      if st.Success? {
        var count := if refOnly then |refs.files| else |app.fileList.files|;
        if count - oldCount == 0 {
          st := Failure;
        }
      }
    }

    /**
     * One item of an `(input-files` list: a `(file` list or a file name;
     * more is false at the `)` that ends the list.
     */
    method ReadInputItem(refOnly: bool, refs0: FileList<nat>) returns (more: bool, st: Status, refs: FileList<nat>)
      requires bs.Valid() && app.Valid() && refs0.Valid()
      modifies bs, bs.buffer, app
      ensures bs.Valid() && app.Valid() && refs.Valid()
      ensures |bs.Pending()| <= |old(bs.Pending())| && (more ==> |bs.Pending()| < |old(bs.Pending())|)
      ensures Rest(app) == old(Rest(app))
      ensures st.Success? ==> Grown(refOnly, old(app.fileList), app.fileList, refs0, refs)
      ensures !st.Success? ==> app.fileList == old(app.fileList)
      ensures !more ==> st.Success? && refs == refs0 && app.fileList == old(app.fileList)
    {
      var tok, orig := NextKey(false);
      if tok == [] || tok[0] == RPAREN {
        return false, Success, refs0;
      }
      more := true;
      if tok[0] == LPAREN {
        var nested := NestedKey(tok);
        if Text(nested) != "file" {
          return more, Failure, refs0;
        }
        ghost var spec, read;
        st, refs, spec, read := ReadFile(refOnly, refs0);
      } else {
        st, refs := AddSpec(refOnly, refs0, FileSpec(Some(tok), false, 0, 0, None));
      }
    }

    /**
     * readDjbzOptions: the settings of a dictionary (averaging, aggression
     * in [0, 1000], classifier in [1, 3], no-prototypes, erosion, the id
     * and the suffix) and, in a `(files` list, the files it holds. The
     * defaults take no id and no nested list; any other dictionary needs
     * an id and a file. On success every file of the dictionary is put
     * into it: slot is the place the dictionary takes in the list (the
     * defaults hold no files, so it makes no difference there).
     */
    method ReadDjbzOptions(d0: DjbzOptions, isDefaults: bool, slot: nat) returns (st: Status, d: DjbzOptions)
      requires bs.Valid() && app.Valid() && d0.fileListRef.Valid() && RefsWithin(d0, |app.fileList.files|)
      modifies bs, bs.buffer, app
      ensures bs.Valid() && app.Valid() && d.fileListRef.Valid()
      ensures |bs.Pending()| <= |old(bs.Pending())|
      ensures Rest(app) == old(Rest(app))
      ensures DjbzUpdate(d0, d) && RefsWithin(d, |app.fileList.files|)
      ensures |d0.fileListRef.files| <= |d.fileListRef.files|
      ensures d.fileListRef.files[..|d0.fileListRef.files|] == d0.fileListRef.files
      ensures isDefaults ==> st != Exit && d.id == d0.id && d.fileListRef == d0.fileListRef
      ensures st.Success? && !isDefaults ==> d.id.Some? && d.fileListRef.files != []
      ensures !st.Success? ==> app.fileList == old(app.fileList)
      ensures st.Success? ==>
        app.fileList == FileList(Attach(old(app.fileList.files), d.fileListRef.files, slot), old(app.fileList.dataSize))
    {
      st, d := ReadDjbzKeys(d0, isDefaults);
      assert DjbzGrown(d0, d, isDefaults, |app.fileList.files|);
      if !st.Success? {
        return st, d;
      }
      if !isDefaults {
        if d.id.None? {
          return Failure, d;
        }
        if |d.fileListRef.files| == 0 {
          return Failure, d;
        }
      }
      AttachAll(d.fileListRef.files, slot);
    }

    /** The keys and the `(files` lists of a dictionary list, up to its `)`. */
    method ReadDjbzKeys(d0: DjbzOptions, isDefaults: bool) returns (st: Status, d: DjbzOptions)
      requires bs.Valid() && app.Valid() && d0.fileListRef.Valid() && RefsWithin(d0, |app.fileList.files|)
      modifies bs, bs.buffer, app
      ensures bs.Valid() && app.Valid()
      ensures |bs.Pending()| <= |old(bs.Pending())|
      ensures Rest(app) == old(Rest(app)) && app.fileList == old(app.fileList)
      ensures DjbzGrown(d0, d, isDefaults, |app.fileList.files|)
      ensures isDefaults ==> st != Exit
    {
      d, st := d0, Success;
      while true
        invariant st == Success
        invariant bs.Valid() && app.Valid()
        invariant |bs.Pending()| <= |old(bs.Pending())|
        invariant Rest(app) == old(Rest(app)) && app.fileList == old(app.fileList)
        invariant DjbzGrown(d0, d, isDefaults, |app.fileList.files|)
        decreases |bs.Pending()|
      {
        var d1 := d;
        var more;
        more, st, d := ReadDjbzItem(d, isDefaults);
        DjbzGrownTrans(d0, d1, d, isDefaults, |app.fileList.files|);
        if !more || !st.Success? {
          break;
        }
      }
    }

    /**
     * One item of a dictionary list: a `(files` list or a key with its
     * value; more is false at the `)` that ends the list.
     */
    method ReadDjbzItem(d0: DjbzOptions, isDefaults: bool) returns (more: bool, st: Status, d: DjbzOptions)
      requires bs.Valid() && app.Valid()
      requires DjbzGrown(d0, d0, isDefaults, |app.fileList.files|)
      modifies bs, bs.buffer, app
      ensures bs.Valid() && app.Valid()
      ensures |bs.Pending()| <= |old(bs.Pending())| && (more ==> |bs.Pending()| < |old(bs.Pending())|)
      ensures Rest(app) == old(Rest(app)) && app.fileList == old(app.fileList)
      ensures DjbzGrown(d0, d, isDefaults, |app.fileList.files|)
      ensures isDefaults ==> st != Exit
      ensures !more ==> st.Success?
    {
      d := d0;
      var tok, orig := NextKey(true);
      if tok == [] || tok[0] == RPAREN {
        return false, Success, d;
      }
      more := true;
      if tok[0] != LPAREN {
        var ok;
        d, ok := SetDjbzOption(d0, Text(tok), isDefaults);
        st := if ok then Success else Failure;
        return;
      }
      if isDefaults {
        return more, Failure, d;
      }
      var nested := NestedKey(tok);
      if Text(nested) != "files" {
        return more, Failure, d;
      }
      var r;
      st, r := ReadInputFiles(true, d0.fileListRef);
      RefsGrown(d0, r, |app.fileList.files|);
      d := d0.(fileListRef := r);
    }

    /** Puts every file refs names into the dictionary at slot. */
    method AttachAll(refs: seq<nat>, slot: nat)
      requires app.Valid() && forall k :: 0 <= k < |refs| ==> refs[k] < |app.fileList.files|
      modifies app
      ensures app.Valid() && Rest(app) == old(Rest(app))
      ensures app.fileList == FileList(Attach(old(app.fileList.files), refs, slot), old(app.fileList.dataSize))
    {
      ghost var f0 := app.fileList.files;
      var i := 0;
      while i < |refs|
        invariant 0 <= i <= |refs|
        invariant app.fileList == FileList(Attach(f0, refs[..i], slot), old(app.fileList.dataSize))
        invariant Rest(app) == old(Rest(app))
      {
        var x := refs[i];
        AttachNext(f0, refs, i, slot);
        app.fileList := app.fileList.(files := app.fileList.files[x := app.fileList.files[x].(djbz := Some(slot))]);
        i := i + 1;
      }
      assert refs[..i] == refs;
    }

    /** One key of a dictionary list with its value; false when the value is wrong or the key not allowed. */
    method SetDjbzOption(d0: DjbzOptions, key: string, isDefaults: bool) returns (d: DjbzOptions, ok: bool)
      requires bs.Valid()
      modifies bs, bs.buffer
      ensures bs.Valid()
      ensures |bs.Pending()| <= |old(bs.Pending())|
      ensures DjbzUpdate(d0, d) && d.fileListRef == d0.fileListRef
      ensures isDefaults ==> d.id == d0.id
      ensures isDefaults && key == "id" ==> !ok
      ensures !ok ==> d == d0
      ensures 0xEF !in old(bs.Pending()) ==> var t := ValueToken(old(bs.Pending()));
        (ok <==> DjbzAccepts(key, t, isDefaults)) && (ok ==> d == DjbzApply(key, t, d0))
    {
      if key == "id" || key == "xtension" {
        d, ok := SetDjbzText(d0, key, isDefaults);
      } else {
        d, ok := SetDjbzInt(d0, key);
      }
    }

    /** id and xtension, the text keys of a dictionary list; id is refused in the defaults. */
    method SetDjbzText(d0: DjbzOptions, key: string, isDefaults: bool) returns (d: DjbzOptions, ok: bool)
      requires bs.Valid() && (key == "id" || key == "xtension")
      modifies bs, bs.buffer
      ensures bs.Valid()
      ensures |bs.Pending()| <= |old(bs.Pending())|
      ensures DjbzUpdate(d0, d) && d.fileListRef == d0.fileListRef
      ensures isDefaults ==> d.id == d0.id
      ensures isDefaults && key == "id" ==> !ok
      ensures !ok ==> d == d0
      ensures 0xEF !in old(bs.Pending()) ==> var t := ValueToken(old(bs.Pending()));
        (ok <==> DjbzAccepts(key, t, isDefaults)) && (ok ==> d == DjbzApply(key, t, d0))
    {
      if key == "id" && isDefaults {
        return d0, false;
      }
      var r, v := ReadValStr();
      if !r {
        return d0, false;
      }
      ok := true;
      d := if key == "id" then d0.(id := Some(Text(v))) else d0.(dictSuffix := Text(v));
    }

    /** The integer keys of a dictionary list; any other key reads no value. */
    method SetDjbzInt(d0: DjbzOptions, key: string) returns (d: DjbzOptions, ok: bool)
      requires bs.Valid() && key != "id" && key != "xtension"
      modifies bs, bs.buffer
      ensures bs.Valid()
      ensures |bs.Pending()| <= |old(bs.Pending())|
      ensures DjbzUpdate(d0, d) && d.fileListRef == d0.fileListRef && d.id == d0.id
      ensures !ok ==> d == d0
      ensures 0xEF !in old(bs.Pending()) ==> var t := ValueToken(old(bs.Pending()));
        (ok <==> DjbzAccepts(key, t, false)) && (ok ==> d == DjbzApply(key, t, d0))
    {
      d, ok := d0, true;
      if key == "averaging" {
        var r, v := ReadValInt(0, 1);
        if !r {
          return d, false;
        }
        d := d.(averaging := v);
      } else if key == "aggression" {
        var r, v := ReadValInt(0, 1000);
        if !r {
          return d, false;
        }
        d := d.(aggression := v);
      } else if key == "classifier" {
        var r, v := ReadValInt(1, 3);
        if !r {
          return d, false;
        }
        d := d.(classifier := v);
      } else if key == "no-prototypes" {
        var r, v := ReadValInt(0, 1);
        if !r {
          return d, false;
        }
        d := d.(noPrototypes := v);
      } else if key == "erosion" {
        var r, v := ReadValInt(0, 1);
        if !r {
          return d, false;
        }
        d := d.(erosion := v);
      }
    }

    /**
     * One key of `(options` with its value. An unknown key is skipped,
     * its value left to be read as the next key.
     */
    method SetAppOption(key: string) returns (ok: bool)
      requires bs.Valid() && app.Valid()
      modifies bs, bs.buffer, app
      ensures bs.Valid() && app.Valid()
      ensures |bs.Pending()| <= |old(bs.Pending())|
      ensures SettingsUpdate(old(SettingsOf(app)), SettingsOf(app))
      ensures app.fileList == old(app.fileList) && app.djbzList == old(app.djbzList)
      ensures app.outputFile == old(app.outputFile)
      ensures !AppKey(key, openmp) ==> ok && SettingsOf(app) == old(SettingsOf(app)) && bs.Pending() == old(bs.Pending())
      ensures !ok ==> SettingsOf(app) == old(SettingsOf(app))
      ensures 0xEF !in old(bs.Pending()) ==> var t := ValueToken(old(bs.Pending()));
        (ok <==> SettingAccepts(key, t, openmp)) && (ok ==> SettingsOf(app) == SettingApply(key, t, old(SettingsOf(app)), openmp))
    {
      if key == "xtension" {
        var r, v := ReadValStr();
        if !r {
          return false;
        }
        app.SetDjbzSuffix(Text(v));
        return true;
      }
      var s := Settings(app.pagesPerDict, app.verbose, app.matching, app.matchingAll, app.report, app.warnings,
                        app.indirect, app.maxThreads, app.defaultImage, app.defaultDjbz);
      ok, s := ReadSetting(key, s);
      Store(s);
    }

    /** Writes the settings back. */
    method Store(s: Settings)
      modifies app
      ensures SettingsOf(app) == s
      ensures app.fileList == old(app.fileList) && app.djbzList == old(app.djbzList)
      ensures app.outputFile == old(app.outputFile)
    {
      app.pagesPerDict, app.verbose, app.matching, app.matchingAll := s.pagesPerDict, s.verbose, s.matching, s.matchingAll;
      app.report, app.warnings, app.indirect, app.maxThreads := s.report, s.warnings, s.indirect, s.maxThreads;
      app.defaultImage, app.defaultDjbz := s.defaultImage, s.defaultDjbz;
    }

    /**
     * The integer keys of `(options`, on a copy of the settings. lossy
     * sets match, the default dictionary's erosion and averaging and the
     * default image's smooth and clean to one value, 0 or 1 (2 reads as 1
     * and also sets Match); match 2 sets match and Match.
     */
    method ReadSetting(key: string, s0: Settings) returns (ok: bool, s: Settings)
      requires bs.Valid() && key != "xtension"
      modifies bs, bs.buffer
      ensures bs.Valid()
      ensures |bs.Pending()| <= |old(bs.Pending())|
      ensures SettingsUpdate(s0, s)
      ensures !AppKey(key, openmp) ==> ok && s == s0 && bs.Pending() == old(bs.Pending())
      ensures key == "lossy" && ok ==> (var m := s.matching;
        s.defaultDjbz.erosion == m && s.defaultDjbz.averaging == m &&
        s.defaultImage.smooth == m && s.defaultImage.clean == m &&
        (s.matchingAll != s0.matchingAll ==> m == 1))
      ensures key == "match" && ok && s.matchingAll != s0.matchingAll ==> s.matching == 1
      ensures key != "lossy" ==> s.defaultImage == s0.defaultImage && s.defaultDjbz == s0.defaultDjbz
      ensures !ok ==> s == s0
      ensures 0xEF !in old(bs.Pending()) ==> var t := ValueToken(old(bs.Pending()));
        (ok <==> SettingAccepts(key, t, openmp)) && (ok ==> s == SettingApply(key, t, s0, openmp))
    {
      if key == "lossy" || key == "match" {
        ok, s := ReadMatchSetting(key, s0);
      } else {
        ok, s := ReadPlainSetting(key, s0);
      }
    }

    /** lossy and match, the keys of `(options` that set more than one field. */
    method ReadMatchSetting(key: string, s0: Settings) returns (ok: bool, s: Settings)
      requires bs.Valid() && (key == "lossy" || key == "match")
      modifies bs, bs.buffer
      ensures bs.Valid()
      ensures |bs.Pending()| <= |old(bs.Pending())|
      ensures SettingsUpdate(s0, s)
      ensures key == "lossy" && ok ==> (var m := s.matching;
        s.defaultDjbz.erosion == m && s.defaultDjbz.averaging == m &&
        s.defaultImage.smooth == m && s.defaultImage.clean == m &&
        (s.matchingAll != s0.matchingAll ==> m == 1))
      ensures key == "match" && ok && s.matchingAll != s0.matchingAll ==> s.matching == 1
      ensures key != "lossy" ==> s.defaultImage == s0.defaultImage && s.defaultDjbz == s0.defaultDjbz
      ensures !ok ==> s == s0
      ensures 0xEF !in old(bs.Pending()) ==> var t := ValueToken(old(bs.Pending()));
        (ok <==> SettingAccepts(key, t, openmp)) && (ok ==> s == SettingApply(key, t, s0, openmp))
    {
      var r, v := ReadValInt(0, 2);
      if !r {
        return false, s0;
      }
      ok, s := true, s0;
      if key == "lossy" {
        if v == 2 {
          s := s.(matchingAll := 1);
          v := 1;
        }
        s := s.(matching := v, defaultDjbz := s.defaultDjbz.(erosion := v, averaging := v),
                defaultImage := s.defaultImage.(smooth := v, clean := v));
      } else {
        s := if v == 2 then s.(matching := 1, matchingAll := 1) else s.(matching := v);
      }
    }

    /** The keys of `(options` that set one integer field each. */
    method ReadPlainSetting(key: string, s0: Settings) returns (ok: bool, s: Settings)
      requires bs.Valid() && key != "xtension" && key != "lossy" && key != "match"
      modifies bs, bs.buffer
      ensures bs.Valid()
      ensures |bs.Pending()| <= |old(bs.Pending())|
      ensures SettingsUpdate(s0, s)
      ensures s.defaultImage == s0.defaultImage && s.defaultDjbz == s0.defaultDjbz
      ensures !AppKey(key, openmp) ==> ok && s == s0 && bs.Pending() == old(bs.Pending())
      ensures !ok ==> s == s0
      ensures 0xEF !in old(bs.Pending()) ==> var t := ValueToken(old(bs.Pending()));
        (ok <==> SettingAccepts(key, t, openmp)) && (ok ==> s == SettingApply(key, t, s0, openmp))
    {
      if key == "indirect" || key == "report" || key == "verbose" || key == "warnings" {
        ok, s := ReadFlagSetting(key, s0);
        return;
      }
      ok, s := true, s0;
      if key == "pages-per-dict" {
        var r, v := ReadValInt(0, 1000000);
        if !r {
          return false, s;
        }
        s := s.(pagesPerDict := v);
      } else if openmp && key == "threads-max" {
        var r, v := ReadValInt(1, 1000000);
        if !r {
          return false, s;
        }
        s := s.(maxThreads := v);
      }
    }

    /** indirect, report, verbose and warnings: one field each, in [0, 1]. */
    method ReadFlagSetting(key: string, s0: Settings) returns (ok: bool, s: Settings)
      requires bs.Valid() && (key == "indirect" || key == "report" || key == "verbose" || key == "warnings")
      modifies bs, bs.buffer
      ensures bs.Valid()
      ensures |bs.Pending()| <= |old(bs.Pending())|
      ensures SettingsUpdate(s0, s)
      ensures s.defaultImage == s0.defaultImage && s.defaultDjbz == s0.defaultDjbz
      ensures !ok ==> s == s0
      ensures 0xEF !in old(bs.Pending()) ==> var t := ValueToken(old(bs.Pending()));
        (ok <==> SettingAccepts(key, t, openmp)) && (ok ==> s == SettingApply(key, t, s0, openmp))
    {
      var r, v := ReadValInt(0, 1);
      if !r {
        return false, s0;
      }
      ok := true;
      s := if key == "indirect" then s0.(indirect := v)
           else if key == "report" then s0.(report := v)
           else if key == "verbose" then s0.(verbose := v)
           else s0.(warnings := v);
    }

    /**
     * readAppOptions: the keys of `(options` and its nested
     * `(default-djbz` and `(default-image` lists, up to its `)`.
     */
    method ReadAppOptions() returns (ok: bool)
      requires bs.Valid() && app.Valid() && Linked(app)
      modifies bs, bs.buffer, app
      ensures bs.Valid() && app.Valid() && Linked(app)
      ensures |bs.Pending()| <= |old(bs.Pending())|
      ensures SettingsUpdate(old(SettingsOf(app)), SettingsOf(app))
      ensures app.fileList == old(app.fileList) && app.djbzList == old(app.djbzList)
      ensures app.outputFile == old(app.outputFile)
    {
      ok := true;
      while true
        invariant bs.Valid() && app.Valid()
        invariant |bs.Pending()| <= |old(bs.Pending())|
        invariant SettingsUpdate(old(SettingsOf(app)), SettingsOf(app))
        invariant app.fileList == old(app.fileList) && app.djbzList == old(app.djbzList)
        invariant app.outputFile == old(app.outputFile)
        decreases |bs.Pending()|
      {
        ghost var s1 := SettingsOf(app);
        var tok, orig := NextKey(true);
        if tok == [] || tok[0] == RPAREN {
          break;
        }
        ok := ReadAppItem(tok);
        SettingsUpdateTrans(old(SettingsOf(app)), s1, SettingsOf(app));
        if !ok {
          break;
        }
      }
    }

    /**
     * One item of `(options`: a nested list or a key with its value. The
     * default lists are read in place: a key stored before a failing key
     * of `(default-djbz` or `(default-image` stays in effect.
     */
    method ReadAppItem(tok: seq<byte>) returns (ok: bool)
      requires bs.Valid() && app.Valid() && Linked(app) && tok != []
      modifies bs, bs.buffer, app
      ensures bs.Valid() && app.Valid()
      ensures |bs.Pending()| <= |old(bs.Pending())|
      ensures SettingsUpdate(old(SettingsOf(app)), SettingsOf(app))
      ensures app.fileList == old(app.fileList) && app.djbzList == old(app.djbzList)
      ensures app.outputFile == old(app.outputFile)
      ensures tok[0] == LPAREN ==>
        SettingsOf(app) == old(SettingsOf(app)).(defaultDjbz := app.defaultDjbz, defaultImage := app.defaultImage)
    {
      if tok[0] != LPAREN {
        ok := SetAppOption(Text(tok));
        return;
      }
      var nested := NestedKey(tok);
      var key := Text(nested);
      if key == "default-djbz" {
        var st, d := ReadDjbzOptions(app.defaultDjbz, true, 0);
        ok := st.Success?;
        app.defaultDjbz := d;
      } else if key == "default-image" {
        var o;
        ok, o := ReadImageOptions(app.defaultImage);
        app.defaultImage := o;
      } else {
        ok := false;
      }
    }

    /**
     * readAllOptions: the lists of a settings file: `(options`, then
     * `(input-files` lists, then `(djbz` lists, each new dictionary added
     * at the end of the dictionary list with its files put into it. The
     * file must start with `(`; the byte between two lists is read and
     * not looked at. sections are the lists read, in turn.
     */
    method ReadAllOptions() returns (st: Status, ghost sections: seq<Section>)
      requires bs.Valid() && app.Valid() && Linked(app)
      modifies bs, bs.buffer, app
      ensures bs.Valid() && Progressed(old(SettingsOf(app)), old(app.djbzList), old(app.outputFile), app)
      ensures SpacesS(old(bs.Pending()), true).c != LPAREN as int ==> st == Failure && sections == []
      ensures InOrder(sections)
      ensures st.Success? ==> bs.Pending() == [] && sections != []
    {
      sections := [];
      var c := bs.GetSpaces(true);
      if c == EOF || c != LPAREN as int {
        return Failure, sections;
      }
      var optionsFound, inputFilesFound := false, false;
      st := Success;
      while c != EOF
        invariant st == Success
        invariant bs.Valid() && Progressed(old(SettingsOf(app)), old(app.djbzList), old(app.outputFile), app)
        invariant c == EOF ==> bs.Pending() == []
        invariant InOrder(sections) && (c == EOF ==> sections != [])
        invariant optionsFound <==> OptionsSection in sections
        invariant inputFilesFound <==> InputFilesSection in sections
        decreases |bs.Pending()| + (if c == EOF then 0 else 1)
      {
        var tok := bs.GetToken(false, false);
        ghost var s1, l1 := SettingsOf(app), app.djbzList;
        var sec;
        st, sec := ReadSection(Text(tok), optionsFound, inputFilesFound);
        ProgressedTrans(old(SettingsOf(app)), old(app.djbzList), s1, l1, old(app.outputFile), app);
        if sec.None? {
          break;
        }
        InOrderSnoc(sections, sec.value);
        sections := sections + [sec.value];
        optionsFound := optionsFound || sec.value == OptionsSection;
        inputFilesFound := inputFilesFound || sec.value == InputFilesSection;
        if !st.Success? {
          break;
        }
        c := bs.GetSpaces(true);
      }
    }

    /**
     * One top-level list, after its name: which kind of list it was, or
     * None when the name is unknown or the list is out of order.
     */
    method ReadSection(key: string, optionsFound: bool, inputFilesFound: bool) returns (st: Status, sec: Option<Section>)
      requires bs.Valid() && app.Valid() && Linked(app)
      modifies bs, bs.buffer, app
      ensures bs.Valid() && Progressed(old(SettingsOf(app)), old(app.djbzList), old(app.outputFile), app)
      ensures |bs.Pending()| <= |old(bs.Pending())|
      ensures sec.None? ==> st == Failure
      ensures sec == Some(OptionsSection) ==> key == "options" && !inputFilesFound
      ensures sec == Some(InputFilesSection) ==> key == "input-files"
      ensures sec == Some(DjbzSection) ==> key == "djbz" && optionsFound && inputFilesFound
    {
      if key == "options" {
        if inputFilesFound {
          return Failure, None;
        }
        var ok := ReadAppOptions();
        st := if ok then Success else Failure;
        sec := Some(OptionsSection);
      } else if key == "input-files" {
        st := ReadTopInputFiles();
        sec := Some(InputFilesSection);
      } else if key == "djbz" {
        if !optionsFound || !inputFilesFound {
          return Failure, None;
        }
        st := ReadTopDjbz();
        sec := Some(DjbzSection);
      } else {
        return Failure, None;
      }
    }

    /** An `(input-files` list at the top level: its files join the file list. */
    method ReadTopInputFiles() returns (st: Status)
      requires bs.Valid() && app.Valid() && Linked(app)
      modifies bs, bs.buffer, app
      ensures bs.Valid() && app.Valid() && Linked(app)
      ensures |bs.Pending()| <= |old(bs.Pending())|
      ensures Rest(app) == old(Rest(app))
      ensures Extends(old(app.fileList.files), app.fileList.files)
    {
      var refs;
      st, refs := ReadInputFiles(false, FileList([], 0));
      LinkedExtends(app.djbzList, old(app.fileList.files), app.fileList.files);
    }

    /**
     * A `(djbz` list at the top level: a dictionary made from the default
     * dictionary settings, read, and on success added at the end of the
     * dictionary list, its files put into it.
     */
    method ReadTopDjbz() returns (st: Status)
      requires bs.Valid() && app.Valid() && Linked(app)
      modifies bs, bs.buffer, app
      ensures bs.Valid() && app.Valid() && Linked(app)
      ensures |bs.Pending()| <= |old(bs.Pending())|
      ensures SettingsOf(app) == old(SettingsOf(app)) && app.outputFile == old(app.outputFile)
      ensures !st.Success? ==> app.djbzList == old(app.djbzList) && app.fileList == old(app.fileList)
      ensures st.Success? ==> |app.djbzList| == |old(app.djbzList)| + 1
      ensures ListGrown(old(app.djbzList), app.djbzList)
    {
      var d0 := DjbzSettingCreate(Some(app.defaultDjbz));
      var d;
      st, d := ReadDjbzOptions(d0, false, |app.djbzList|);
      if !st.Success? {
        return st;
      }
      LinkedAttach(app.djbzList, old(app.fileList.files), d);
      app.djbzList := DjbzListAddOption(app.djbzList, d);
      assert app.djbzList[..|old(app.djbzList)|] == old(app.djbzList);
    }
  }
}
