/**
 * The public entry points of src/alg/classify.c: the single-page and the
 * multipage classifier drivers (pattern list, optional cache, classify,
 * tags) and the dictionary flags computed from the multipage tags.
 *
 * A pattern array is modelled by its presence mask: present[p] says that
 * slot p holds a pattern (the C array holds NULL where it does not).  The
 * comparison of two patterns is the parameter cmp, over positions.
 */
module ClassifyDriver {
  import opened ClassifyCache
  import opened ClassifySpec
  import opened ClassifyCompare
  import opened Classify

  /** No two entries of the list stand for the same position. */
  predicate DistinctPos(list: seq<Entry>)
  {
    forall k, l :: 0 <= k < l < |list| ==> list[k].pos != list[l].pos
  }

  /** The patterns at positions p and q (of dpis dp and dq) compared MATCH in some order. */
  predicate Matched(cmp: Comparator, p: nat, q: nat, dp: int, dq: int)
  {
    cmp(p, q, dp) == 1 || cmp(p, q, dq) == 1 || cmp(q, p, dp) == 1 || cmp(q, p, dq) == 1
  }

  /** The slots of all pages, page after page (the global position order). */
  function Flat<T>(ss: seq<seq<T>>): (r: seq<T>)
  {
    if ss == [] then [] else Flat(ss[..|ss| - 1]) + ss[|ss| - 1]
  }

  lemma {:induction false} FlatPrefix<T>(ss: seq<seq<T>>, k: nat)
    requires k <= |ss|
    ensures Flat(ss[..k]) <= Flat(ss)
    decreases |ss| - k
  {
    if k < |ss| {
      var init := ss[..|ss| - 1];
      assert init[..k] == ss[..k];
      FlatPrefix(init, k);
    } else {
      assert ss[..k] == ss;
    }
  }

  /** Slot i of page k sits at global position |Flat(ss[..k])| + i, and page k ends |ss[k]| later. */
  lemma {:induction false} FlatAt<T>(ss: seq<seq<T>>, k: nat, i: nat)
    requires k < |ss| && i < |ss[k]|
    ensures |Flat(ss[..k])| + i < |Flat(ss)| && Flat(ss)[|Flat(ss[..k])| + i] == ss[k][i]
  {
    FlatPrefix(ss, k + 1);
    assert ss[..k + 1][..k] == ss[..k];
  }

  lemma {:induction false} FlatStep<T>(ss: seq<seq<T>>, k: nat)
    requires k < |ss|
    ensures |Flat(ss[..k + 1])| == |Flat(ss[..k])| + |ss[k]|
  {
    assert ss[..k + 1][..k] == ss[..k];
  }

  /** Flattening pages of equal sizes gives sequences of equal length. */
  lemma {:induction false} FlatLengths<T, U>(ss: seq<seq<T>>, tt: seq<seq<U>>)
    requires |ss| == |tt| && forall k :: 0 <= k < |ss| ==> |ss[k]| == |tt[k]|
    ensures |Flat(ss)| == |Flat(tt)|
  {
    if ss != [] {
      FlatLengths(ss[..|ss| - 1], tt[..|tt| - 1]);
    }
  }

  /** The dpi of every slot: that of its page. */
  function PageDpis(pages: seq<seq<bool>>, dpi: seq<int>): seq<seq<int>>
    requires |dpi| == |pages|
  {
    seq(|pages|, k requires 0 <= k < |pages| => seq(|pages[k]|, _ => dpi[k]))
  }

  /** The dpis of all slots, in global position order. */
  function SlotDpis(pages: seq<seq<bool>>, dpi: seq<int>): (r: seq<int>)
    requires |dpi| == |pages|
    ensures |r| == |Flat(pages)|
  {
    FlatLengths(pages, PageDpis(pages, dpi));
    Flat(PageDpis(pages, dpi))
  }

  /** The page number of every slot, for pages of npatterns[k] slots. */
  function PageIndex(npatterns: seq<nat>): seq<seq<nat>>
  {
    seq(|npatterns|, k requires 0 <= k < |npatterns| => seq(npatterns[k], _ => k))
  }

  /**
   * The PatternList a driver builds from the first n slots: one entry per
   * present pattern, in slot order, with its position, its dpi and (as the
   * multipage driver assigns it) its rank among the present patterns as id.
   */
  function PatternList(present: seq<bool>, dpis: seq<int>, n: nat): (r: seq<Entry>)
    requires n <= |present| == |dpis|
    ensures |r| <= n
    ensures forall k :: 0 <= k < |r| ==> r[k].id == k && r[k].pos < n && present[r[k].pos] && r[k].dpi == dpis[r[k].pos]
    ensures forall k, l :: 0 <= k < l < |r| ==> r[k].pos < r[l].pos
  {
    if n == 0 then []
    else
      var l := PatternList(present, dpis, n - 1);
      if present[n - 1] then l + [Entry(n - 1, |l|, dpis[n - 1])] else l
  }

  /** Every present pattern among the first n slots is on the list. */
  lemma {:induction false} PatternListCovers(present: seq<bool>, dpis: seq<int>, n: nat, p: nat) returns (k: nat)
    requires n <= |present| == |dpis| && p < n && present[p]
    ensures k < |PatternList(present, dpis, n)| && PatternList(present, dpis, n)[k].pos == p
  {
    var l := PatternList(present, dpis, n - 1);
    if p == n - 1 {
      k := |l|;
    } else {
      k := PatternListCovers(present, dpis, n - 1, p);
      assert PatternList(present, dpis, n)[k] == l[k];
    }
  }

  /** The PatternList of mdjvu_classify_patterns as written: every id is left 0. */
  function PatternListAsWritten(present: seq<bool>, dpi: int, n: nat): (r: seq<Entry>)
    requires n <= |present|
    ensures forall k :: 0 <= k < |r| ==> r[k].id == 0 && r[k].dpi == dpi && r[k].pos < n && present[r[k].pos]
  {
    if n == 0 then []
    else
      var l := PatternListAsWritten(present, dpi, n - 1);
      if present[n - 1] then l + [Entry(n - 1, 0, dpi)] else l
  }

  /** With two patterns present the list as written repeats an id, so the cache cannot tell them apart. */
  lemma {:induction false} PatternListAsWrittenNotUnique(present: seq<bool>, dpi: int)
    requires |present| == 2 && present[0] && present[1]
    ensures !UniqueIds(PatternListAsWritten(present, dpi, 2))
  {
    assert PatternListAsWritten(present, dpi, 0) == [];
    assert PatternListAsWritten(present, dpi, 1) == [Entry(0, 0, dpi)];
    var l := PatternListAsWritten(present, dpi, 2);
    assert l == [Entry(0, 0, dpi), Entry(1, 0, dpi)];
    assert l[0].id == l[1].id;
  }

  /**
   * With every id 0 all pairs share the slot {0, 0}: after seeding A against
   * B (result 0) and then A against C (result 1), the pair {B, A} reads MATCH
   * although A and B compared 0.
   */
  lemma {:induction false} SinglePageIdsCollide(size: nat)
    requires size >= 3
    ensures Addr(size, 0, 0) < BufferBytes(size)
    ensures var filled := seq(BufferBytes(size), _ => 0xFF as bv8);
            var afterAB := filled[Addr(size, 0, 0) := Store(filled[Addr(size, 0, 0)], 0, 1)];
            var afterAC := afterAB[Addr(size, 0, 0) := Store(afterAB[Addr(size, 0, 0)], 0, 2)];
            SlotValue(size, afterAB, 0, 0) == 0 && SlotValue(size, afterAC, 0, 0) == 1
  {
    AddrInBuffer(size, 0, 0);
    var filled := seq(BufferBytes(size), _ => 0xFF as bv8);
    var at := Addr(size, 0, 0);
    StoreField(filled[at], 0, 1, 0);
    var afterAB := filled[at := Store(filled[at], 0, 1)];
    StoreField(afterAB[at], 0, 2, 0);
  }

  /**
   * The gathering loop of mdjvu_classify_patterns, with ids assigned by
   * rank as in the multipage driver: the PatternList of the page.
   */
  method GatherPage(present: seq<bool>, dpi: int) returns (list: seq<Entry>)
    ensures list == PatternList(present, seq(|present|, _ => dpi), |present|)
  {
    ghost var dpis := seq(|present|, _ => dpi);
    list := [];
    var i := 0;
    while i < |present|
      invariant i <= |present| && list == PatternList(present, dpis, i)
    {
      if present[i] {
        list := list + [Entry(i, |list|, dpi)];
      }
      i := i + 1;
    }
  }

  /**
   * The gathering loop of mdjvu_multipage_classify_patterns: pages in
   * order, the global slot counter as position, the running count of
   * present patterns as id, the page's dpi.
   */
  method GatherPages(pages: seq<seq<bool>>, dpi: seq<int>) returns (list: seq<Entry>)
    requires |dpi| == |pages|
    ensures list == PatternList(Flat(pages), SlotDpis(pages, dpi), |Flat(pages)|)
  {
    ghost var mask, dpis := Flat(pages), SlotDpis(pages, dpi);
    list := [];
    var gathered := 0;
    var page := 0;
    while page < |pages|
      invariant page <= |pages| && gathered == |Flat(pages[..page])| && gathered <= |mask|
      invariant list == PatternList(mask, dpis, gathered)
    {
      var i := 0;
      while i < |pages[page]|
        invariant i <= |pages[page]| && gathered == |Flat(pages[..page])| + i && gathered <= |mask|
        invariant list == PatternList(mask, dpis, gathered)
      {
        FlatAt(pages, page, i);
        FlatAt(PageDpis(pages, dpi), page, i);
        FlatLengths(pages[..page], PageDpis(pages, dpi)[..page]);
        if pages[page][i] {
          list := list + [Entry(gathered, |list|, dpi[page])];
        }
        gathered := gathered + 1;
        i := i + 1;
      }
      FlatStep(pages, page);
      FlatPrefix(pages, page + 1);
      page := page + 1;
    }
    assert pages[..page] == pages;
  }

  /** Every tag lies in 0..maxTag. */
  predicate TagsBelow(rr: seq<int>, maxTag: nat)
  {
    forall p :: 0 <= p < |rr| ==> 0 <= rr[p] <= maxTag
  }

  /** Exactly the positions no list entry stands for read 0. */
  predicate EmptyWhereAbsent(rr: seq<int>, list: seq<Entry>)
  {
    forall p :: 0 <= p < |rr| ==> (rr[p] == 0 <==> forall k :: 0 <= k < |list| ==> list[k].pos != p)
  }

  /** Some other entry of the list sits at a position of the same tag as entry k. */
  ghost predicate TagShared(rr: seq<int>, list: seq<Entry>, k: nat)
    requires k < |list| && forall i :: 0 <= i < |list| ==> list[i].pos < |rr|
  {
    exists l :: 0 <= l < |list| && l != k && rr[list[l].pos] == rr[list[k].pos]
  }

  /** Entry k was read MATCH against some other entry of its tag. */
  ghost predicate TagWitnessed(rr: seq<int>, list: seq<Entry>, cmp: Comparator, k: nat)
    requires k < |list| && forall i :: 0 <= i < |list| ==> list[i].pos < |rr|
  {
    exists j :: 0 <= j < |list| && j != k && rr[list[j].pos] == rr[list[k].pos] && Witnessed(list, list[k], list[j], cmp)
  }

  /** A pattern whose tag another pattern shares was read MATCH against some other pattern of that tag. */
  ghost predicate SharedTagsWitnessed(rr: seq<int>, list: seq<Entry>, cmp: Comparator)
    requires forall k :: 0 <= k < |list| ==> list[k].pos < |rr|
  {
    forall k :: 0 <= k < |list| && TagShared(rr, list, k) ==> TagWitnessed(rr, list, cmp, k)
  }

  /** Some entry of the list sits at a position of tag t. */
  ghost predicate TagUsed(rr: seq<int>, list: seq<Entry>, t: int)
  {
    exists k :: 0 <= k < |list| && list[k].pos < |rr| && rr[list[k].pos] == t
  }

  /**
   * The tail both drivers share: classify the list (with a cache for
   * cacheSize ids from level 2 on, without one at level 1) and write the
   * tags by position into r.  Empty slots read 0, every tag lies in
   * 1..maxTag, every tag in 1..maxTag is some pattern's, and two patterns
   * share a tag only when each of them was read MATCH against some pattern
   * of the same tag.
   */
  method ClassifyList(list: seq<Entry>, cacheSize: nat, level: int, cmp: Comparator, r: array<int>) returns (maxTag: nat)
    requires forall k :: 0 <= k < |list| ==> list[k].id < cacheSize && list[k].pos < r.Length
    requires DistinctPos(list)
    modifies r
    ensures TagsBelow(r[..], maxTag) && EmptyWhereAbsent(r[..], list)
    ensures maxTag <= |list| && (maxTag == 0 <==> list == [])
    ensures forall t :: 1 <= t <= maxTag ==> TagUsed(r[..], list, t)
    ensures SharedTagsWitnessed(r[..], list, cmp)
  {
    var cl := Build(list, cacheSize, level, cmp);
    ghost var ns0, cs := cl.nodes, cl.classes;
    assert forall m :: 0 <= m < |cl.nodes| ==> cl.nodes[m].entry.pos < r.Length;
    maxTag := cl.GetTags(r);
    assert Written(ns0, cl.nodes, cs, r[..], maxTag);
    Outcome(list, ns0, cl.nodes, cs, cmp, r[..], maxTag);
  }

  /** What classify() leaves: a good partition of nodes standing exactly for the list's patterns. */
  ghost predicate Classified(list: seq<Entry>, ns: seq<Node>, cs: seq<ClassRec>, cmp: Comparator)
  {
    Good(ns, cs, list, cmp) && multiset(NodeEntries(ns)) == multiset(list) && (list == [] <==> cs == [])
  }

  /**
   * What get_tags_from_classification leaves: the nodes keep their
   * patterns, class k's nodes carry tag k + 1, rr is 0 where no node stands
   * and holds each node's tag at its position.
   */
  ghost predicate Written(ns0: seq<Node>, ns: seq<Node>, cs: seq<ClassRec>, rr: seq<int>, maxTag: nat)
  {
    |ns| == |ns0| && (forall m :: 0 <= m < |ns| ==> ns[m].entry == ns0[m].entry && 1 <= ns[m].tag <= maxTag) &&
    (forall k, i :: 0 <= k < |cs| && 0 <= i < |cs[k].members| && cs[k].members[i] < |ns| ==> ns[cs[k].members[i]].tag == k + 1) &&
    maxTag == |cs| &&
    (forall p :: 0 <= p < |rr| ==> (rr[p] == 0 <==> forall m :: 0 <= m < |ns| ==> ns[m].entry.pos != p)) &&
    (forall m :: 0 <= m < |ns| ==> ns[m].entry.pos < |rr|) &&
    (DistinctPositions(ns) ==> forall m :: 0 <= m < |ns| ==> rr[ns[m].entry.pos] == ns[m].tag)
  }

  /** A fresh classification of the list, with a fresh cache from level 2 on. */
  method Build(list: seq<Entry>, cacheSize: nat, level: int, cmp: Comparator) returns (cl: Classification)
    requires forall k :: 0 <= k < |list| ==> list[k].id < cacheSize
    ensures fresh(cl) && cl.Valid() && cl.Partitioned()
    ensures Classified(list, cl.nodes, cl.classes, cmp)
    ensures forall m :: 0 <= m < |cl.nodes| ==> cl.nodes[m].entry in list
  {
    var cache: Cache? := null;
    if level != 1 {
      var c := new Cache(cacheSize);
      forall a: nat, b: nat | a < cacheSize && b < cacheSize
        ensures SlotValue(cacheSize, c.buf[..], a, b) != 1
      {
        assert c.Lookup(a, b) == Unknown;
      }
      cache := c;
    }
    cl := new Classification();
    ghost var rounds, quiet := cl.Classify(list, level, cmp, cache);
  }

  /** The facts GetTags leaves about a classified list, read back through positions. */
  lemma {:induction false} Outcome(list: seq<Entry>, ns0: seq<Node>, ns: seq<Node>, cs: seq<ClassRec>, cmp: Comparator,
                                   rr: seq<int>, maxTag: nat)
    requires DistinctPos(list) && forall k :: 0 <= k < |list| ==> list[k].pos < |rr|
    requires Classified(list, ns0, cs, cmp) && Written(ns0, ns, cs, rr, maxTag)
    ensures TagsBelow(rr, maxTag) && EmptyWhereAbsent(rr, list)
    ensures maxTag <= |list| && (maxTag == 0 <==> list == [])
    ensures forall t :: 1 <= t <= maxTag ==> TagUsed(rr, list, t)
    ensures SharedTagsWitnessed(rr, list, cmp)
  {
    NodesDistinct(list, ns0, ns);
    forall t | 1 <= t <= maxTag
      ensures TagUsed(rr, list, t)
    {
      ClassTagUsed(list, ns0, ns, cs, cmp, rr, maxTag, t);
    }
    FlattenLength(cs);
    RangeLength(|ns0|);
    assert |multiset(Flatten(cs))| == |Flatten(cs)| && |multiset(Range(|ns0|))| == |Range(|ns0|)|;
    assert |multiset(NodeEntries(ns0))| == |NodeEntries(ns0)| && |multiset(list)| == |list|;
    forall p | 0 <= p < |rr|
      ensures 0 <= rr[p] <= maxTag
      ensures rr[p] == 0 <==> forall k :: 0 <= k < |list| ==> list[k].pos != p
    {
      if rr[p] != 0 {
        var m :| 0 <= m < |ns| && ns[m].entry.pos == p;
        var k := NodeInList(list, ns0, m);
        assert list[k].pos == p;
      } else {
        forall k | 0 <= k < |list|
          ensures list[k].pos != p
        {
          var m := ListInNodes(list, ns0, k);
          assert ns[m].entry.pos != p;
        }
      }
    }
    forall k | 0 <= k < |list| && TagShared(rr, list, k)
      ensures TagWitnessed(rr, list, cmp, k)
    {
      var l :| 0 <= l < |list| && l != k && rr[list[l].pos] == rr[list[k].pos];
      var m := ListInNodes(list, ns0, k);
      var m2 := ListInNodes(list, ns0, l);
      assert m != m2;
      var m3 := SharedTagWitnessed(ns0, ns, cs, list, cmp, m, m2);
      var j := NodeInList(list, ns0, m3);
      assert j != k;
      assert rr[list[j].pos] == rr[list[k].pos];
    }
  }

  /** Tag t is that of class t - 1, whose first node stands for a pattern of the list. */
  lemma {:induction false} ClassTagUsed(list: seq<Entry>, ns0: seq<Node>, ns: seq<Node>, cs: seq<ClassRec>, cmp: Comparator,
                                        rr: seq<int>, maxTag: nat, t: nat)
    requires Classified(list, ns0, cs, cmp) && Written(ns0, ns, cs, rr, maxTag)
    requires DistinctPositions(ns) && 1 <= t <= maxTag
    ensures TagUsed(rr, list, t)
  {
    var c := cs[t - 1];
    assert WellFormed(c, |ns0|) && |c.members| >= 1;
    var m := c.members[0];
    assert ns[m].tag == t;
    var k := NodeInList(list, ns0, m);
    assert list[k].pos == ns[m].entry.pos && rr[list[k].pos] == t;
  }

  lemma {:induction false} NodeEntriesAt(ns: seq<Node>, m: nat)
    requires m < |ns|
    ensures NodeEntries(ns)[m] == ns[m].entry
  {
    if m < |ns| - 1 {
      NodeEntriesAt(ns[..|ns| - 1], m);
    }
  }

  /** The list entry a node stands for. */
  lemma {:induction false} NodeInList(list: seq<Entry>, ns0: seq<Node>, m: nat) returns (k: nat)
    requires multiset(NodeEntries(ns0)) == multiset(list) && m < |ns0|
    ensures k < |list| && list[k] == ns0[m].entry
  {
    NodeEntriesAt(ns0, m);
    assert ns0[m].entry in multiset(NodeEntries(ns0));
    assert ns0[m].entry in list;
    k :| 0 <= k < |list| && list[k] == ns0[m].entry;
  }

  /** The node standing for a list entry. */
  lemma {:induction false} ListInNodes(list: seq<Entry>, ns0: seq<Node>, k: nat) returns (m: nat)
    requires multiset(NodeEntries(ns0)) == multiset(list) && k < |list|
    ensures m < |ns0| && ns0[m].entry == list[k]
  {
    assert list[k] in multiset(list);
    assert list[k] in NodeEntries(ns0);
    m :| 0 <= m < |ns0| && NodeEntries(ns0)[m] == list[k];
    NodeEntriesAt(ns0, m);
  }

  /** An element at two indices is counted twice. */
  lemma {:induction false} TwiceCounted<T>(s: seq<T>, i: nat, j: nat)
    requires i < j < |s| && s[i] == s[j]
    ensures multiset(s)[s[i]] >= 2
  {
    assert s == s[..j] + s[j..];
    assert s[..j][i] == s[i];
    assert multiset(s[..j])[s[i]] >= 1;
    assert s[j..][0] == s[i];
    assert multiset(s[j..])[s[i]] >= 1;
  }

  /** A list of distinct positions holds each entry at most once. */
  lemma {:induction false} CountedOnce(list: seq<Entry>, x: Entry)
    requires DistinctPos(list)
    ensures multiset(list)[x] <= 1
  {
    if list != [] {
      assert list == [list[0]] + list[1..];
      CountedOnce(list[1..], x);
      if list[0] == x {
        assert x !in list[1..];
      }
    }
  }

  /** Nodes built from a list of distinct positions have distinct positions. */
  lemma {:induction false} NodesDistinct(list: seq<Entry>, ns0: seq<Node>, ns: seq<Node>)
    requires DistinctPos(list) && multiset(NodeEntries(ns0)) == multiset(list)
    requires |ns| == |ns0| && forall m :: 0 <= m < |ns| ==> ns[m].entry == ns0[m].entry
    ensures DistinctPositions(ns)
  {
    forall m1, m2 | 0 <= m1 < m2 < |ns|
      ensures ns[m1].entry.pos != ns[m2].entry.pos
    {
      var k1 := NodeInList(list, ns0, m1);
      var k2 := NodeInList(list, ns0, m2);
      if k1 == k2 {
        NodeEntriesAt(ns0, m1);
        NodeEntriesAt(ns0, m2);
        TwiceCounted(NodeEntries(ns0), m1, m2);
        CountedOnce(list, list[k1]);
      }
    }
  }

  /** Non-empty classes are no more than their nodes. */
  lemma {:induction false} FlattenLength(cs: seq<ClassRec>)
    requires forall k :: 0 <= k < |cs| ==> |cs[k].members| >= 1
    ensures |Flatten(cs)| >= |cs|
  {
    if cs != [] {
      FlattenLength(cs[1..]);
    }
  }

  lemma {:induction false} RangeLength(n: nat)
    ensures |Range(n)| == n
  {
    if n > 0 {
      RangeLength(n - 1);
    }
  }

  /**
   * A node whose tag another node shares sits in a class of two or more,
   * so the linking of that class names a node of the same tag it was read
   * MATCH against.
   */
  lemma {:induction false} SharedTagWitnessed(ns0: seq<Node>, ns: seq<Node>, cs: seq<ClassRec>, list: seq<Entry>, cmp: Comparator,
                                              m: nat, m2: nat) returns (m3: nat)
    requires Good(ns0, cs, list, cmp)
    requires |ns| == |ns0| && forall n :: 0 <= n < |ns| ==> ns[n].entry == ns0[n].entry
    requires forall k, i :: 0 <= k < |cs| && 0 <= i < |cs[k].members| ==> ns[cs[k].members[i]].tag == k + 1
    requires m < |ns| && m2 < |ns| && m != m2 && ns[m].tag == ns[m2].tag
    ensures m3 < |ns| && m3 != m && ns[m3].tag == ns[m].tag && Witnessed(list, ns[m].entry, ns[m3].entry, cmp)
  {
    var k, i := NodeInSomeClass(cs, |ns0|, m);
    var k2, i2 := NodeInSomeClass(cs, |ns0|, m2);
    assert k == k2;
    var ms := cs[k].members;
    assert WellFormed(cs[k], |ns0|);
    assert forall l :: 0 <= l < |cs| ==> AllBelow(cs[l].members, |ns0|) by {
      forall l | 0 <= l < |cs| ensures AllBelow(cs[l].members, |ns0|) {
        assert WellFormed(cs[l], |ns0|);
      }
    }
    ViewsAt(ns0, cs, k);
    var v := Views(ns0, cs)[k];
    assert |v| >= 2 by {
      assert i != i2;
    }
    assert HasPartner(v, i, list, cmp);
    var l :| 0 <= l < |v| && l != i && Witnessed(list, v[i], v[l], cmp);
    EntriesOfAt(ns0, ms, i);
    EntriesOfAt(ns0, ms, l);
    m3 := ms[l];
    if i < l {
      PartitionNoDuplicate(cs, |ns0|, k, i, l);
    } else {
      PartitionNoDuplicate(cs, |ns0|, k, l, i);
    }
  }
  /** Slot p holds a pattern and some other slot holds one of the same tag. */
  ghost predicate SlotShared(rr: seq<int>, present: seq<bool>, p: nat)
    requires p < |rr| == |present|
  {
    present[p] && exists q :: 0 <= q < |rr| && q != p && present[q] && rr[q] == rr[p]
  }

  /** The pattern at slot p was compared MATCH with the pattern of some other slot of the same tag. */
  ghost predicate SlotMatched(rr: seq<int>, present: seq<bool>, dpis: seq<int>, cmp: Comparator, p: nat)
    requires p < |rr| == |present| == |dpis|
  {
    exists q :: 0 <= q < |rr| && q != p && present[q] && rr[q] == rr[p] && Matched(cmp, p, q, dpis[p], dpis[q])
  }

  /**
   * The result both drivers promise for slots present[..] with dpis
   * dpis[..]: empty slots read 0, present ones a tag in 1..maxTag, maxTag
   * is 0 exactly when no slot is present and never exceeds the slot
   * count, every tag in 1..maxTag is held by some slot, and a pattern
   * sharing its tag with another one was compared
   * MATCH with some other pattern of that tag.
   */
  ghost predicate Tagging(rr: seq<int>, present: seq<bool>, dpis: seq<int>, cmp: Comparator, maxTag: nat)
    requires |rr| == |present| == |dpis|
  {
    (forall p :: 0 <= p < |rr| ==> 0 <= rr[p] <= maxTag && (rr[p] == 0 <==> !present[p])) &&
    (maxTag == 0 <==> forall p :: 0 <= p < |rr| ==> !present[p]) &&
    maxTag <= |rr| && (forall t :: 1 <= t <= maxTag ==> SlotTagUsed(rr, present, t)) &&
    forall p :: 0 <= p < |rr| && SlotShared(rr, present, p) ==> SlotMatched(rr, present, dpis, cmp, p)
  }

  /** Some slot holding a pattern has tag t. */
  ghost predicate SlotTagUsed(rr: seq<int>, present: seq<bool>, t: int)
    requires |rr| == |present|
  {
    exists p :: 0 <= p < |rr| && present[p] && rr[p] == t
  }

  /** The list-level facts of ClassifyList, read back as facts about slots. */
  lemma {:induction false} TaggingFromList(present: seq<bool>, dpis: seq<int>, rr: seq<int>, cmp: Comparator, maxTag: nat)
    requires |rr| == |present| == |dpis|
    requires var list := PatternList(present, dpis, |present|);
             TagsBelow(rr, maxTag) && EmptyWhereAbsent(rr, list) &&
             maxTag <= |list| && (maxTag == 0 <==> list == []) && SharedTagsWitnessed(rr, list, cmp) &&
             forall t :: 1 <= t <= maxTag ==> TagUsed(rr, list, t)
    ensures Tagging(rr, present, dpis, cmp, maxTag)
  {
    var list := PatternList(present, dpis, |present|);
    forall t | 1 <= t <= maxTag
      ensures SlotTagUsed(rr, present, t)
    {
      assert TagUsed(rr, list, t);
      var k :| 0 <= k < |list| && list[k].pos < |rr| && rr[list[k].pos] == t;
      assert present[list[k].pos];
    }
    EmptySlots(present, dpis, rr, maxTag);
    SharedSlots(present, dpis, rr, cmp);
  }

  lemma {:induction false} EmptySlots(present: seq<bool>, dpis: seq<int>, rr: seq<int>, maxTag: nat)
    requires |rr| == |present| == |dpis|
    requires var list := PatternList(present, dpis, |present|);
             EmptyWhereAbsent(rr, list) && (maxTag == 0 <==> list == [])
    ensures forall p :: 0 <= p < |rr| ==> (rr[p] == 0 <==> !present[p])
    ensures maxTag == 0 <==> forall p :: 0 <= p < |rr| ==> !present[p]
  {
    var list := PatternList(present, dpis, |present|);
    forall p | 0 <= p < |rr|
      ensures rr[p] == 0 <==> !present[p]
    {
      if present[p] {
        var k := PatternListCovers(present, dpis, |present|, p);
      }
    }
    if list != [] {
      assert present[list[0].pos];
    }
  }

  lemma {:induction false} SharedSlots(present: seq<bool>, dpis: seq<int>, rr: seq<int>, cmp: Comparator)
    requires |rr| == |present| == |dpis|
    requires var list := PatternList(present, dpis, |present|);
             (forall k :: 0 <= k < |list| ==> list[k].pos < |rr|) && SharedTagsWitnessed(rr, list, cmp)
    ensures forall p :: 0 <= p < |rr| && SlotShared(rr, present, p) ==> SlotMatched(rr, present, dpis, cmp, p)
  {
    forall p | 0 <= p < |rr| && SlotShared(rr, present, p)
      ensures SlotMatched(rr, present, dpis, cmp, p)
    {
      SharedSlot(present, dpis, rr, cmp, p);
    }
  }

  /** SharedSlots for one position p. */
  lemma {:induction false} SharedSlot(present: seq<bool>, dpis: seq<int>, rr: seq<int>, cmp: Comparator, p: nat)
    requires |rr| == |present| == |dpis| && p < |rr| && SlotShared(rr, present, p)
    requires var list := PatternList(present, dpis, |present|);
             (forall k :: 0 <= k < |list| ==> list[k].pos < |rr|) && SharedTagsWitnessed(rr, list, cmp)
    ensures SlotMatched(rr, present, dpis, cmp, p)
  {
    var list := PatternList(present, dpis, |present|);
    var q :| 0 <= q < |rr| && q != p && present[q] && rr[q] == rr[p];
    var k := PatternListCovers(present, dpis, |present|, p);
    var l := PatternListCovers(present, dpis, |present|, q);
    assert l != k && rr[list[l].pos] == rr[list[k].pos];
    assert TagShared(rr, list, k);
    var j :| 0 <= j < |list| && j != k && rr[list[j].pos] == rr[list[k].pos] && Witnessed(list, list[k], list[j], cmp);
    var x, y := list[k], list[j];
    if !Justified(x, y, cmp) {
      assert UniqueIds(list);
      CachedMatchBelongsToPair(list, x, y, cmp);
    }
    assert x.pos == p && x.dpi == dpis[p] && y.dpi == dpis[y.pos] && y.pos != p;
    assert Matched(cmp, p, y.pos, dpis[p], dpis[y.pos]);
  }

  /**
   * mdjvu_classify_patterns, with the pattern list's ids assigned by rank
   * (see PatternListAsWritten for the list as written): nothing happens
   * for n == 0; otherwise the patterns are classified, with a cache from
   * level 2 on, and r receives their tags.
   */
  method ClassifyPatterns(present: seq<bool>, r: array<int>, dpi: int, level: int, cmp: Comparator) returns (maxTag: nat)
    requires r.Length == |present|
    modifies r
    ensures |present| == 0 ==> maxTag == 0
    ensures Tagging(r[..], present, seq(|present|, _ => dpi), cmp, maxTag)
  {
    if |present| == 0 {
      return 0;
    }
    var list := GatherPage(present, dpi);
    maxTag := ClassifyList(list, |present|, level, cmp, r);
    TaggingFromList(present, seq(|present|, _ => dpi), r[..], cmp, maxTag);
  }

  /**
   * mdjvu_multipage_classify_patterns: nothing happens for a total of 0;
   * with no pattern present r is cleared; otherwise the patterns of all
   * pages are classified together, with a cache of one row per pattern
   * from level 2 on, and r receives their tags by global position.
   */
  method MultipageClassifyPatterns(pages: seq<seq<bool>>, total: nat, r: array<int>, dpi: seq<int>, level: int, cmp: Comparator)
    returns (maxTag: nat)
    requires |dpi| == |pages| && total == |Flat(pages)| && r.Length == total
    modifies r
    ensures total == 0 ==> maxTag == 0
    ensures Tagging(r[..], Flat(pages), SlotDpis(pages, dpi), cmp, maxTag)
  {
    if total == 0 {
      return 0;
    }
    var list := GatherPages(pages, dpi);
    if list == [] {
      ZeroFill(r);
      maxTag := 0;
      forall p | 0 <= p < total
        ensures !Flat(pages)[p]
      {
        if Flat(pages)[p] {
          var k := PatternListCovers(Flat(pages), SlotDpis(pages, dpi), total, p);
        }
      }
      return;
    }
    maxTag := ClassifyList(list, |list|, level, cmp, r);
    TaggingFromList(Flat(pages), SlotDpis(pages, dpi), r[..], cmp, maxTag);
  }

  /** Tag t occurs among the first n slots on two different pages. */
  ghost predicate TwoPages(tags: seq<int>, pageOf: seq<nat>, n: nat, t: int)
    requires n <= |tags| == |pageOf|
  {
    exists q1, q2 :: 0 <= q1 < n && 0 <= q2 < n && tags[q1] == t && tags[q2] == t && pageOf[q1] != pageOf[q2]
  }

  /**
   * f is what first_page_met holds for tag t after n slots: -1 when t has
   * not occurred, otherwise the page of an occurrence no later than any
   * other.
   */
  ghost predicate FirstMet(tags: seq<int>, pageOf: seq<nat>, n: nat, t: int, f: int)
    requires n <= |tags| == |pageOf|
  {
    if f == -1 then forall q :: 0 <= q < n ==> tags[q] != t
    else (exists q :: 0 <= q < n && tags[q] == t && pageOf[q] == f) && forall q :: 0 <= q < n && tags[q] == t ==> f <= pageOf[q]
  }

  /**
   * first and flags as the scan leaves them after n slots: first[u] is
   * first_page_met of every non-zero tag u, and flags[u] is 1 exactly when
   * u is non-zero and already seen on two pages, 0 otherwise.
   */
  ghost predicate ScanState(tags: seq<int>, pageOf: seq<nat>, n: nat, maxTag: nat, first: seq<int>, flags: seq<int>)
    requires n <= |tags| == |pageOf| && |first| == |flags| == maxTag + 1
  {
    (forall u :: 1 <= u <= maxTag ==> FirstMet(tags, pageOf, n, u, first[u])) &&
    forall u :: 0 <= u <= maxTag ==> (flags[u] == 0 || flags[u] == 1) && (flags[u] == 1 <==> u != 0 && TwoPages(tags, pageOf, n, u))
  }

  /** A slot of another tag adds no pair of pages for u. */
  lemma {:induction false} TwoPagesOther(tags: seq<int>, pageOf: seq<nat>, n: nat, u: int)
    requires n < |tags| == |pageOf| && tags[n] != u
    ensures TwoPages(tags, pageOf, n + 1, u) == TwoPages(tags, pageOf, n, u)
  {
    if TwoPages(tags, pageOf, n + 1, u) {
      var q1, q2 :| 0 <= q1 < n + 1 && 0 <= q2 < n + 1 && tags[q1] == u && tags[q2] == u && pageOf[q1] != pageOf[q2];
      assert q1 < n && q2 < n;
    }
  }

  /** A tag whose occurrences all lie on one page is not on two pages. */
  lemma {:induction false} TwoPagesOnePage(tags: seq<int>, pageOf: seq<nat>, n: nat, u: int, page: nat)
    requires n <= |tags| == |pageOf|
    requires forall q :: 0 <= q < n && tags[q] == u ==> pageOf[q] == page
    ensures !TwoPages(tags, pageOf, n, u)
  {
  }

  /** One slot of the scan, for one non-zero tag u with first_page_met f and flag g. */
  lemma {:induction false} ScanAdvanceTag(tags: seq<int>, pageOf: seq<nat>, n: nat, page: nat, u: int, f: int, g: int)
    requires n < |tags| == |pageOf| && u != 0
    requires pageOf[n] == page && forall q :: 0 <= q < n ==> pageOf[q] <= page
    requires FirstMet(tags, pageOf, n, u, f) && (g == 1 <==> TwoPages(tags, pageOf, n, u))
    ensures var f' := if tags[n] == u && f == -1 then page else f;
            var g' := if tags[n] == u && f != -1 && f != page then 1 else g;
            FirstMet(tags, pageOf, n + 1, u, f') && (g' == 1 <==> TwoPages(tags, pageOf, n + 1, u))
  {
    if tags[n] != u {
      TwoPagesOther(tags, pageOf, n, u);
    } else if f == -1 {
      TwoPagesOnePage(tags, pageOf, n, u, page);
      TwoPagesOnePage(tags, pageOf, n + 1, u, page);
    } else if f != page {
      var q :| 0 <= q < n && tags[q] == u && pageOf[q] == f;
      assert tags[n] == u && pageOf[q] != pageOf[n];
    } else {
      TwoPagesOnePage(tags, pageOf, n, u, page);
      TwoPagesOnePage(tags, pageOf, n + 1, u, page);
    }
  }

  /**
   * One slot of the scan: on a page no earlier than any slot before it, a
   * new tag records the page, and a tag first met on another page gets its
   * flag.
   */
  lemma {:induction false} ScanAdvance(tags: seq<int>, pageOf: seq<nat>, n: nat, page: nat, maxTag: nat, first: seq<int>, flags: seq<int>)
    requires n < |tags| == |pageOf| && |first| == |flags| == maxTag + 1 && 0 <= tags[n] <= maxTag
    requires pageOf[n] == page && forall q :: 0 <= q < n ==> pageOf[q] <= page
    requires ScanState(tags, pageOf, n, maxTag, first, flags)
    ensures var tag := tags[n];
            var first' := if tag != 0 && first[tag] == -1 then first[tag := page] else first;
            var flags' := if tag != 0 && first[tag] != -1 && first[tag] != page then flags[tag := 1] else flags;
            ScanState(tags, pageOf, n + 1, maxTag, first', flags')
  {
    var tag := tags[n];
    var first' := if tag != 0 && first[tag] == -1 then first[tag := page] else first;
    var flags' := if tag != 0 && first[tag] != -1 && first[tag] != page then flags[tag := 1] else flags;
    forall u | 1 <= u <= maxTag
      ensures FirstMet(tags, pageOf, n + 1, u, first'[u])
      ensures flags'[u] == 1 <==> TwoPages(tags, pageOf, n + 1, u)
    {
      ScanAdvanceTag(tags, pageOf, n, page, u, first[u], flags[u]);
    }
    assert flags'[0] == flags[0];
  }

  /** Slot i of page k lies on page k. */
  lemma {:induction false} PageOfAt(npatterns: seq<nat>, k: nat, i: nat)
    requires k < |npatterns| && i < npatterns[k]
    ensures var index := PageIndex(npatterns);
            |Flat(index[..k])| + i < |Flat(index)| && Flat(index)[|Flat(index[..k])| + i] == k
  {
    FlatAt(PageIndex(npatterns), k, i);
  }

  /** Every slot before slot i of page k lies on page k or an earlier one. */
  lemma {:induction false} PagesBefore(npatterns: seq<nat>, k: nat, i: nat)
    requires k < |npatterns| && i < npatterns[k]
    ensures var index := PageIndex(npatterns);
            |Flat(index[..k])| + i < |Flat(index)| &&
            forall q :: 0 <= q < |Flat(index[..k])| + i ==> Flat(index)[q] <= k
  {
    var index := PageIndex(npatterns);
    FlatPrefix(index, k + 1);
    FlatStep(index, k);
    FlatBelow(index[..k + 1], k);
  }

  lemma {:induction false} FlatBelow(ss: seq<seq<nat>>, b: nat)
    requires forall k, i :: 0 <= k < |ss| && 0 <= i < |ss[k]| ==> ss[k][i] <= b
    ensures forall q :: 0 <= q < |Flat(ss)| ==> Flat(ss)[q] <= b
  {
    if ss != [] {
      FlatBelow(ss[..|ss| - 1], b);
    }
  }

  /** The body of the scan for one non-substitutable or substitutable slot. */
  method ScanSlot(first: array<int>, flags: array<int>, tag: int, page: nat)
    requires first.Length == flags.Length && 0 <= tag < first.Length && first != flags
    modifies first, flags
    ensures first[..] == if tag != 0 && old(first[tag]) == -1 then old(first[..])[tag := page] else old(first[..])
    ensures flags[..] == if tag != 0 && old(first[tag]) != -1 && old(first[tag]) != page then old(flags[..])[tag := 1] else old(flags[..])
  {
    if tag != 0 {
      if first[tag] == -1 {
        first[tag] := page;
      } else if first[tag] != page {
        flags[tag] := 1;
      }
    }
  }

  /** The memset of the flags and the initialisation of first_page_met to -1. */
  method ClearScan(first: array<int>, flags: array<int>)
    requires first.Length == flags.Length && first != flags
    modifies first, flags
    ensures forall u :: 0 <= u < first.Length ==> first[u] == -1 && flags[u] == 0
  {
    var t := 0;
    while t < flags.Length
      invariant t <= flags.Length && forall u :: 0 <= u < t ==> flags[u] == 0
    {
      flags[t] := 0;
      t := t + 1;
    }
    t := 0;
    while t < first.Length
      invariant t <= first.Length && forall u :: 0 <= u < t ==> first[u] == -1
      invariant forall u :: 0 <= u < flags.Length ==> flags[u] == 0
    {
      first[t] := -1;
      t := t + 1;
    }
  }

  /** One slot of the scan, from the state before it to the state after it. */
  method ScanStep(tags: seq<int>, ghost pageOf: seq<nat>, n: nat, page: nat, maxTag: nat, first: array<int>, flags: array<int>)
    requires n < |tags| == |pageOf| && first.Length == flags.Length == maxTag + 1 && first != flags && 0 <= tags[n] <= maxTag
    requires pageOf[n] == page && forall q :: 0 <= q < n ==> pageOf[q] <= page
    requires ScanState(tags, pageOf, n, maxTag, first[..], flags[..])
    modifies first, flags
    ensures ScanState(tags, pageOf, n + 1, maxTag, first[..], flags[..])
  {
    ScanAdvance(tags, pageOf, n, page, maxTag, first[..], flags[..]);
    ScanSlot(first, flags, tags[n], page);
  }

  /** The inner loop of the scan: the slots of one page. */
  method ScanPage(npatterns: seq<nat>, maxTag: nat, tags: seq<int>, first: array<int>, flags: array<int>, page: nat, passed: nat)
    returns (next: nat)
    requires page < |npatterns| && |tags| == |Flat(PageIndex(npatterns))|
    requires forall q :: 0 <= q < |tags| ==> 0 <= tags[q] <= maxTag
    requires first.Length == flags.Length == maxTag + 1 && first != flags
    requires passed == |Flat(PageIndex(npatterns)[..page])| && passed <= |tags|
    requires ScanState(tags, Flat(PageIndex(npatterns)), passed, maxTag, first[..], flags[..])
    modifies first, flags
    ensures next == |Flat(PageIndex(npatterns)[..page + 1])| && next <= |tags|
    ensures ScanState(tags, Flat(PageIndex(npatterns)), next, maxTag, first[..], flags[..])
  {
    ghost var index := PageIndex(npatterns);
    ghost var pageOf := Flat(index);
    next := passed;
    var i := 0;
    while i < npatterns[page]
      invariant i <= npatterns[page] && next == |Flat(index[..page])| + i && next <= |tags|
      invariant ScanState(tags, pageOf, next, maxTag, first[..], flags[..])
    {
      PageOfAt(npatterns, page, i);
      PagesBefore(npatterns, page, i);
      ScanStep(tags, pageOf, next, page, maxTag, first, flags);
      next := next + 1;
      i := i + 1;
    }
    FlatStep(index, page);
    FlatPrefix(index, page + 1);
  }

  /**
   * mdjvu_multipage_get_dictionary_flags: flags[t] is 1 exactly when the
   * non-zero tag t occurs on two different pages, and 0 otherwise (so
   * flags[0] is 0).
   */
  method DictionaryFlags(npatterns: seq<nat>, maxTag: nat, tags: seq<int>, flags: array<int>)
    requires |tags| == |Flat(PageIndex(npatterns))|
    requires forall q :: 0 <= q < |tags| ==> 0 <= tags[q] <= maxTag
    requires flags.Length == maxTag + 1
    modifies flags
    ensures forall t :: 0 <= t <= maxTag ==>
              (flags[t] == 0 || flags[t] == 1) &&
              (flags[t] == 1 <==> t != 0 && TwoPages(tags, Flat(PageIndex(npatterns)), |tags|, t))
  {
    ghost var index := PageIndex(npatterns);
    ghost var pageOf := Flat(index);
    var first := new int[maxTag + 1];
    ClearScan(first, flags);
    var passed := 0;
    var page := 0;
    while page < |npatterns|
      invariant page <= |npatterns| && passed == |Flat(index[..page])| && passed <= |tags|
      invariant ScanState(tags, pageOf, passed, maxTag, first[..], flags[..])
    {
      passed := ScanPage(npatterns, maxTag, tags, first, flags, page, passed);
      page := page + 1;
    }
    assert index[..page] == index;
  }
}
