/**
 * Reference definitions for the pattern classifier (src/alg/classify.c):
 * the greedy seeding pass, the verdict of compare_to_class, and what it
 * means for a cached MATCH to be backed by a real comparison.
 */
module ClassifySpec {
  import opened ClassifyCache

  /**
   * mdjvu_match_patterns as the classifier sees it: the patterns found at two
   * input positions, compared at a resolution.  It is an opaque parameter of
   * the model; nothing is assumed about it (not even symmetry).
   */
  type Comparator = (nat, nat, int) -> Tri

  /** A PatternList element: input position of the pattern, cache id, dpi. */
  datatype Entry = Entry(pos: nat, id: nat, dpi: int)

  /** The entries of `s` that compare MATCH against `seed` at the seed's dpi. */
  function Absorbed(seed: Entry, s: seq<Entry>, cmp: Comparator): (r: seq<Entry>)
    ensures |r| <= |s|
  {
    if s == [] then []
    else (if cmp(seed.pos, s[0].pos, seed.dpi) == 1 then [s[0]] else []) + Absorbed(seed, s[1..], cmp)
  }

  /** The entries of `s` left in the pattern list after `seed` took its matches. */
  function Kept(seed: Entry, s: seq<Entry>, cmp: Comparator): (r: seq<Entry>)
    ensures |r| <= |s|
  {
    if s == [] then []
    else (if cmp(seed.pos, s[0].pos, seed.dpi) == 1 then [] else [s[0]]) + Kept(seed, s[1..], cmp)
  }

  /**
   * The classes the seeding pass of classify() builds, in creation order:
   * the first pattern left is a seed, every later pattern that matches it
   * joins its class and leaves the list, and the rest is seeded again.
   */
  function SeedClasses(s: seq<Entry>, cmp: Comparator): (r: seq<seq<Entry>>)
    ensures |r| <= |s|
    ensures forall k :: 0 <= k < |r| ==> |r[k]| >= 1
    decreases |s|
  {
    if s == [] then []
    else [[s[0]] + Absorbed(s[0], s[1..], cmp)] + SeedClasses(Kept(s[0], s[1..], cmp), cmp)
  }

  /**
   * One comparison of the seeding pass, as bookkeeping: the first pattern of
   * s moves to the taken side on MATCH and to the kept side otherwise.
   */
  lemma {:induction false} SplitStep(seed: Entry, s: seq<Entry>, taken: seq<Entry>, kept: seq<Entry>, cmp: Comparator)
    requires s != []
    ensures cmp(seed.pos, s[0].pos, seed.dpi) == 1 ==>
              (taken + [s[0]]) + Absorbed(seed, s[1..], cmp) == taken + Absorbed(seed, s, cmp) &&
              kept + Kept(seed, s[1..], cmp) == kept + Kept(seed, s, cmp)
    ensures cmp(seed.pos, s[0].pos, seed.dpi) != 1 ==>
              taken + Absorbed(seed, s[1..], cmp) == taken + Absorbed(seed, s, cmp) &&
              (kept + [s[0]]) + Kept(seed, s[1..], cmp) == kept + Kept(seed, s, cmp)
  {
    if cmp(seed.pos, s[0].pos, seed.dpi) == 1 {
      assert Absorbed(seed, s, cmp) == [s[0]] + Absorbed(seed, s[1..], cmp);
      assert Kept(seed, s, cmp) == Kept(seed, s[1..], cmp);
    } else {
      assert Absorbed(seed, s, cmp) == Absorbed(seed, s[1..], cmp);
      assert Kept(seed, s, cmp) == [s[0]] + Kept(seed, s[1..], cmp);
    }
  }

  /** The seed takes only entries of s that MATCH it. */
  lemma {:induction false} AbsorbedMatches(seed: Entry, s: seq<Entry>, cmp: Comparator, e: Entry)
    requires e in Absorbed(seed, s, cmp)
    ensures e in s && cmp(seed.pos, e.pos, seed.dpi) == 1
  {
    if s != [] && e in Absorbed(seed, s[1..], cmp) {
      AbsorbedMatches(seed, s[1..], cmp, e);
    }
  }

  /** The seed leaves in the list only entries of s that do not MATCH it. */
  lemma {:induction false} KeptUnmatched(seed: Entry, s: seq<Entry>, cmp: Comparator, e: Entry)
    requires e in Kept(seed, s, cmp)
    ensures e in s && cmp(seed.pos, e.pos, seed.dpi) != 1
  {
    if s != [] && e in Kept(seed, s[1..], cmp) {
      KeptUnmatched(seed, s[1..], cmp, e);
    }
  }

  function Concat(ss: seq<seq<Entry>>): seq<Entry>
  {
    if ss == [] then [] else ss[0] + Concat(ss[1..])
  }

  lemma {:induction false} AbsorbedSnoc(seed: Entry, s: seq<Entry>, x: Entry, cmp: Comparator)
    ensures Absorbed(seed, s + [x], cmp) ==
            Absorbed(seed, s, cmp) + (if cmp(seed.pos, x.pos, seed.dpi) == 1 then [x] else [])
  {
    if s == [] {
      assert s + [x] == [x];
    } else {
      assert (s + [x])[1..] == s[1..] + [x];
      AbsorbedSnoc(seed, s[1..], x, cmp);
    }
  }

  lemma {:induction false} KeptSnoc(seed: Entry, s: seq<Entry>, x: Entry, cmp: Comparator)
    ensures Kept(seed, s + [x], cmp) ==
            Kept(seed, s, cmp) + (if cmp(seed.pos, x.pos, seed.dpi) == 1 then [] else [x])
  {
    if s == [] {
      assert s + [x] == [x];
    } else {
      assert (s + [x])[1..] == s[1..] + [x];
      KeptSnoc(seed, s[1..], x, cmp);
    }
  }

  /** Absorbing and keeping split the list without losing or inventing entries. */
  lemma {:induction false} SplitIsPermutation(seed: Entry, s: seq<Entry>, cmp: Comparator)
    ensures multiset(Absorbed(seed, s, cmp)) + multiset(Kept(seed, s, cmp)) == multiset(s)
  {
    if s != [] {
      SplitIsPermutation(seed, s[1..], cmp);
      assert s == [s[0]] + s[1..];
      if cmp(seed.pos, s[0].pos, seed.dpi) == 1 {
        assert Absorbed(seed, s, cmp) == [s[0]] + Absorbed(seed, s[1..], cmp);
        assert Kept(seed, s, cmp) == Kept(seed, s[1..], cmp);
      } else {
        assert Absorbed(seed, s, cmp) == Absorbed(seed, s[1..], cmp);
        assert Kept(seed, s, cmp) == [s[0]] + Kept(seed, s[1..], cmp);
      }
    }
  }

  /** The seeding classes are a partition of the pattern list. */
  lemma {:induction false} SeedingIsPartition(s: seq<Entry>, cmp: Comparator)
    ensures multiset(Concat(SeedClasses(s, cmp))) == multiset(s)
    decreases |s|
  {
    if s != [] {
      var rest := Kept(s[0], s[1..], cmp);
      var c := [s[0]] + Absorbed(s[0], s[1..], cmp);
      SeedingIsPartition(rest, cmp);
      SplitIsPermutation(s[0], s[1..], cmp);
      assert SeedClasses(s, cmp) == [c] + SeedClasses(rest, cmp);
      assert ([c] + SeedClasses(rest, cmp))[1..] == SeedClasses(rest, cmp);
      assert Concat(SeedClasses(s, cmp)) == c + Concat(SeedClasses(rest, cmp));
      assert s == [s[0]] + s[1..];
      assert multiset(s) == multiset([s[0]]) + multiset(s[1..]);
    }
  }

  /** Every member of a seeding class is a pattern of the list. */
  lemma {:induction false} SeedingMembersComeFromList(s: seq<Entry>, cmp: Comparator, k: nat, e: Entry)
    requires k < |SeedClasses(s, cmp)| && e in SeedClasses(s, cmp)[k]
    ensures e in s
    decreases |s|
  {
    if k == 0 {
      if e != s[0] {
        AbsorbedMatches(s[0], s[1..], cmp, e);
      }
    } else {
      var rest := Kept(s[0], s[1..], cmp);
      SeedingMembersComeFromList(rest, cmp, k - 1, e);
      KeptUnmatched(s[0], s[1..], cmp, e);
    }
  }

  /** Each member of a seeding class other than the seed compared MATCH against the seed. */
  lemma {:induction false} SeedingMembersMatchSeed(s: seq<Entry>, cmp: Comparator, k: nat, j: nat)
    requires k < |SeedClasses(s, cmp)| && 0 < j < |SeedClasses(s, cmp)[k]|
    ensures cmp(SeedClasses(s, cmp)[k][0].pos, SeedClasses(s, cmp)[k][j].pos, SeedClasses(s, cmp)[k][0].dpi) == 1
    decreases |s|
  {
    if k == 0 {
      var c := SeedClasses(s, cmp)[0];
      assert c[j] in Absorbed(s[0], s[1..], cmp);
      AbsorbedMatches(s[0], s[1..], cmp, c[j]);
    } else {
      SeedingMembersMatchSeed(Kept(s[0], s[1..], cmp), cmp, k - 1, j);
    }
  }

  /**
   * The pass is greedy: no pattern of a later class matched the seed of an
   * earlier class, otherwise that seed would have taken it.
   */
  lemma {:induction false} SeedingIsGreedy(s: seq<Entry>, cmp: Comparator, k1: nat, k2: nat, e: Entry)
    requires k1 < k2 < |SeedClasses(s, cmp)| && e in SeedClasses(s, cmp)[k2]
    ensures cmp(SeedClasses(s, cmp)[k1][0].pos, e.pos, SeedClasses(s, cmp)[k1][0].dpi) != 1
    decreases |s|
  {
    var rest := Kept(s[0], s[1..], cmp);
    if k1 == 0 {
      SeedingMembersComeFromList(rest, cmp, k2 - 1, e);
      KeptUnmatched(s[0], s[1..], cmp, e);
    } else {
      SeedingIsGreedy(rest, cmp, k1 - 1, k2 - 1, e);
    }
  }

  /** With a comparator that always answers MATCH, seeding builds a single class. */
  lemma {:induction false} SeedingAllMatch(s: seq<Entry>, cmp: Comparator)
    requires s != [] && forall a, b, d :: cmp(a, b, d) == 1
    ensures |SeedClasses(s, cmp)| == 1
  {
    assert Kept(s[0], s[1..], cmp) == [] by {
      KeptEmptyWhenAllMatch(s[0], s[1..], cmp);
    }
  }

  lemma {:induction false} KeptEmptyWhenAllMatch(seed: Entry, s: seq<Entry>, cmp: Comparator)
    requires forall a, b, d :: cmp(a, b, d) == 1
    ensures Kept(seed, s, cmp) == []
  {
    if s != [] {
      KeptEmptyWhenAllMatch(seed, s[1..], cmp);
    }
  }

  lemma {:induction false} KeptAllWhenNoMatch(seed: Entry, s: seq<Entry>, cmp: Comparator)
    requires forall a, b, d :: cmp(a, b, d) != 1
    ensures Kept(seed, s, cmp) == s && Absorbed(seed, s, cmp) == []
  {
    if s != [] {
      KeptAllWhenNoMatch(seed, s[1..], cmp);
      assert s == [s[0]] + s[1..];
    }
  }

  /** With a comparator that never answers MATCH, every pattern seeds its own class. */
  lemma {:induction false} SeedingNoMatch(s: seq<Entry>, cmp: Comparator)
    requires forall a, b, d :: cmp(a, b, d) != 1
    ensures |SeedClasses(s, cmp)| == |s|
    ensures forall k :: 0 <= k < |s| ==> SeedClasses(s, cmp)[k] == [s[k]]
    decreases |s|
  {
    if s != [] {
      KeptAllWhenNoMatch(s[0], s[1..], cmp);
      SeedingNoMatch(s[1..], cmp);
    }
  }

  /** The outcome compare_to_class reports for the comparison results it reads in order. */
  function Verdict(vals: seq<int>): (r: int)
    ensures r == 0 || r == 1
  {
    if 1 in vals && -1 !in vals then 1 else 0
  }

  /** A chain of comparisons stopped at the first -1 reports that as 0. */
  lemma {:induction false} VerdictOfPrefix(vals: seq<int>, i: nat)
    requires i < |vals| && vals[i] == -1
    ensures Verdict(vals) == 0
  {
    assert vals[i] in vals;
  }

  /** Comparator results of x against each target, at the target's dpi (no cache). */
  function CmpValues(x: Entry, ts: seq<Entry>, cmp: Comparator): (r: seq<int>)
    ensures |r| == |ts|
    ensures forall k :: 0 <= k < |ts| ==> r[k] == cmp(x.pos, ts[k].pos, ts[k].dpi)
  {
    if ts == [] then [] else [cmp(x.pos, ts[0].pos, ts[0].dpi)] + CmpValues(x, ts[1..], cmp)
  }

  /** What compare_to_class reads for x and each target with a cache snapshot: the slot, or the comparator when the slot is Unknown. */
  function Resolved(size: nat, bytes: seq<bv8>, x: Entry, ts: seq<Entry>, cmp: Comparator): (r: seq<int>)
    requires |bytes| == BufferBytes(size) && x.id < size && forall t :: t in ts ==> t.id < size
    ensures |r| == |ts|
    ensures forall k :: 0 <= k < |ts| ==>
              r[k] == (if SlotValue(size, bytes, x.id, ts[k].id) == Unknown then cmp(x.pos, ts[k].pos, ts[k].dpi)
                       else SlotValue(size, bytes, x.id, ts[k].id))
  {
    if ts == [] then []
    else
      var v := SlotValue(size, bytes, x.id, ts[0].id);
      [if v == Unknown then cmp(x.pos, ts[0].pos, ts[0].dpi) else v] + Resolved(size, bytes, x, ts[1..], cmp)
  }

  /**
   * Two patterns are justified to share a class when some comparison the
   * classifier can make between them (either order, either of their dpis)
   * answers MATCH.
   */
  predicate Justified(x: Entry, y: Entry, cmp: Comparator)
  {
    cmp(x.pos, y.pos, x.dpi) == 1 || cmp(x.pos, y.pos, y.dpi) == 1 ||
    cmp(y.pos, x.pos, x.dpi) == 1 || cmp(y.pos, x.pos, y.dpi) == 1
  }

  /** Some two patterns of the list carrying ids a and b are justified. */
  ghost predicate PairJustified(list: seq<Entry>, a: nat, b: nat, cmp: Comparator)
  {
    exists u, v :: u in list && v in list && u.id == a && v.id == b && Justified(u, v, cmp)
  }

  /** Ids name patterns uniquely (multipage list; the single-page list once corrected). */
  predicate UniqueIds(list: seq<Entry>)
  {
    forall i, j :: 0 <= i < |list| && 0 <= j < |list| && list[i].id == list[j].id ==> i == j
  }

  lemma {:induction false} SameIdSameEntry(list: seq<Entry>, u: Entry, x: Entry)
    requires UniqueIds(list) && u in list && x in list && u.id == x.id
    ensures u == x
  {
    var iu :| 0 <= iu < |list| && list[iu] == u;
    var ix :| 0 <= ix < |list| && list[ix] == x;
    assert list[iu].id == list[ix].id;
  }

  /** With unique ids a cached MATCH for the ids of x and y is a MATCH between x and y. */
  lemma {:induction false} CachedMatchBelongsToPair(list: seq<Entry>, x: Entry, y: Entry, cmp: Comparator)
    requires UniqueIds(list) && x in list && y in list
    requires PairJustified(list, x.id, y.id, cmp)
    ensures Justified(x, y, cmp)
  {
    var u, v :| u in list && v in list && u.id == x.id && v.id == y.id && Justified(u, v, cmp);
    SameIdSameEntry(list, u, x);
    SameIdSameEntry(list, v, y);
  }

  /** A MATCH read for the ids of x and y: justified directly, or through the ids. */
  ghost predicate Witnessed(list: seq<Entry>, x: Entry, y: Entry, cmp: Comparator)
  {
    Justified(x, y, cmp) || PairJustified(list, x.id, y.id, cmp)
  }

  /** With a comparator that never answers MATCH nothing is ever witnessed. */
  lemma {:induction false} NothingWitnessedWithoutMatch(list: seq<Entry>, x: Entry, y: Entry, cmp: Comparator)
    requires forall a, b, d :: cmp(a, b, d) != 1
    ensures !Witnessed(list, x, y, cmp)
  {
  }

  /** A MATCH read between x and y is one between y and x. */
  lemma {:induction false} WitnessedSym(list: seq<Entry>, x: Entry, y: Entry, cmp: Comparator)
    requires Witnessed(list, x, y, cmp)
    ensures Witnessed(list, y, x, cmp)
  {
    if !Justified(x, y, cmp) {
      var u, v :| u in list && v in list && u.id == x.id && v.id == y.id && Justified(u, v, cmp);
      assert Justified(v, u, cmp);
    }
  }

  /** Some pattern of xs was read MATCH against some pattern of ys. */
  ghost predicate Bridged(list: seq<Entry>, xs: seq<Entry>, ys: seq<Entry>, cmp: Comparator)
  {
    exists i, k :: 0 <= i < |xs| && 0 <= k < |ys| && Witnessed(list, xs[i], ys[k], cmp)
  }

  lemma {:induction false} BridgedSym(list: seq<Entry>, xs: seq<Entry>, ys: seq<Entry>, cmp: Comparator)
    requires Bridged(list, xs, ys, cmp)
    ensures Bridged(list, ys, xs, cmp)
  {
    var i, k :| 0 <= i < |xs| && 0 <= k < |ys| && Witnessed(list, xs[i], ys[k], cmp);
    WitnessedSym(list, xs[i], ys[k], cmp);
  }

  /** A bridge from a tail of xs is a bridge from xs. */
  lemma {:induction false} BridgedFromTail(list: seq<Entry>, xs: seq<Entry>, t: nat, ys: seq<Entry>, cmp: Comparator)
    requires t <= |xs| && Bridged(list, xs[t..], ys, cmp)
    ensures Bridged(list, xs, ys, cmp)
  {
    var i, k :| 0 <= i < |xs[t..]| && 0 <= k < |ys| && Witnessed(list, xs[t..][i], ys[k], cmp);
    assert xs[t..][i] == xs[t + i];
  }

  /** Pattern i of class v was read MATCH against another pattern of v. */
  ghost predicate HasPartner(v: seq<Entry>, i: nat, list: seq<Entry>, cmp: Comparator)
    requires i < |v|
  {
    exists l :: 0 <= l < |v| && l != i && Witnessed(list, v[i], v[l], cmp)
  }

  /**
   * Every pattern that shares its class with others was read MATCH against
   * at least one of them: no class holds a pattern for which nothing
   * vouched.
   */
  ghost predicate Linked(vs: seq<seq<Entry>>, list: seq<Entry>, cmp: Comparator)
  {
    forall k, i :: 0 <= k < |vs| && 0 <= i < |vs[k]| && |vs[k]| >= 2 ==> HasPartner(vs[k], i, list, cmp)
  }

  /** Two linked classes joined across a bridge make a linked class. */
  lemma {:induction false} JoinedLinked(x: seq<Entry>, y: seq<Entry>, list: seq<Entry>, cmp: Comparator)
    requires Bridged(list, x, y, cmp)
    requires |x| >= 2 ==> forall i :: 0 <= i < |x| ==> HasPartner(x, i, list, cmp)
    requires |y| >= 2 ==> forall i :: 0 <= i < |y| ==> HasPartner(y, i, list, cmp)
    ensures forall i :: 0 <= i < |x + y| ==> HasPartner(x + y, i, list, cmp)
  {
    var bi, bk :| 0 <= bi < |x| && 0 <= bk < |y| && Witnessed(list, x[bi], y[bk], cmp);
    var w := x + y;
    forall i | 0 <= i < |w|
      ensures HasPartner(w, i, list, cmp)
    {
      if i < |x| {
        assert w[i] == x[i];
        if |x| >= 2 {
          assert HasPartner(x, i, list, cmp);
          var l :| 0 <= l < |x| && l != i && Witnessed(list, x[i], x[l], cmp);
          assert w[l] == x[l];
        } else {
          assert i == bi && w[|x| + bk] == y[bk];
        }
      } else {
        var i' := i - |x|;
        assert w[i] == y[i'];
        if |y| >= 2 {
          assert HasPartner(y, i', list, cmp);
          var l :| 0 <= l < |y| && l != i' && Witnessed(list, y[i'], y[l], cmp);
          assert w[|x| + l] == y[l];
        } else {
          assert i' == bk && w[bi] == x[bi];
          WitnessedSym(list, x[bi], y[bk], cmp);
        }
      }
    }
  }

  function Delete<T>(s: seq<T>, j: nat): (r: seq<T>)
    requires j < |s|
    ensures |r| == |s| - 1
    ensures forall k :: 0 <= k < |r| ==> r[k] == if k < j then s[k] else s[k + 1]
  {
    s[..j] + s[j + 1..]
  }

  /** merge() of two bridged classes keeps every class linked. */
  lemma {:induction false} LinkedJoin(vs: seq<seq<Entry>>, a: nat, b: nat, list: seq<Entry>, cmp: Comparator)
    requires Linked(vs, list, cmp) && a < |vs| && b < |vs| && a != b
    requires Bridged(list, vs[a], vs[b], cmp)
    ensures Linked(Delete(vs[a := vs[a] + vs[b]], b), list, cmp)
  {
    JoinedLinked(vs[a], vs[b], list, cmp);
    var r := Delete(vs[a := vs[a] + vs[b]], b);
    forall k, i | 0 <= k < |r| && 0 <= i < |r[k]| && |r[k]| >= 2
      ensures HasPartner(r[k], i, list, cmp)
    {
      var src := if k < b then k else k + 1;
      if src != a {
        assert r[k] == vs[src];
      }
    }
  }

  function Reverse<T>(s: seq<T>): (r: seq<T>)
    ensures |r| == |s|
  {
    if s == [] then [] else [s[|s| - 1]] + Reverse(s[..|s| - 1])
  }

  lemma {:induction false} ReverseAt<T>(s: seq<T>, k: nat)
    requires k < |s|
    ensures Reverse(s)[k] == s[|s| - 1 - k]
  {
    if k > 0 {
      ReverseAt(s[..|s| - 1], k - 1);
    }
  }

  /** The order of the classes does not matter to Linked. */
  lemma {:induction false} LinkedReverse(vs: seq<seq<Entry>>, list: seq<Entry>, cmp: Comparator)
    requires Linked(vs, list, cmp)
    ensures Linked(Reverse(vs), list, cmp)
  {
    var r := Reverse(vs);
    forall k, i | 0 <= k < |r| && 0 <= i < |r[k]| && |r[k]| >= 2
      ensures HasPartner(r[k], i, list, cmp)
    {
      ReverseAt(vs, k);
    }
  }

  /** Every seeding class is linked: its members matched the seed, and the seed matched them. */
  lemma {:induction false} SeedingLinked(s: seq<Entry>, list: seq<Entry>, cmp: Comparator)
    ensures Linked(SeedClasses(s, cmp), list, cmp)
  {
    var cs := SeedClasses(s, cmp);
    forall k, i | 0 <= k < |cs| && 0 <= i < |cs[k]| && |cs[k]| >= 2
      ensures HasPartner(cs[k], i, list, cmp)
    {
      if i == 0 {
        SeedingMembersMatchSeed(s, cmp, k, 1);
        assert Justified(cs[k][0], cs[k][1], cmp);
      } else {
        SeedingMembersMatchSeed(s, cmp, k, i);
        assert Justified(cs[k][i], cs[k][0], cmp);
      }
    }
  }
}
