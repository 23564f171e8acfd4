/**
 * The pattern classifier of src/alg/classify.c: classes of pattern nodes,
 * the seeding pass, the merge pass with its resume cursors and retries, the
 * final tagging, the single-page and multipage drivers, and the dictionary
 * flags computed from the tags.
 *
 * The C structures are linked lists; here the Classification keeps its nodes
 * in global creation order (the global_next chain) and its classes in list
 * order (the next_class chain), each class holding the node indices of its
 * own chain.  A class's resume cursor (compare_start_trick) is an offset into
 * the chain of the class currently being merged into.
 */
module Classify {
  import opened ClassifyCache
  import opened ClassifySpec
  import opened ClassifyCompare

  /** A ClassNode: the pattern it stands for and the tag put_tags writes. */
  datatype Node = Node(entry: Entry, tag: int)

  /** A Class: its chain of nodes (first to last), resume cursor and count. */
  datatype ClassRec = ClassRec(members: seq<nat>, trick: nat, count: int)

  function Range(n: nat): seq<nat>
  {
    if n == 0 then [] else Range(n - 1) + [n - 1]
  }

  /** All node indices of all classes, class after class. */
  function Flatten(cs: seq<ClassRec>): seq<nat>
  {
    if cs == [] then [] else cs[0].members + Flatten(cs[1..])
  }

  /** c1 after merge() appended c2's chain to it. */
  function Joined(c1: ClassRec, c2: ClassRec): ClassRec
  {
    if c2.members == [] then c1 else ClassRec(c1.members + c2.members, c1.trick, c1.count + c2.count)
  }

  predicate AllBelow(ms: seq<nat>, n: nat)
  {
    forall k :: 0 <= k < |ms| ==> ms[k] < n
  }

  predicate WellFormed(c: ClassRec, n: nat)
  {
    c.count == |c.members| && AllBelow(c.members, n)
  }

  predicate AllWellFormed(cs: seq<ClassRec>, n: nat)
  {
    forall k :: 0 <= k < |cs| ==> WellFormed(cs[k], n)
  }

  lemma {:induction false} WellFormedDelete(cs: seq<ClassRec>, n: nat, j: nat)
    requires AllWellFormed(cs, n) && j < |cs|
    ensures AllWellFormed(Delete(cs, j), n)
  {
    forall k | 0 <= k < |Delete(cs, j)|
      ensures WellFormed(Delete(cs, j)[k], n)
    {
      assert Delete(cs, j)[k] == if k < j then cs[k] else cs[k + 1];
    }
  }

  lemma {:induction false} WellFormedJoin(cs: seq<ClassRec>, n: nat, i: nat, j: nat)
    requires AllWellFormed(cs, n) && i < |cs| && j < |cs| && i != j
    ensures AllWellFormed(Delete(cs[i := Joined(cs[i], cs[j])], j), n)
  {
    var joined := Joined(cs[i], cs[j]);
    assert WellFormed(cs[i], n) && WellFormed(cs[j], n);
    assert WellFormed(joined, n);
    WellFormedDelete(cs[i := joined], n, j);
  }

  /** The pattern entries along a chain of node indices. */
  function EntriesOf(ns: seq<Node>, ms: seq<nat>): (r: seq<Entry>)
    requires AllBelow(ms, |ns|)
    ensures |r| == |ms|
  {
    if ms == [] then [] else [ns[ms[0]].entry] + EntriesOf(ns, ms[1..])
  }

  lemma {:induction false} EntriesOfAt(ns: seq<Node>, ms: seq<nat>, k: nat)
    requires AllBelow(ms, |ns|) && k < |ms|
    ensures EntriesOf(ns, ms)[k] == ns[ms[k]].entry
  {
    if k > 0 {
      EntriesOfAt(ns, ms[1..], k - 1);
    }
  }

  /** The entries of all nodes, in creation order. */
  function NodeEntries(ns: seq<Node>): (r: seq<Entry>)
    ensures |r| == |ns|
  {
    if ns == [] then [] else NodeEntries(ns[..|ns| - 1]) + [ns[|ns| - 1].entry]
  }

  /** The classes seen as lists of pattern entries. */
  function Views(ns: seq<Node>, cs: seq<ClassRec>): (r: seq<seq<Entry>>)
    requires forall k :: 0 <= k < |cs| ==> AllBelow(cs[k].members, |ns|)
    ensures |r| == |cs|
  {
    if cs == [] then [] else [EntriesOf(ns, cs[0].members)] + Views(ns, cs[1..])
  }

  lemma {:induction false} AppendAssoc<T>(a: seq<T>, b: seq<T>, c: seq<T>)
    ensures (a + b) + c == a + (b + c)
  {
  }

  lemma {:induction false} FlattenConcat(a: seq<ClassRec>, b: seq<ClassRec>)
    ensures Flatten(a + b) == Flatten(a) + Flatten(b)
  {
    if a != [] {
      assert (a + b)[1..] == a[1..] + b;
      FlattenConcat(a[1..], b);
    } else {
      assert a + b == b;
    }
  }

  /** Flatten only looks at the chains. */
  lemma {:induction false} FlattenSameMembers(a: seq<ClassRec>, b: seq<ClassRec>)
    requires |a| == |b| && forall k :: 0 <= k < |a| ==> a[k].members == b[k].members
    ensures Flatten(a) == Flatten(b)
  {
    if a != [] {
      FlattenSameMembers(a[1..], b[1..]);
    }
  }

  lemma {:induction false} FlattenAt(cs: seq<ClassRec>, i: nat)
    requires i < |cs|
    ensures Flatten(cs) == Flatten(cs[..i]) + cs[i].members + Flatten(cs[i + 1..])
  {
    assert cs == cs[..i] + ([cs[i]] + cs[i + 1..]);
    FlattenConcat(cs[..i], [cs[i]] + cs[i + 1..]);
    assert ([cs[i]] + cs[i + 1..])[1..] == cs[i + 1..];
  }

  /** Appending a node to one chain adds exactly that node. */
  lemma {:induction false} FlattenAppend(cs: seq<ClassRec>, i: nat, x: nat, c: ClassRec)
    requires i < |cs| && c.members == cs[i].members + [x]
    ensures multiset(Flatten(cs[i := c])) == multiset(Flatten(cs)) + multiset{x}
  {
    FlattenAt(cs, i);
    FlattenAt(cs[i := c], i);
    assert cs[i := c][..i] == cs[..i];
    assert cs[i := c][i + 1..] == cs[i + 1..];
  }

  /** Deleting a chain removes exactly its nodes. */
  lemma {:induction false} FlattenDelete(cs: seq<ClassRec>, j: nat)
    requires j < |cs|
    ensures multiset(Flatten(Delete(cs, j))) + multiset(cs[j].members) == multiset(Flatten(cs))
  {
    FlattenAt(cs, j);
    FlattenConcat(cs[..j], cs[j + 1..]);
  }

  lemma {:induction false} MultisetCancel(a: multiset<nat>, b: multiset<nat>, c: multiset<nat>)
    requires a + c == b + c
    ensures a == b
  {
    assert forall x :: a[x] == (a + c)[x] - c[x];
  }

  /** Joining chain j onto chain i adds exactly the nodes of chain j. */
  lemma {:induction false} FlattenJoinAt(cs: seq<ClassRec>, i: nat, j: nat)
    requires i < |cs| && j < |cs|
    ensures multiset(Flatten(cs[i := Joined(cs[i], cs[j])])) == multiset(Flatten(cs)) + multiset(cs[j].members)
  {
    var cs' := cs[i := Joined(cs[i], cs[j])];
    FlattenAt(cs', i);
    FlattenAt(cs, i);
    assert cs'[..i] == cs[..i];
    assert cs'[i + 1..] == cs[i + 1..];
    assert cs'[i].members == cs[i].members + cs[j].members;
  }

  /** merge() moves nodes between chains and loses none. */
  lemma {:induction false} FlattenJoin(cs: seq<ClassRec>, i: nat, j: nat)
    requires i < |cs| && j < |cs| && i != j
    ensures multiset(Flatten(Delete(cs[i := Joined(cs[i], cs[j])], j))) == multiset(Flatten(cs))
  {
    var cs' := cs[i := Joined(cs[i], cs[j])];
    FlattenDelete(cs', j);
    FlattenJoinAt(cs, i, j);
    assert cs'[j] == cs[j];
    MultisetCancel(multiset(Flatten(Delete(cs', j))), multiset(Flatten(cs)), multiset(cs[j].members));
  }

  lemma {:induction false} RangeCount(n: nat, x: nat)
    ensures multiset(Range(n))[x] == if x < n then 1 else 0
  {
    if n > 0 {
      RangeCount(n - 1, x);
    }
  }

  lemma {:induction false} InFlatten(cs: seq<ClassRec>, k: nat, m: nat)
    requires k < |cs| && m in cs[k].members
    ensures m in Flatten(cs)
  {
    FlattenAt(cs, k);
  }

  /** In a partition no node sits in two classes. */
  lemma {:induction false} PartitionDisjoint(cs: seq<ClassRec>, n: nat, k1: nat, k2: nat, m: nat)
    requires multiset(Flatten(cs)) == multiset(Range(n))
    requires k1 < |cs| && k2 < |cs| && k1 != k2 && m in cs[k1].members
    ensures m !in cs[k2].members
  {
    if m in cs[k2].members {
      var lo, hi := if k1 < k2 then k1 else k2, if k1 < k2 then k2 else k1;
      FlattenAt(cs, hi);
      assert cs[..hi][lo] == cs[lo];
      InFlatten(cs[..hi], lo, m);
      assert multiset(Flatten(cs[..hi]))[m] >= 1;
      assert multiset(cs[hi].members)[m] >= 1;
      assert multiset(Flatten(cs))[m] >= 2;
      RangeCount(n, m);
    }
  }

  /** In a partition no chain holds a node twice. */
  lemma {:induction false} PartitionNoDuplicate(cs: seq<ClassRec>, n: nat, k: nat, i: nat, j: nat)
    requires multiset(Flatten(cs)) == multiset(Range(n))
    requires k < |cs| && i < j < |cs[k].members|
    ensures cs[k].members[i] != cs[k].members[j]
  {
    var ms := cs[k].members;
    var x := ms[j];
    if ms[i] == x {
      assert ms == ms[..j] + ms[j..];
      assert ms[..j][i] == x;
      assert multiset(ms[..j])[x] >= 1;
      assert ms[j..][0] == x;
      assert multiset(ms[j..])[x] >= 1;
      assert multiset(ms)[x] >= 2;
      FlattenAt(cs, k);
      assert multiset(Flatten(cs))[x] >= 2;
      RangeCount(n, x);
    }
  }

  lemma {:induction false} EntriesOfPrefix(ns: seq<Node>, ext: seq<Node>, ms: seq<nat>)
    requires AllBelow(ms, |ns|)
    ensures AllBelow(ms, |ns + ext|) && EntriesOf(ns + ext, ms) == EntriesOf(ns, ms)
  {
    if ms != [] {
      EntriesOfPrefix(ns, ext, ms[1..]);
    }
  }

  /** The merge-pass step `c = c->next_class` followed by the loop test `c->next_class != NULL`. */
  datatype Step = Continue(next: nat) | Finish | NullDereference

  /**
   * The step as written (classify.c lines 334 and 390): when the class just
   * processed absorbed every class after it, c becomes NULL and the loop test
   * dereferences it.
   */
  function AdvanceAsWritten(ci: nat, count: nat): (r: Step)
    ensures r == NullDereference <==> count <= ci + 1
  {
    if ci + 1 < count then (if ci + 2 < count then Continue(ci + 1) else Finish) else NullDereference
  }

  /** The step as intended: stop when no class follows the current one. */
  function Advance(ci: nat, count: nat): (r: Step)
    ensures r != NullDereference
    ensures r.Continue? ==> r.next == ci + 1 && r.next + 1 < count
  {
    if ci + 2 < count then Continue(ci + 1) else Finish
  }

  /** Where the source does not crash, both steps agree. */
  lemma {:induction false} AdvanceAgrees(ci: nat, count: nat)
    requires AdvanceAsWritten(ci, count) != NullDereference
    ensures AdvanceAsWritten(ci, count) == Advance(ci, count)
  {
  }

  /**
   * Three patterns A, B, C at positions 0, 1, 2 with a symmetric comparator
   * that finds A unlike B but C like both: seeding builds {A, C} and {B};
   * the merge pass, processing {B} first (classes are prepended), resolves
   * the pair (C, B) through the comparator, merges, and leaves {B} with no
   * class after it, so the step as written dereferences NULL.
   */
  lemma {:induction false} CrashScenario()
    ensures var cmp: Comparator := (a: nat, b: nat, d: int) => if (a == 0 && b == 1) || (a == 1 && b == 0) then 0 else 1;
            var A, B, C := Entry(0, 0, 300), Entry(1, 1, 300), Entry(2, 2, 300);
            SeedClasses([A, B, C], cmp) == [[A, C], [B]] &&
            Verdict(CmpValues(C, [B], cmp)) == 1 &&
            AdvanceAsWritten(0, 1) == NullDereference && Advance(0, 1) == Finish
  {
    var cmp: Comparator := (a: nat, b: nat, d: int) => if (a == 0 && b == 1) || (a == 1 && b == 0) then 0 else 1;
    var A, B, C := Entry(0, 0, 300), Entry(1, 1, 300), Entry(2, 2, 300);
    assert [A, B, C][1..] == [B, C];
    assert [B, C][1..] == [C];
    assert Absorbed(A, [B, C], cmp) == [C];
    assert Kept(A, [B, C], cmp) == [B];
    assert Absorbed(B, [], cmp) == [] && Kept(B, [], cmp) == [];
    assert [B][1..] == [];
    assert SeedClasses([B], cmp) == [[B]];
    assert SeedClasses([A, B, C], cmp) == [[A] + [C]] + SeedClasses([B], cmp);
    assert [A] + [C] == [A, C];
    assert [[A, C]] + [[B]] == [[A, C], [B]];
    assert CmpValues(C, [B], cmp) == [1];
  }

  /** A Classification: classes in list order and nodes in creation order. */
  class Classification {
    var classes: seq<ClassRec>
    var nodes: seq<Node>

    ghost predicate Valid()
      reads this
    {
      AllWellFormed(classes, |nodes|)
    }

    /** Every node sits in exactly one class. */
    ghost predicate Partitioned()
      reads this
    {
      multiset(Flatten(classes)) == multiset(Range(|nodes|))
    }

    ghost predicate NonEmpty()
      reads this
    {
      forall k :: 0 <= k < |classes| ==> |classes[k].members| >= 1
    }

    /** A well-formed partition into non-empty classes of nodes drawn from list, with ids the cache can hold. */
    ghost predicate Shape(list: seq<Entry>, cache: Cache?)
      reads this
    {
      Valid() && Partitioned() && NonEmpty() &&
      (forall m :: 0 <= m < |nodes| ==> nodes[m].entry in list) &&
      (cache != null ==> forall m :: 0 <= m < |nodes| ==> nodes[m].entry.id < cache.size)
    }

    /** Shape, except that the newest class may still be empty (a seeding round under way). */
    ghost predicate Opening(list: seq<Entry>, cache: Cache?)
      reads this
    {
      Valid() && Partitioned() && |classes| >= 1 &&
      (forall k :: 1 <= k < |classes| ==> |classes[k].members| >= 1) &&
      (forall m :: 0 <= m < |nodes| ==> nodes[m].entry in list) &&
      (cache != null ==> forall m :: 0 <= m < |nodes| ==> nodes[m].entry.id < cache.size)
    }

    /** init_classification */
    constructor ()
      ensures classes == [] && nodes == []
      ensures Valid() && Partitioned()
    {
      classes := [];
      nodes := [];
    }

    /** new_class: an empty class linked in front. */
    method NewClass()
      requires Valid()
      modifies this
      ensures classes == [ClassRec([], 0, 0)] + old(classes) && nodes == old(nodes)
      ensures Valid() && (old(Partitioned()) ==> Partitioned())
    {
      classes := [ClassRec([], 0, 0)] + classes;
      assert Flatten(classes) == Flatten(old(classes));
    }

    /** new_node: a node for entry e appended to class ci and to the global chain. */
    method NewNode(ci: nat, e: Entry)
      requires Valid() && ci < |classes|
      modifies this
      ensures nodes == old(nodes) + [Node(e, 0)]
      ensures classes == old(classes)[ci := ClassRec(old(classes[ci].members) + [|old(nodes)|],
                                                     old(classes[ci].trick), old(classes[ci].count) + 1)]
      ensures Valid() && (old(Partitioned()) ==> Partitioned())
    {
      var c := classes[ci];
      var c' := ClassRec(c.members + [|nodes|], c.trick, c.count + 1);
      FlattenAppend(classes, ci, |nodes|, c');
      classes := classes[ci := c'];
      nodes := nodes + [Node(e, 0)];
    }

    /** delete_class: unlink class j (its nodes stay). */
    method DeleteClass(j: nat)
      requires Valid() && j < |classes|
      modifies this
      ensures classes == Delete(old(classes), j) && nodes == old(nodes)
      ensures Valid()
      ensures multiset(Flatten(classes)) + multiset(old(classes[j].members)) == multiset(Flatten(old(classes)))
    {
      FlattenDelete(classes, j);
      WellFormedDelete(classes, |nodes|, j);
      classes := Delete(classes, j);
    }

    /** merge(c1, c2): append c2's chain to c1 and delete c2; an empty c1 is deleted instead. */
    method Merge(i: nat, j: nat) returns (kept: nat)
      requires Valid() && i < |classes| && j < |classes| && i != j
      modifies this
      ensures nodes == old(nodes) && Valid()
      ensures old(classes[i].members) == [] ==>
                classes == Delete(old(classes), i) && kept == (if j < i then j else j - 1)
      ensures old(classes[i].members) != [] ==>
                classes == Delete(old(classes)[i := Joined(old(classes[i]), old(classes[j]))], j) &&
                kept == (if i < j then i else i - 1)
      ensures old(Partitioned()) ==> Partitioned()
    {
      if classes[i].members == [] {
        FlattenDelete(classes, i);
        WellFormedDelete(classes, |nodes|, i);
        classes := Delete(classes, i);
        kept := if j < i then j else j - 1;
        return;
      }
      FlattenJoin(classes, i, j);
      WellFormedJoin(classes, |nodes|, i, j);
      classes := Delete(classes[i := Joined(classes[i], classes[j])], j);
      kept := if i < j then i else i - 1;
    }

    /** The pattern invariant of a classification under construction. */
    ghost predicate Inv(list: seq<Entry>, cache: Cache?, cmp: Comparator)
      reads this, CacheFrame(cache)
    {
      Shape(list, cache) && CacheSound(cache, list, cmp)
    }

    /**
     * The inner loop of one seeding round: the class just created for seed
     * takes every pattern of rest that matches the seed (each as a new node
     * at the end of the node chain); the others are kept, in order.
     */
    method SeedFrom(seed: Entry, rest: seq<Entry>, list: seq<Entry>, cmp: Comparator, cache: Cache?)
        returns (kept: seq<Entry>)
      requires Inv(list, cache, cmp) && |classes| >= 1 && seed in list
      requires forall e :: e in rest ==> e in list
      requires cache != null ==> seed.id < cache.size && forall e :: e in list ==> e.id < cache.size
      modifies this, CacheBuf(cache)
      ensures Inv(list, cache, cmp)
      ensures |classes| == |old(classes)| && classes[1..] == old(classes[1..])
      ensures nodes == old(nodes) + Wrap(Absorbed(seed, rest, cmp))
      ensures classes[0].members == old(classes[0].members) + Span(|old(nodes)|, |nodes|)
      ensures kept == Kept(seed, rest, cmp)
    {
      ghost var ns0 := nodes;
      ghost var m0 := classes[0].members;
      ghost var others := classes[1..];
      ghost var count := |classes|;
      kept := [];
      var todo := rest;
      ghost var taken: seq<Entry> := [];
      while todo != []
        invariant Shape(list, cache) && CacheSound(cache, list, cmp)
        invariant forall e :: e in todo ==> e in list
        invariant |classes| == count && classes[1..] == others
        invariant nodes == ns0 + Wrap(taken)
        invariant classes[0].members == m0 + Span(|ns0|, |nodes|)
        invariant taken + Absorbed(seed, todo, cmp) == Absorbed(seed, rest, cmp)
        invariant kept + Kept(seed, todo, cmp) == Kept(seed, rest, cmp)
      {
        var q := todo[0];
        ghost var before := nodes;
        ghost var members := classes[0].members;
        var took := SeedStep(seed, q, list, cmp, cache);
        var t := todo[1..];
        SplitStep(seed, todo, taken, kept, cmp);
        if took {
          TakeStep(ns0, m0, taken, q, before, members, nodes, classes[0].members);
          taken := taken + [q];
        } else {
          kept := kept + [q];
        }
        todo := t;
      }
      assert taken == Absorbed(seed, rest, cmp);
    }

    /**
     * One comparison of the seeding pass: q is compared with the seed, the
     * result is stored in the cache, and on MATCH q joins the newest class.
     */
    method SeedStep(seed: Entry, q: Entry, list: seq<Entry>, cmp: Comparator, cache: Cache?) returns (took: bool)
      requires Shape(list, cache) && CacheSound(cache, list, cmp) && |classes| >= 1
      requires seed in list && q in list
      requires cache != null ==> seed.id < cache.size && q.id < cache.size
      modifies this, CacheBuf(cache)
      ensures Shape(list, cache) && CacheSound(cache, list, cmp)
      ensures took <==> cmp(seed.pos, q.pos, seed.dpi) == 1
      ensures |classes| == |old(classes)| && classes[1..] == old(classes[1..])
      ensures took ==> nodes == old(nodes) + [Node(q, 0)] &&
                       classes[0].members == old(classes[0].members) + [|old(nodes)|]
      ensures !took ==> nodes == old(nodes) && classes == old(classes)
    {
      var res := cmp(seed.pos, q.pos, seed.dpi);
      RecordResult(cache, seed, q, res, list, cmp);
      took := res == 1;
      if took {
        Take(q, list, cache);
      }
    }

    /** new_node for a pattern joining the newest class during seeding. */
    method Take(q: Entry, ghost list: seq<Entry>, ghost cache: Cache?)
      requires Opening(list, cache) && q in list
      requires cache != null ==> q.id < cache.size
      modifies this
      ensures Shape(list, cache)
      ensures |classes| == |old(classes)| && classes[1..] == old(classes[1..])
      ensures nodes == old(nodes) + [Node(q, 0)]
      ensures classes[0].members == old(classes[0].members) + [|old(nodes)|]
    {
      NewNode(0, q);
    }

    /**
     * The state between two rounds of the seeding pass: the classes built so
     * far (newest first) are the first classes of the reference seeding of
     * list, and every pattern is either in a node or still pending.
     */
    ghost predicate Seeding(list: seq<Entry>, pending: seq<Entry>, built: seq<seq<Entry>>, cache: Cache?, cmp: Comparator)
      reads this, CacheFrame(cache)
    {
      Inv(list, cache, cmp) &&
      (forall e :: e in pending ==> e in list) &&
      built + SeedClasses(pending, cmp) == SeedClasses(list, cmp) &&
      Views(nodes, classes) == Reverse(built) &&
      multiset(NodeEntries(nodes)) + multiset(pending) == multiset(list)
    }

    /**
     * One round of the seeding pass: a new class in front, seeded by the
     * first pending pattern, holding it and every later pending pattern that
     * matches it; the others stay pending.
     */
    method SeedRound(pending: seq<Entry>, ghost built: seq<seq<Entry>>, list: seq<Entry>, cmp: Comparator, cache: Cache?)
        returns (kept: seq<Entry>, ghost built': seq<seq<Entry>>)
      requires pending != [] && Seeding(list, pending, built, cache, cmp)
      requires cache != null ==> forall e :: e in list ==> e.id < cache.size
      modifies this, CacheBuf(cache)
      ensures Seeding(list, kept, built', cache, cmp)
      ensures built' == built + [[pending[0]] + Absorbed(pending[0], pending[1..], cmp)]
      ensures kept == Kept(pending[0], pending[1..], cmp)
    {
      var seed := pending[0];
      var rest := pending[1..];
      ghost var ns0 := nodes;
      ghost var cs0 := classes;
      NewClass();
      Take(seed, list, cache);
      kept := SeedFrom(seed, rest, list, cmp, cache);
      RoundFacts(ns0, cs0, seed, Absorbed(seed, rest, cmp), nodes, classes);
      SeedAdvance(list, built, pending, cmp, Views(ns0, cs0), Views(nodes, classes), NodeEntries(ns0), NodeEntries(nodes));
      built' := built + [[seed] + Absorbed(seed, rest, cmp)];
    }

    /**
     * The seeding pass of classify(): each pattern still in the list seeds a
     * new class, is compared with every later pattern left (storing each
     * result in the cache), and takes the ones that MATCH out of the list.
     */
    method Seed(list: seq<Entry>, cmp: Comparator, cache: Cache?)
      requires classes == [] && nodes == []
      requires cache != null ==> cache.Valid() && forall e :: e in list ==> e.id < cache.size
      requires CacheSound(cache, list, cmp)
      modifies this, CacheBuf(cache)
      ensures Inv(list, cache, cmp)
      ensures Views(nodes, classes) == Reverse(SeedClasses(list, cmp))
      ensures multiset(NodeEntries(nodes)) == multiset(list)
    {
      var pending := list;
      ghost var built: seq<seq<Entry>> := [];
      assert Views(nodes, classes) == [] == Reverse(built) && NodeEntries(nodes) == [];
      assert Seeding(list, pending, built, cache, cmp);
      while pending != []
        invariant Seeding(list, pending, built, cache, cmp)
        decreases |pending|
      {
        pending, built := SeedRound(pending, built, list, cmp, cache);
      }
      assert SeedClasses(pending, cmp) == [] && built + [] == built;
      assert multiset(pending) == multiset{};
    }

    /** The state the merge phase keeps: a good partition of nodes that fit the list and the cache, and a sound cache. */
    ghost predicate Sound(list: seq<Entry>, cache: Cache?, cmp: Comparator)
      reads this, CacheFrame(cache)
    {
      Good(nodes, classes, list, cmp) && NodesFit(nodes, list, cache) && CacheSound(cache, list, cmp)
    }

    /** Every class after c (index ci) resumes inside c's chain. */
    ghost predicate Cursors(ci: nat)
      reads this
      requires ci < |classes|
    {
      forall j :: ci < j < |classes| ==> classes[j].trick < |classes[ci].members|
    }

    /** The loop before the do-while: every class after c resumes from c->first. */
    method ResetCursors(ci: nat, ghost list: seq<Entry>, ghost cache: Cache?, ghost cmp: Comparator)
      requires Sound(list, cache, cmp) && ci < |classes|
      modifies this
      ensures Sound(list, cache, cmp) && ci < |classes| && Cursors(ci)
      ensures nodes == old(nodes) && |classes| == |old(classes)|
      ensures forall j :: 0 <= j < |classes| ==> classes[j] == if j <= ci then old(classes[j]) else old(classes[j]).(trick := 0)
    {
      ghost var cs0 := classes;
      var j := ci + 1;
      while j < |classes|
        invariant ci < j <= |classes| == |cs0| && nodes == old(nodes)
        invariant forall l :: 0 <= l < |classes| ==> classes[l] == if l <= ci || l >= j then cs0[l] else cs0[l].(trick := 0)
      {
        classes := classes[j := classes[j].(trick := 0)];
        j := j + 1;
      }
      SameChains(nodes, cs0, classes, list, cmp);
      assert |cs0[ci].members| >= 1;
    }

    /** A class that failed the merge test resumes from c->last next time. */
    method SetCursor(ci: nat, j: nat, ghost list: seq<Entry>, ghost cache: Cache?, ghost cmp: Comparator)
      requires Sound(list, cache, cmp) && ci < j < |classes| && Cursors(ci)
      modifies this
      ensures Sound(list, cache, cmp) && ci < |classes| && Cursors(ci)
      ensures nodes == old(nodes)
      ensures classes == old(classes)[j := old(classes[j]).(trick := |old(classes[ci].members)| - 1)]
    {
      ghost var cs0 := classes;
      classes := classes[j := classes[j].(trick := |classes[ci].members| - 1)];
      SameChains(nodes, cs0, classes, list, cmp);
    }

    /** merge(c, next_c) for two bridged classes: the merged class stays at ci and is linked. */
    method Join(ci: nat, j: nat, ghost list: seq<Entry>, ghost cache: Cache?, ghost cmp: Comparator)
      requires Sound(list, cache, cmp) && ci < j < |classes| && Cursors(ci)
      requires Bridged(list, EntriesOf(nodes, classes[ci].members), EntriesOf(nodes, classes[j].members), cmp)
      modifies this
      ensures Sound(list, cache, cmp) && ci < |classes| && Cursors(ci)
      ensures nodes == old(nodes)
      ensures classes == Delete(old(classes)[ci := Joined(old(classes[ci]), old(classes[j]))], j)
    {
      ghost var cs0 := classes;
      GoodJoin(nodes, classes, ci, j, list, cmp);
      var kept := Merge(ci, j);
    }

    /**
     * The merge test of c (index ci) against next_c (index j): c's side is
     * its chain from next_c's resume cursor on, next_c's side its whole
     * chain (TestChains).
     */
    method MergeTest(ci: nat, j: nat, level: int, list: seq<Entry>, cmp: Comparator, cache: Cache?) returns (need: bool)
      requires Sound(list, cache, cmp) && ci < j < |classes| && classes[j].trick <= |classes[ci].members|
      modifies CacheBuf(cache)
      ensures CacheSound(cache, list, cmp)
      ensures need ==> Bridged(list, EntriesOf(nodes, classes[ci].members), EntriesOf(nodes, classes[j].members), cmp)
      ensures cache == null ==>
                var tail := EntriesOf(nodes, classes[ci].members[classes[j].trick..]);
                var whole := EntriesOf(nodes, classes[j].members);
                var first := classes[ci].count >= classes[j].count;
                need == ((if first then Hit(tail, whole, cmp) else Hit(whole, tail, cmp)) ||
                         (level > 2 && if first then Hit(whole, tail, cmp) else Hit(tail, whole, cmp)))
    {
      var c := classes[ci];
      var n := classes[j];
      assert WellFormed(c, |nodes|) && WellFormed(n, |nodes|);
      EntriesOfSuffix(nodes, c.members, n.trick);
      var tail := EntriesOf(nodes, c.members[n.trick..]);
      var whole := EntriesOf(nodes, n.members);
      ChainFacts(nodes, c.members[n.trick..], list, cache);
      ChainFacts(nodes, n.members, list, cache);
      need := TestChains(tail, whole, c.count >= n.count, level, list, cmp, cache);
      if need {
        BridgedFromTail(list, EntriesOf(nodes, c.members), n.trick, whole, cmp);
      }
    }

    /**
     * One round of the do-while of classify(): every class after c (index
     * ci) is checked against c; one that passes is merged into c (c keeps its
     * place and the next class moves up), one that fails gets the resume
     * cursor c->last.  The scan always runs to the end of the list (the
     * recheck bound is declared afresh in each round and so is always NULL).
     */
    method Pass(ci: nat, level: int, list: seq<Entry>, cmp: Comparator, cache: Cache?) returns (changed: bool)
      requires Sound(list, cache, cmp) && ci < |classes| && Cursors(ci)
      modifies this, CacheBuf(cache)
      ensures Sound(list, cache, cmp) && ci < |classes| && Cursors(ci)
      ensures nodes == old(nodes) && |classes| <= |old(classes)|
      ensures changed <==> |classes| < |old(classes)|
      ensures !changed ==> forall j :: ci < j < |classes| ==> classes[j].trick == |classes[ci].members| - 1
    {
      ghost var count := |classes|;
      changed := false;
      var j := ci + 1;
      while j < |classes|
        invariant Sound(list, cache, cmp) && ci < j <= |classes| <= count && Cursors(ci)
        invariant nodes == old(nodes)
        invariant changed <==> |classes| < count
        invariant !changed ==> forall l :: ci < l < j ==> classes[l].trick == |classes[ci].members| - 1
        decreases |classes| - j
      {
        var need := MergeTest(ci, j, level, list, cmp, cache);
        if need {
          Join(ci, j, list, cache, cmp);
          changed := true;
        } else {
          SetCursor(ci, j, list, cache, cmp);
          j := j + 1;
        }
      }
    }

    /**
     * The work classify() does for one class c (index ci): the cursors of
     * all later classes are reset to c->first, then rounds run; at level 1
     * there is exactly one round, at higher levels rounds repeat until one
     * merges nothing, so that in the end every later class failed its test
     * in a full round against the final c.  rounds counts the rounds and
     * quiet says the last one merged nothing (ghost).
     */
    method ProcessClass(ci: nat, level: int, list: seq<Entry>, cmp: Comparator, cache: Cache?)
      returns (ghost rounds: nat, ghost quiet: bool)
      requires Sound(list, cache, cmp) && ci < |classes|
      modifies this, CacheBuf(cache)
      ensures Sound(list, cache, cmp) && ci < |classes|
      ensures nodes == old(nodes) && |classes| <= |old(classes)|
      ensures rounds >= 1 && (level <= 1 ==> rounds == 1)
      ensures level > 1 ==> quiet
      ensures quiet ==> forall j :: ci < j < |classes| ==> classes[j].trick == |classes[ci].members| - 1
    {
      ResetCursors(ci, list, cache, cmp);
      var changed := Pass(ci, level, list, cmp, cache);
      rounds := 1;
      while level > 1 && changed
        invariant Sound(list, cache, cmp) && ci < |classes| && Cursors(ci)
        invariant nodes == old(nodes) && |classes| <= |old(classes)|
        invariant rounds >= 1 && (level <= 1 ==> rounds == 1)
        invariant !changed ==> forall j :: ci < j < |classes| ==> classes[j].trick == |classes[ci].members| - 1
        decreases |classes| + (if changed then 1 else 0)
      {
        changed := Pass(ci, level, list, cmp, cache);
        rounds := rounds + 1;
      }
      quiet := !changed;
    }

    /**
     * The merge phase of classify(): c walks the class list from the front
     * (the newest class) and each c is processed against the classes after
     * it.  The walk stops when c has no class after it (Advance; the
     * source's own step is AdvanceAsWritten), so every class that has a
     * class after it is processed.  rounds[k] and quiet[k] are the round
     * count and the last-round flag of the k-th processed class (ghost).
     */
    method MergePhase(level: int, list: seq<Entry>, cmp: Comparator, cache: Cache?)
      returns (ghost rounds: seq<nat>, ghost quiet: seq<bool>)
      requires Sound(list, cache, cmp) && |classes| >= 1
      modifies this, CacheBuf(cache)
      ensures Sound(list, cache, cmp) && |classes| >= 1
      ensures nodes == old(nodes)
      ensures |rounds| == |quiet| <= |classes| <= |rounds| + 1
      ensures forall k :: 0 <= k < |rounds| ==> rounds[k] >= 1 && (level <= 1 ==> rounds[k] == 1)
      ensures level > 1 ==> forall k :: 0 <= k < |quiet| ==> quiet[k]
    {
      rounds, quiet := [], [];
      var ci: nat := 0;
      while ci + 1 < |classes|
        invariant Sound(list, cache, cmp) && ci < |classes|
        invariant nodes == old(nodes)
        invariant |rounds| == |quiet| == ci
        invariant forall k :: 0 <= k < |rounds| ==> rounds[k] >= 1 && (level <= 1 ==> rounds[k] == 1)
        invariant level > 1 ==> forall k :: 0 <= k < |quiet| ==> quiet[k]
        decreases |classes| - ci
      {
        ghost var r, q := ProcessClass(ci, level, list, cmp, cache);
        rounds, quiet := rounds + [r], quiet + [q];
        var step := Advance(ci, |classes|);
        if step.Continue? {
          ci := step.next;
        } else {
          break;
        }
      }
    }

    /**
     * classify(): the seeding pass builds one class per seed, then the merge
     * phase joins classes whose patterns were read MATCH.  The nodes are
     * exactly the patterns of the list, every class is linked, and every
     * cached MATCH is backed by a comparison; rounds and quiet are those of
     * the merge phase (ghost).
     */
    method Classify(list: seq<Entry>, level: int, cmp: Comparator, cache: Cache?)
      returns (ghost rounds: seq<nat>, ghost quiet: seq<bool>)
      requires classes == [] && nodes == []
      requires cache != null ==> cache.Valid() && forall e :: e in list ==> e.id < cache.size
      requires CacheSound(cache, list, cmp)
      modifies this, CacheBuf(cache)
      ensures Sound(list, cache, cmp)
      ensures multiset(NodeEntries(nodes)) == multiset(list)
      ensures list == [] <==> classes == []
      ensures |rounds| == |quiet| <= |classes| <= |rounds| + 1
      ensures forall k :: 0 <= k < |rounds| ==> rounds[k] >= 1 && (level <= 1 ==> rounds[k] == 1)
      ensures level > 1 ==> forall k :: 0 <= k < |quiet| ==> quiet[k]
    {
      rounds, quiet := [], [];
      if list == [] {
        assert Flatten(classes) == [] && Range(0) == [];
        return;
      }
      Seed(list, cmp, cache);
      SeedingLinked(list, list, cmp);
      LinkedReverse(SeedClasses(list, cmp), list, cmp);
      assert Good(nodes, classes, list, cmp);
      rounds, quiet := MergePhase(level, list, cmp, cache);
    }

    /** The nodes of class k all get tag k + 1; no other node changes. */
    method TagClass(k: nat)
      requires Valid() && k < |classes|
      modifies this
      ensures classes == old(classes) && |nodes| == |old(nodes)|
      ensures forall m :: 0 <= m < |nodes| ==> nodes[m].entry == old(nodes[m].entry)
      ensures forall m :: 0 <= m < |nodes| && m !in classes[k].members ==> nodes[m] == old(nodes[m])
      ensures forall i :: 0 <= i < |classes[k].members| ==> nodes[classes[k].members[i]].tag == k + 1
    {
      var ms := classes[k].members;
      assert WellFormed(classes[k], |nodes|);
      var i := 0;
      while i < |ms|
        invariant i <= |ms| && classes == old(classes) && |nodes| == |old(nodes)|
        invariant forall m :: 0 <= m < |nodes| ==> nodes[m].entry == old(nodes[m].entry)
        invariant forall m :: 0 <= m < |nodes| && m !in ms[..i] ==> nodes[m] == old(nodes[m])
        invariant forall i' :: 0 <= i' < i ==> nodes[ms[i']].tag == k + 1
      {
        nodes := nodes[ms[i] := nodes[ms[i]].(tag := k + 1)];
        assert ms[..i + 1] == ms[..i] + [ms[i]];
        i := i + 1;
      }
      assert ms[..i] == ms;
    }

    /** put_tags: the classes are numbered 1, 2, ... in list order and each node gets its class's number. */
    method PutTags() returns (maxTag: nat)
      requires Valid() && Partitioned()
      modifies this
      ensures maxTag == |classes| && classes == old(classes)
      ensures |nodes| == |old(nodes)| && forall m :: 0 <= m < |nodes| ==> nodes[m].entry == old(nodes[m].entry)
      ensures forall k, i :: 0 <= k < |classes| && 0 <= i < |classes[k].members| ==> nodes[classes[k].members[i]].tag == k + 1
      ensures forall m :: 0 <= m < |nodes| ==> 1 <= nodes[m].tag <= maxTag
    {
      var k := 0;
      while k < |classes|
        invariant k <= |classes| && classes == old(classes) && |nodes| == |old(nodes)|
        invariant forall m :: 0 <= m < |nodes| ==> nodes[m].entry == old(nodes[m].entry)
        invariant Valid() && Partitioned()
        invariant forall k', i :: 0 <= k' < k && 0 <= i < |classes[k'].members| ==> nodes[classes[k'].members[i]].tag == k' + 1
      {
        ghost var before := nodes;
        TagClass(k);
        forall k', i | 0 <= k' < k && 0 <= i < |classes[k'].members|
          ensures nodes[classes[k'].members[i]].tag == k' + 1
        {
          var m := classes[k'].members[i];
          PartitionDisjoint(classes, |nodes|, k', k, m);
          assert WellFormed(classes[k'], |nodes|);
          assert nodes[m] == before[m];
        }
        k := k + 1;
      }
      maxTag := k;
      forall m | 0 <= m < |nodes|
        ensures 1 <= nodes[m].tag <= maxTag
      {
        var kk, ii := NodeInSomeClass(classes, |nodes|, m);
      }
    }

    /**
     * get_tags_from_classification: the classes are tagged, then dropped;
     * r is cleared and each node's tag is written at its pattern's
     * position, node after node in creation order.
     */
    method GetTags(r: array<int>) returns (maxTag: nat)
      requires Valid() && Partitioned()
      requires forall m :: 0 <= m < |nodes| ==> nodes[m].entry.pos < r.Length
      modifies this, r
      ensures classes == [] && |nodes| == |old(nodes)|
      ensures forall m :: 0 <= m < |nodes| ==> nodes[m].entry == old(nodes[m].entry) && 1 <= nodes[m].tag <= maxTag
      ensures forall k, i :: 0 <= k < |old(classes)| && 0 <= i < |old(classes)[k].members| ==>
                nodes[old(classes)[k].members[i]].tag == k + 1
      ensures maxTag == |old(classes)|
      ensures forall p :: 0 <= p < r.Length ==> (r[p] == 0 <==> forall m :: 0 <= m < |nodes| ==> nodes[m].entry.pos != p)
      ensures DistinctPositions(nodes) ==> forall m :: 0 <= m < |nodes| ==> r[nodes[m].entry.pos] == nodes[m].tag
    {
      maxTag := PutTags();
      classes := [];
      ZeroFill(r);
      WriteTags(nodes, r);
    }
  }

  /** The memset of the result array. */
  method ZeroFill(r: array<int>)
    modifies r
    ensures forall p :: 0 <= p < r.Length ==> r[p] == 0
  {
    var p := 0;
    while p < r.Length
      invariant p <= r.Length && forall q :: 0 <= q < p ==> r[q] == 0
    {
      r[p] := 0;
      p := p + 1;
    }
  }

  /**
   * The walk along the global node chain writing r[pos] = tag: positions
   * no node stands for keep their 0, the others get a tag (the node's own
   * when no two nodes share a position).
   */
  method WriteTags(ns: seq<Node>, r: array<int>)
    requires forall m :: 0 <= m < |ns| ==> ns[m].entry.pos < r.Length && ns[m].tag >= 1
    requires forall p :: 0 <= p < r.Length ==> r[p] == 0
    modifies r
    ensures forall p :: 0 <= p < r.Length ==> (r[p] == 0 <==> forall m :: 0 <= m < |ns| ==> ns[m].entry.pos != p)
    ensures DistinctPositions(ns) ==> forall m :: 0 <= m < |ns| ==> r[ns[m].entry.pos] == ns[m].tag
  {
    var i := 0;
    while i < |ns|
      invariant i <= |ns|
      invariant forall q :: 0 <= q < r.Length && (forall m :: 0 <= m < i ==> ns[m].entry.pos != q) ==> r[q] == 0
      invariant forall m :: 0 <= m < i ==> r[ns[m].entry.pos] >= 1
      invariant DistinctPositions(ns) ==> forall m :: 0 <= m < i ==> r[ns[m].entry.pos] == ns[m].tag
    {
      r[ns[i].entry.pos] := ns[i].tag;
      i := i + 1;
    }
  }

  /** Node indices a, a+1, ..., b-1. */
  function Span(a: nat, b: nat): (r: seq<nat>)
    ensures |r| == if a <= b then b - a else 0
    decreases b
  {
    if b <= a then [] else Span(a, b - 1) + [b - 1]
  }

  lemma {:induction false} SpanAt(a: nat, b: nat, k: nat)
    requires a + k < b
    ensures Span(a, b)[k] == a + k
    decreases b
  {
    if a + k < b - 1 {
      SpanAt(a, b - 1, k);
    }
  }

  lemma {:induction false} SpanCons(a: nat, b: nat)
    requires a < b
    ensures Span(a, b) == [a] + Span(a + 1, b)
    decreases b
  {
    if a + 1 < b {
      SpanCons(a, b - 1);
      AppendAssoc([a], Span(a + 1, b - 1), [b - 1]);
    }
  }

  /** The nodes new_node creates for entries es, in order. */
  function Wrap(es: seq<Entry>): (r: seq<Node>)
    ensures |r| == |es|
  {
    if es == [] then [] else Wrap(es[..|es| - 1]) + [Node(es[|es| - 1], 0)]
  }

  lemma {:induction false} WrapAt(es: seq<Entry>, k: nat)
    requires k < |es|
    ensures Wrap(es)[k] == Node(es[k], 0)
  {
    if k < |es| - 1 {
      WrapAt(es[..|es| - 1], k);
    }
  }

  lemma {:induction false} WrapSnoc(es: seq<Entry>, x: Entry)
    ensures Wrap(es + [x]) == Wrap(es) + [Node(x, 0)]
  {
    assert (es + [x])[..|es|] == es;
  }

  lemma {:induction false} WrapCons(x: Entry, es: seq<Entry>)
    ensures Wrap([x] + es) == [Node(x, 0)] + Wrap(es)
  {
    if es == [] {
      assert [x] + es == [x];
    } else {
      var init := es[..|es| - 1];
      WrapCons(x, init);
      assert ([x] + es)[..|es|] == [x] + init;
      AppendAssoc([Node(x, 0)], Wrap(init), [Node(es[|es| - 1], 0)]);
    }
  }

  lemma {:induction false} NodeEntriesWrap(ns: seq<Node>, es: seq<Entry>)
    ensures NodeEntries(ns + Wrap(es)) == NodeEntries(ns) + es
  {
    if es == [] {
      assert ns + Wrap(es) == ns;
    } else {
      var init := es[..|es| - 1];
      NodeEntriesWrap(ns, init);
      AppendAssoc(ns, Wrap(init), [Node(es[|es| - 1], 0)]);
      assert (ns + Wrap(es))[..|ns + Wrap(es)| - 1] == ns + Wrap(init);
      AppendAssoc(NodeEntries(ns), init, [es[|es| - 1]]);
      assert init + [es[|es| - 1]] == es;
    }
  }

  /** Views of classes that only use old nodes do not change when nodes are appended. */
  lemma {:induction false} ViewsPrefix(ns: seq<Node>, ext: seq<Node>, cs: seq<ClassRec>)
    requires forall k :: 0 <= k < |cs| ==> AllBelow(cs[k].members, |ns|)
    ensures (forall k :: 0 <= k < |cs| ==> AllBelow(cs[k].members, |ns + ext|))
    ensures Views(ns + ext, cs) == Views(ns, cs)
  {
    if cs != [] {
      EntriesOfPrefix(ns, ext, cs[0].members);
      ViewsPrefix(ns, ext, cs[1..]);
    }
  }

  /** A class whose chain is exactly the nodes appended for es views as es. */
  lemma {:induction false} RoundViews(ns: seq<Node>, cs: seq<ClassRec>, es: seq<Entry>, c: ClassRec)
    requires forall k :: 0 <= k < |cs| ==> AllBelow(cs[k].members, |ns|)
    requires c.members == Span(|ns|, |ns| + |es|)
    ensures forall k :: 0 <= k < |[c] + cs| ==> AllBelow(([c] + cs)[k].members, |ns + Wrap(es)|)
    ensures Views(ns + Wrap(es), [c] + cs) == [es] + Views(ns, cs)
  {
    ViewsPrefix(ns, Wrap(es), cs);
    FreshEntries(ns, es);
    assert ([c] + cs)[1..] == cs;
  }

  /** The chain of the nodes appended for es reads back es. */
  lemma {:induction false} FreshEntries(ns: seq<Node>, es: seq<Entry>)
    ensures AllBelow(Span(|ns|, |ns| + |es|), |ns + Wrap(es)|)
    ensures EntriesOf(ns + Wrap(es), Span(|ns|, |ns| + |es|)) == es
  {
    var sp := Span(|ns|, |ns| + |es|);
    forall k | 0 <= k < |es|
      ensures sp[k] == |ns| + k
    {
      SpanAt(|ns|, |ns| + |es|, k);
    }
    forall k | 0 <= k < |es|
      ensures EntriesOf(ns + Wrap(es), sp)[k] == es[k]
    {
      EntriesOfAt(ns + Wrap(es), sp, k);
      WrapAt(es, k);
    }
  }

  /** The node chain and the newest class after one more pattern is taken. */
  lemma {:induction false} TakeStep(ns0: seq<Node>, m0: seq<nat>, taken: seq<Entry>, q: Entry,
                 before: seq<Node>, members: seq<nat>, ns: seq<Node>, ms: seq<nat>)
    requires before == ns0 + Wrap(taken) && members == m0 + Span(|ns0|, |before|)
    requires ns == before + [Node(q, 0)] && ms == members + [|before|]
    ensures ns == ns0 + Wrap(taken + [q])
    ensures ms == m0 + Span(|ns0|, |ns|)
  {
    NodesStep(ns0, taken, q, ns);
    MembersStep(m0, |ns0|, |before|, ms);
  }

  lemma {:induction false} NodesStep(ns0: seq<Node>, taken: seq<Entry>, q: Entry, ns: seq<Node>)
    requires ns == (ns0 + Wrap(taken)) + [Node(q, 0)]
    ensures ns == ns0 + Wrap(taken + [q])
  {
    WrapSnoc(taken, q);
    AppendAssoc(ns0, Wrap(taken), [Node(q, 0)]);
  }

  lemma {:induction false} MembersStep(m0: seq<nat>, a: nat, b: nat, ms: seq<nat>)
    requires a <= b && ms == (m0 + Span(a, b)) + [b]
    ensures ms == m0 + Span(a, b + 1)
  {
    AppendAssoc(m0, Span(a, b), [b]);
  }

  /** What one seeding round leaves behind, from the contracts of its steps. */
  lemma {:induction false} RoundFacts(ns0: seq<Node>, cs0: seq<ClassRec>, seed: Entry, absorbed: seq<Entry>, ns: seq<Node>, cs: seq<ClassRec>)
    requires forall k :: 0 <= k < |cs0| ==> AllBelow(cs0[k].members, |ns0|)
    requires |cs| == |cs0| + 1 && cs[1..] == cs0
    requires ns == (ns0 + [Node(seed, 0)]) + Wrap(absorbed)
    requires cs[0].members == ([] + [|ns0|]) + Span(|ns0 + [Node(seed, 0)]|, |ns|)
    ensures forall k :: 0 <= k < |cs| ==> AllBelow(cs[k].members, |ns|)
    ensures Views(ns, cs) == [[seed] + absorbed] + Views(ns0, cs0)
    ensures NodeEntries(ns) == NodeEntries(ns0) + [seed] + absorbed
  {
    RoundLayout(ns0, cs0, seed, absorbed, ns, cs);
    RoundViews(ns0, cs0, [seed] + absorbed, cs[0]);
    NodeEntriesWrap(ns0, [seed] + absorbed);
    AppendAssoc(NodeEntries(ns0), [seed], absorbed);
  }

  lemma {:induction false} RoundLayout(ns0: seq<Node>, cs0: seq<ClassRec>, seed: Entry, absorbed: seq<Entry>, ns: seq<Node>, cs: seq<ClassRec>)
    requires |cs| == |cs0| + 1 && cs[1..] == cs0
    requires ns == (ns0 + [Node(seed, 0)]) + Wrap(absorbed)
    requires cs[0].members == ([] + [|ns0|]) + Span(|ns0 + [Node(seed, 0)]|, |ns|)
    ensures ns == ns0 + Wrap([seed] + absorbed)
    ensures cs[0].members == Span(|ns0|, |ns0| + |[seed] + absorbed|)
    ensures cs == [cs[0]] + cs0
  {
    WrapCons(seed, absorbed);
    AppendAssoc(ns0, [Node(seed, 0)], Wrap(absorbed));
    assert [] + [|ns0|] == [|ns0|];
    assert |ns0 + [Node(seed, 0)]| == |ns0| + 1;
    SpanCons(|ns0|, |ns|);
    assert cs == [cs[0]] + cs[1..];
  }

  /** The seeding pass's bookkeeping: one more class built, the kept patterns still pending. */
  lemma {:induction false} SeedAdvance(list: seq<Entry>, built: seq<seq<Entry>>, pending: seq<Entry>, cmp: Comparator,
                    v0: seq<seq<Entry>>, v1: seq<seq<Entry>>, e0: seq<Entry>, e1: seq<Entry>)
    requires pending != []
    requires built + SeedClasses(pending, cmp) == SeedClasses(list, cmp)
    requires v0 == Reverse(built) && multiset(e0) + multiset(pending) == multiset(list)
    requires v1 == [[pending[0]] + Absorbed(pending[0], pending[1..], cmp)] + v0
    requires e1 == e0 + [pending[0]] + Absorbed(pending[0], pending[1..], cmp)
    requires forall e :: e in pending ==> e in list
    ensures (built + [[pending[0]] + Absorbed(pending[0], pending[1..], cmp)]) +
            SeedClasses(Kept(pending[0], pending[1..], cmp), cmp) == SeedClasses(list, cmp)
    ensures v1 == Reverse(built + [[pending[0]] + Absorbed(pending[0], pending[1..], cmp)])
    ensures multiset(e1) + multiset(Kept(pending[0], pending[1..], cmp)) == multiset(list)
    ensures forall e :: e in Kept(pending[0], pending[1..], cmp) ==> e in list
  {
    forall e | e in Kept(pending[0], pending[1..], cmp)
      ensures e in list
    {
      KeptUnmatched(pending[0], pending[1..], cmp, e);
    }
    var cls := [pending[0]] + Absorbed(pending[0], pending[1..], cmp);
    var kept := Kept(pending[0], pending[1..], cmp);
    assert SeedClasses(pending, cmp) == [cls] + SeedClasses(kept, cmp);
    AppendAssoc(built, [cls], SeedClasses(kept, cmp));
    assert (built + [cls])[..|built|] == built;
    SplitIsPermutation(pending[0], pending[1..], cmp);
    assert pending == [pending[0]] + pending[1..];
  }


/** No two nodes stand for the same input position. */
  predicate DistinctPositions(ns: seq<Node>)
  {
    forall m1, m2 :: 0 <= m1 < m2 < |ns| ==> ns[m1].entry.pos != ns[m2].entry.pos
  }

  lemma {:induction false} InFlattenSome(cs: seq<ClassRec>, m: nat) returns (k: nat, i: nat)
    requires m in Flatten(cs)
    ensures k < |cs| && i < |cs[k].members| && cs[k].members[i] == m
  {
    if m in cs[0].members {
      k := 0;
      i :| 0 <= i < |cs[0].members| && cs[0].members[i] == m;
    } else {
      var k', i' := InFlattenSome(cs[1..], m);
      k, i := k' + 1, i';
    }
  }

  /** In a partition of the nodes every node sits in some class. */
  lemma {:induction false} NodeInSomeClass(cs: seq<ClassRec>, n: nat, m: nat) returns (k: nat, i: nat)
    requires multiset(Flatten(cs)) == multiset(Range(n)) && m < n
    ensures k < |cs| && i < |cs[k].members| && cs[k].members[i] == m
  {
    RangeCount(n, m);
    assert m in multiset(Flatten(cs));
    k, i := InFlattenSome(cs, m);
  }

    /** A partition of the nodes into non-empty, well-formed classes, each of them linked. */
  ghost predicate Good(ns: seq<Node>, cs: seq<ClassRec>, list: seq<Entry>, cmp: Comparator)
  {
    AllWellFormed(cs, |ns|) && multiset(Flatten(cs)) == multiset(Range(|ns|)) &&
    (forall k :: 0 <= k < |cs| ==> |cs[k].members| >= 1) &&
    Linked(Views(ns, cs), list, cmp)
  }

  /** Every node stands for a pattern of the list whose id the cache, if any, can hold. */
  ghost predicate NodesFit(ns: seq<Node>, list: seq<Entry>, cache: Cache?)
  {
    forall m :: 0 <= m < |ns| ==> ns[m].entry in list && (cache != null ==> ns[m].entry.id < cache.size)
  }

  /** Classes with the same chains and counts (only cursors differ) are as good. */
  lemma {:induction false} SameChains(ns: seq<Node>, cs: seq<ClassRec>, cs': seq<ClassRec>, list: seq<Entry>, cmp: Comparator)
    requires |cs| == |cs'| && forall k :: 0 <= k < |cs| ==> cs'[k].members == cs[k].members && cs'[k].count == cs[k].count
    requires Good(ns, cs, list, cmp)
    ensures Good(ns, cs', list, cmp)
  {
    assert forall k :: 0 <= k < |cs| ==> WellFormed(cs[k], |ns|);
    FlattenSameMembers(cs, cs');
    ViewsSameChains(ns, cs, cs');
  }

  /** merge() of two bridged classes leaves a good partition. */
  lemma {:induction false} GoodJoin(ns: seq<Node>, cs: seq<ClassRec>, a: nat, b: nat, list: seq<Entry>, cmp: Comparator)
    requires Good(ns, cs, list, cmp) && a < |cs| && b < |cs| && a != b
    requires forall k :: 0 <= k < |cs| ==> AllBelow(cs[k].members, |ns|)
    requires Bridged(list, EntriesOf(ns, cs[a].members), EntriesOf(ns, cs[b].members), cmp)
    ensures Good(ns, Delete(cs[a := Joined(cs[a], cs[b])], b), list, cmp)
  {
    ViewsAt(ns, cs, a);
    ViewsAt(ns, cs, b);
    ViewsJoin(ns, cs, a, b);
    LinkedJoin(Views(ns, cs), a, b, list, cmp);
    FlattenJoin(cs, a, b);
    JoinKeepsNonEmpty(cs, a, b);
  }

  lemma {:induction false} ViewsSameChains(ns: seq<Node>, cs: seq<ClassRec>, cs': seq<ClassRec>)
    requires |cs| == |cs'| && forall k :: 0 <= k < |cs| ==> cs'[k].members == cs[k].members
    requires forall k :: 0 <= k < |cs| ==> AllBelow(cs[k].members, |ns|)
    ensures forall k :: 0 <= k < |cs'| ==> AllBelow(cs'[k].members, |ns|)
    ensures Views(ns, cs') == Views(ns, cs)
  {
    if cs != [] {
      ViewsSameChains(ns, cs[1..], cs'[1..]);
    }
  }

  lemma {:induction false} ViewsAt(ns: seq<Node>, cs: seq<ClassRec>, k: nat)
    requires forall l :: 0 <= l < |cs| ==> AllBelow(cs[l].members, |ns|)
    requires k < |cs|
    ensures Views(ns, cs)[k] == EntriesOf(ns, cs[k].members)
  {
    if k > 0 {
      ViewsAt(ns, cs[1..], k - 1);
    }
  }

  lemma {:induction false} EntriesOfSuffix(ns: seq<Node>, ms: seq<nat>, t: nat)
    requires AllBelow(ms, |ns|) && t <= |ms|
    ensures AllBelow(ms[t..], |ns|) && EntriesOf(ns, ms[t..]) == EntriesOf(ns, ms)[t..]
  {
    if t > 0 {
      assert ms[t..] == ms[1..][t - 1..];
      EntriesOfSuffix(ns, ms[1..], t - 1);
    }
  }

  lemma {:induction false} EntriesOfConcat(ns: seq<Node>, a: seq<nat>, b: seq<nat>)
    requires AllBelow(a, |ns|) && AllBelow(b, |ns|)
    ensures AllBelow(a + b, |ns|) && EntriesOf(ns, a + b) == EntriesOf(ns, a) + EntriesOf(ns, b)
  {
    if a == [] {
      assert a + b == b;
    } else {
      assert (a + b)[1..] == a[1..] + b;
      EntriesOfConcat(ns, a[1..], b);
    }
  }

  /** The patterns along a chain come from the list and have ids the cache can hold. */
  lemma {:induction false} ChainFacts(ns: seq<Node>, ms: seq<nat>, list: seq<Entry>, cache: Cache?)
    requires AllBelow(ms, |ns|) && NodesFit(ns, list, cache)
    ensures Fits(EntriesOf(ns, ms), list, cache)
  {
    forall e | e in EntriesOf(ns, ms)
      ensures e in list && (cache != null ==> e.id < cache.size)
    {
      var k :| 0 <= k < |ms| && EntriesOf(ns, ms)[k] == e;
      EntriesOfAt(ns, ms, k);
    }
  }

  /** The views after merge(): the joined class's view is the two views one after the other. */
  lemma {:induction false} ViewsJoin(ns: seq<Node>, cs: seq<ClassRec>, a: nat, b: nat)
    requires AllWellFormed(cs, |ns|) && a < |cs| && b < |cs| && a != b
    ensures AllWellFormed(Delete(cs[a := Joined(cs[a], cs[b])], b), |ns|)
    ensures Views(ns, Delete(cs[a := Joined(cs[a], cs[b])], b)) ==
            Delete(Views(ns, cs)[a := Views(ns, cs)[a] + Views(ns, cs)[b]], b)
  {
    WellFormedJoin(cs, |ns|, a, b);
    assert forall k :: 0 <= k < |cs| ==> WellFormed(cs[k], |ns|);
    var cs2 := Delete(cs[a := Joined(cs[a], cs[b])], b);
    assert forall k :: 0 <= k < |cs2| ==> WellFormed(cs2[k], |ns|);
    var vs := Views(ns, cs);
    var r := Delete(vs[a := vs[a] + vs[b]], b);
    forall k | 0 <= k < |cs2|
      ensures Views(ns, cs2)[k] == r[k]
    {
      ViewsAt(ns, cs2, k);
      var src := if k < b then k else k + 1;
      ViewsAt(ns, cs, src);
      if src == a {
        ViewsAt(ns, cs, b);
        if cs[b].members == [] {
          assert vs[b] == [];
        } else {
          EntriesOfConcat(ns, cs[a].members, cs[b].members);
        }
      }
    }
  }

  lemma {:induction false} JoinKeepsNonEmpty(cs: seq<ClassRec>, a: nat, b: nat)
    requires a < |cs| && b < |cs| && a != b
    requires forall k :: 0 <= k < |cs| ==> |cs[k].members| >= 1
    ensures var d := Delete(cs[a := Joined(cs[a], cs[b])], b); forall k :: 0 <= k < |d| ==> |d[k].members| >= 1
  {
  }
}
