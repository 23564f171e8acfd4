/**
 * The comparisons of the merge pass of src/alg/classify.c: compare_to_class
 * (one pattern against a chain of patterns, through the result cache) and
 * the scan that decides whether two classes are merged.  The cache is
 * optional (classifier level 1 runs without one); when present, every slot
 * that reads MATCH must be backed by a real comparison.
 */
module ClassifyCompare {
  import opened ClassifyCache
  import opened ClassifySpec

  /** Frame of an optional cache: the cache and its buffer. */
  function CacheFrame(cache: Cache?): set<object>
  {
    if cache == null then {} else {cache, cache.buf}
  }

  /** The buffer of an optional cache, the only part that changes. */
  function CacheBuf(cache: Cache?): set<object>
  {
    if cache == null then {} else {cache.buf}
  }

  /** Every slot of a cache buffer that reads MATCH is backed by a MATCH between patterns with those ids. */
  ghost predicate SlotsSound(size: nat, bytes: seq<bv8>, list: seq<Entry>, cmp: Comparator)
    requires |bytes| == BufferBytes(size)
  {
    forall a: nat, b: nat :: a < size && b < size && SlotValue(size, bytes, a, b) == 1 ==> PairJustified(list, a, b, cmp)
  }

  /** Every slot of the cache (when there is one) that reads MATCH is backed by a comparison. */
  ghost predicate CacheSound(cache: Cache?, list: seq<Entry>, cmp: Comparator)
    reads CacheFrame(cache)
  {
    cache == null || (cache.Valid() && SlotsSound(cache.size, cache.buf[..], list, cmp))
  }

  /** Storing a result that is MATCH only when x and y really matched keeps every MATCH slot backed. */
  lemma {:induction false} SoundAfterStore(size: nat, before: seq<bv8>, after: seq<bv8>, x: Entry, y: Entry, res: int,
                                           list: seq<Entry>, cmp: Comparator)
    requires |before| == BufferBytes(size) && |after| == BufferBytes(size) && x.id < size && y.id < size
    requires SlotsSound(size, before, list, cmp)
    requires SlotValue(size, after, x.id, y.id) == res
    requires forall a: nat, b: nat :: a < size && b < size && (Min(a, b) != Min(x.id, y.id) || Max(a, b) != Max(x.id, y.id)) ==>
               SlotValue(size, after, a, b) == SlotValue(size, before, a, b)
    requires res == 1 ==> x in list && y in list && Justified(x, y, cmp)
    ensures SlotsSound(size, after, list, cmp)
  {
    forall a: nat, b: nat | a < size && b < size && SlotValue(size, after, a, b) == 1
      ensures PairJustified(list, a, b, cmp)
    {
      if Min(a, b) == Min(x.id, y.id) && Max(a, b) == Max(x.id, y.id) {
        assert SlotValue(size, after, a, b) == res;
        if a == x.id {
          assert b == y.id;
        } else {
          assert a == y.id && b == x.id;
          assert Justified(y, x, cmp);
        }
      } else {
        assert SlotValue(size, before, a, b) == 1;
      }
    }
  }

  /** set_cache: store a comparison result of x and y under their ids. */
  method RecordResult(cache: Cache?, x: Entry, y: Entry, res: Tri, ghost list: seq<Entry>, cmp: Comparator)
    requires cache != null ==> x.id < cache.size && y.id < cache.size
    requires res == 1 ==> x in list && y in list && Justified(x, y, cmp)
    requires CacheSound(cache, list, cmp)
    modifies CacheBuf(cache)
    ensures CacheSound(cache, list, cmp)
    ensures cache != null ==> cache.Lookup(x.id, y.id) == res
  {
    if cache == null {
      return;
    }
    ghost var before := cache.buf[..];
    cache.Set(x.id, y.id, res);
    SoundAfterStore(cache.size, before, cache.buf[..], x, y, res, list, cmp);
  }

  /** Patterns of the list whose ids the cache, if any, can hold. */
  ghost predicate Fits(es: seq<Entry>, list: seq<Entry>, cache: Cache?)
  {
    forall e :: e in es ==> e in list && (cache != null ==> e.id < cache.size)
  }

  /** No two targets share an id, so a store for one never changes the slot of a later one. */
  predicate DistinctIds(ts: seq<Entry>)
  {
    forall k, l :: 0 <= k < l < |ts| ==> ts[k].id != ts[l].id
  }

  /**
   * One read of compare_to_class through the cache: the slot of {o, t}, or,
   * when it is Unknown, the comparator's answer, which is then stored.
   */
  method ReadThrough(o: Entry, t: Entry, ghost list: seq<Entry>, cmp: Comparator, cache: Cache) returns (v: Tri)
    requires o in list && t in list && o.id < cache.size && t.id < cache.size
    requires CacheSound(cache, list, cmp)
    modifies cache.buf
    ensures CacheSound(cache, list, cmp)
    ensures v == (if old(cache.Lookup(o.id, t.id)) == Unknown then cmp(o.pos, t.pos, t.dpi) else old(cache.Lookup(o.id, t.id)))
    ensures v == 1 ==> Witnessed(list, o, t, cmp)
    ensures forall a: nat, b: nat :: a < cache.size && b < cache.size && (Min(a, b) != Min(o.id, t.id) || Max(a, b) != Max(o.id, t.id)) ==>
              cache.Lookup(a, b) == old(cache.Lookup(a, b))
  {
    var slot, line := cache.GetAndLine(o.id, t.id);
    if slot == Unknown {
      v := cmp(o.pos, t.pos, t.dpi);
      ghost var before := cache.buf[..];
      cache.SetByLine(line, o.id, t.id, v);
      SoundAfterStore(cache.size, before, cache.buf[..], o, t, v, list, cmp);
    } else {
      v := slot;
      assert v == 1 ==> PairJustified(list, o.id, t.id, cmp);
    }
  }

  /**
   * compare_to_class: o is compared with each target in turn, through the
   * cache when there is one; the first DIFFERENT ends the scan with 0,
   * otherwise the result is 1 iff some comparison read MATCH.  Without a
   * cache the reads are the comparator's answers; with one they are the
   * slots as they were on entry, Unknown ones resolved by the comparator
   * (exactly so when no two targets share an id).
   */
  method CompareToClass(o: Entry, ts: seq<Entry>, ghost list: seq<Entry>, cmp: Comparator, cache: Cache?) returns (r: int)
    requires o in list && forall t :: t in ts ==> t in list
    requires cache != null ==> o.id < cache.size && forall t :: t in ts ==> t.id < cache.size
    requires CacheSound(cache, list, cmp)
    modifies CacheBuf(cache)
    ensures CacheSound(cache, list, cmp)
    ensures r == 0 || r == 1
    ensures cache == null ==> r == Verdict(CmpValues(o, ts, cmp))
    ensures cache != null && DistinctIds(ts) ==> r == Verdict(Resolved(cache.size, old(cache.buf[..]), o, ts, cmp))
    ensures r == 1 ==> exists k :: 0 <= k < |ts| && Witnessed(list, o, ts[k], cmp)
  {
    ghost var exact := cache == null || DistinctIds(ts);
    ghost var bytes := if cache == null then [] else cache.buf[..];
    ghost var ref := if cache == null then CmpValues(o, ts, cmp) else Resolved(cache.size, bytes, o, ts, cmp);
    var positives := 0;
    var i := 0;
    while i < |ts|
      invariant i <= |ts|
      invariant CacheSound(cache, list, cmp)
      invariant exact ==> forall k :: 0 <= k < i ==> ref[k] != -1
      invariant exact ==> (positives > 0 <==> exists k :: 0 <= k < i && ref[k] == 1)
      invariant positives > 0 ==> exists k :: 0 <= k < i && Witnessed(list, o, ts[k], cmp)
      invariant cache != null && exact ==>
                  forall l :: i <= l < |ts| ==> SlotValue(cache.size, cache.buf[..], o.id, ts[l].id) == SlotValue(cache.size, bytes, o.id, ts[l].id)
    {
      var v := CompareStep(o, ts, i, list, cmp, cache, bytes, exact);
      assert exact ==> v == ref[i];
      if v == -1 {
        if exact {
          VerdictOfPrefix(ref, i);
        }
        return 0;
      }
      if v == 1 {
        positives := positives + 1;
      }
      i := i + 1;
    }
    r := if positives > 0 then 1 else 0;
  }

  /**
   * One turn of compare_to_class's loop: the value read for o and ts[i],
   * which keeps the cache sound and, when no two targets share an id,
   * leaves the slots of the later targets as they were in bytes.
   */
  method CompareStep(o: Entry, ts: seq<Entry>, i: nat, ghost list: seq<Entry>, cmp: Comparator, cache: Cache?,
                     ghost bytes: seq<bv8>, ghost exact: bool) returns (v: Tri)
    requires i < |ts| && o in list && forall t :: t in ts ==> t in list
    requires cache != null ==> o.id < cache.size && (forall t :: t in ts ==> t.id < cache.size) && |bytes| == BufferBytes(cache.size)
    requires CacheSound(cache, list, cmp)
    requires exact ==> cache == null || DistinctIds(ts)
    requires cache != null && exact ==>
               forall l :: i <= l < |ts| ==> SlotValue(cache.size, cache.buf[..], o.id, ts[l].id) == SlotValue(cache.size, bytes, o.id, ts[l].id)
    modifies CacheBuf(cache)
    ensures CacheSound(cache, list, cmp)
    ensures v == 1 ==> Witnessed(list, o, ts[i], cmp)
    ensures cache == null ==> v == cmp(o.pos, ts[i].pos, ts[i].dpi)
    ensures cache != null && exact ==>
              v == Resolved(cache.size, bytes, o, ts, cmp)[i] &&
              forall l :: i < l < |ts| ==> SlotValue(cache.size, cache.buf[..], o.id, ts[l].id) == SlotValue(cache.size, bytes, o.id, ts[l].id)
  {
    var t := ts[i];
    assert t in ts;
    if cache != null {
      ghost var before := cache.buf[..];
      v := ReadThrough(o, t, list, cmp, cache);
      if exact {
        Untouched(cache.size, before, cache.buf[..], bytes, o, ts, i);
      }
    } else {
      v := cmp(o.pos, t.pos, t.dpi);
    }
  }

  /** A store for the pair {o, ts[i]} leaves the slots of the later targets as they were. */
  lemma {:induction false} Untouched(size: nat, before: seq<bv8>, after: seq<bv8>, bytes: seq<bv8>, o: Entry, ts: seq<Entry>, i: nat)
    requires |before| == BufferBytes(size) && |after| == BufferBytes(size) && |bytes| == BufferBytes(size)
    requires DistinctIds(ts) && i < |ts| && o.id < size && forall t :: t in ts ==> t.id < size
    requires forall l :: i <= l < |ts| ==> SlotValue(size, before, o.id, ts[l].id) == SlotValue(size, bytes, o.id, ts[l].id)
    requires forall a: nat, b: nat :: a < size && b < size && (Min(a, b) != Min(o.id, ts[i].id) || Max(a, b) != Max(o.id, ts[i].id)) ==>
               SlotValue(size, after, a, b) == SlotValue(size, before, a, b)
    ensures forall l :: i < l < |ts| ==> SlotValue(size, after, o.id, ts[l].id) == SlotValue(size, bytes, o.id, ts[l].id)
  {
    forall l | i < l < |ts|
      ensures SlotValue(size, after, o.id, ts[l].id) == SlotValue(size, bytes, o.id, ts[l].id)
    {
      assert ts[l] in ts;
      assert ts[l].id != ts[i].id;
    }
  }

  /** Without a cache: some pattern of os is reported 1 by compare_to_class against ts. */
  ghost predicate Hit(os: seq<Entry>, ts: seq<Entry>, cmp: Comparator)
  {
    exists i :: 0 <= i < |os| && Verdict(CmpValues(os[i], ts, cmp)) == 1
  }

  /**
   * The scan of one merge test: the patterns of os are taken in turn and
   * each is compared (compare_to_class) with the whole chain ts; the first
   * one reported as 1 decides the merge.
   */
  method AnyMatch(os: seq<Entry>, ts: seq<Entry>, ghost list: seq<Entry>, cmp: Comparator, cache: Cache?) returns (found: bool)
    requires Fits(os, list, cache) && Fits(ts, list, cache)
    requires CacheSound(cache, list, cmp)
    modifies CacheBuf(cache)
    ensures CacheSound(cache, list, cmp)
    ensures cache == null ==> (found <==> Hit(os, ts, cmp))
    ensures found ==> Bridged(list, os, ts, cmp)
  {
    var i := 0;
    while i < |os|
      invariant i <= |os|
      invariant CacheSound(cache, list, cmp)
      invariant cache == null ==> forall k :: 0 <= k < i ==> Verdict(CmpValues(os[k], ts, cmp)) != 1
    {
      assert os[i] in os;
      var r := CompareToClass(os[i], ts, list, cmp, cache);
      if r == 1 {
        ghost var k :| 0 <= k < |ts| && Witnessed(list, os[i], ts[k], cmp);
        return true;
      }
      i := i + 1;
    }
    return false;
  }

  /**
   * The merge test of two classes given their sides: c's chain from the
   * resume cursor on (tail) and next_c's whole chain.  When c is at least as
   * large (first), the tail's patterns are scanned against the whole chain,
   * otherwise the whole chain's against the tail; at classifier level 3 the
   * other direction is tried when the first found nothing.
   */
  method TestChains(tail: seq<Entry>, whole: seq<Entry>, first: bool, level: int, ghost list: seq<Entry>, cmp: Comparator, cache: Cache?)
      returns (need: bool)
    requires Fits(tail, list, cache) && Fits(whole, list, cache)
    requires CacheSound(cache, list, cmp)
    modifies CacheBuf(cache)
    ensures CacheSound(cache, list, cmp)
    ensures need ==> Bridged(list, tail, whole, cmp)
    ensures cache == null ==>
              need == ((if first then Hit(tail, whole, cmp) else Hit(whole, tail, cmp)) ||
                       (level > 2 && if first then Hit(whole, tail, cmp) else Hit(tail, whole, cmp)))
  {
    if first {
      need := AnyMatch(tail, whole, list, cmp, cache);
    } else {
      need := AnyMatch(whole, tail, list, cmp, cache);
    }
    if level > 2 && !need {
      if first {
        need := AnyMatch(whole, tail, list, cmp, cache);
      } else {
        need := AnyMatch(tail, whole, list, cmp, cache);
      }
    }
    if need && !Bridged(list, tail, whole, cmp) {
      BridgedSym(list, whole, tail, cmp);
    }
  }
}
