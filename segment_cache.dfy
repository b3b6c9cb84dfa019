/** The bookkeeping of `_processedSegments`, the list of segments whose
    house numbers have already been requested, each with the `updatedOn`
    stamp it had then. This module states, as functions on values, what
    one run of `processSegs` does to that list; the class in NavPoints runs
    the same steps in place and is proved to agree with them. */
module SegmentCache {
  import opened Options

  /** A segment of the host editor's model, as `processSegs` reads it:
      `attributes.id` and `attributes.updatedOn`. */
  datatype Segment = Segment(id: int, updatedOn: int)

  /** One record `{segId, updatedOn}` of the processed-segment list. */
  datatype Entry = Entry(segId: int, updatedOn: int)

  /** `findObjIndex(cache, 'segId', id)`: the index of the first entry for
      `id`, or -1 when there is none. */
  function FindIndex(cache: seq<Entry>, id: int): (r: int)
    ensures -1 <= r < |cache|
    ensures 0 <= r ==> cache[r].segId == id
    ensures forall j :: 0 <= j < |cache| && (r < 0 || j < r) ==> cache[j].segId != id
    decreases |cache|
  {
    if cache == [] then -1
    else if cache[0].segId == id then 0
    else
      var k := FindIndex(cache[1..], id);
      if k < 0 then -1 else k + 1
  }

  /** The stamp recorded for `id`, found as the script finds it. */
  function CachedOn(cache: seq<Entry>, id: int): Option<int> {
    var k := FindIndex(cache, id);
    if k < 0 then None else Some(cache[k].updatedOn)
  }

  /** No two entries of the list are for the same segment. */
  predicate NoDupIds(cache: seq<Entry>) {
    forall i, j :: 0 <= i < j < |cache| ==> cache[i].segId != cache[j].segId
  }

  /** No two segments of an input array share an id (the host model keys
      its segments by id). */
  predicate DistinctIds(segs: seq<Segment>) {
    forall i, j :: 0 <= i < j < |segs| ==> segs[i].id != segs[j].id
  }

  /** The stamp kept for a segment after it has been seen with `updatedOn`:
      the stamp itself when the segment was not cached, otherwise the
      cached stamp raised to it when it is strictly newer. */
  function Refresh(cached: Option<int>, updatedOn: int): int {
    match cached
    case None => updatedOn
    case Some(c) => if updatedOn > c then updatedOn else c
  }

  /** A segment stays in the fetch list when all segments are to be
      processed, when it was not cached, or when it changed since. */
  predicate NeedsFetch(cached: Option<int>, updatedOn: int, processAll: bool) {
    processAll || cached.None? || updatedOn > cached.value
  }

  /** One turn of the bookkeeping loop for one segment: the new list and
      whether the segment stays in the fetch list. */
  function Visit(cache: seq<Entry>, seg: Segment, processAll: bool): (r: (seq<Entry>, bool))
    ensures r.1 == NeedsFetch(CachedOn(cache, seg.id), seg.updatedOn, processAll)
  {
    var k := FindIndex(cache, seg.id);
    if k > -1 then
      if seg.updatedOn > cache[k].updatedOn then
        (cache[k := cache[k].(updatedOn := seg.updatedOn)], true)
      else
        (cache, processAll)
    else
      (cache + [Entry(seg.id, seg.updatedOn)], true)
  }

  /** The whole bookkeeping loop. It walks the array from its last segment
      to its first, so the segments after the first are handled before it.
      The result is the new list and the segments left in the array. */
  function Bookkeep(cache: seq<Entry>, segs: seq<Segment>, processAll: bool): (r: (seq<Entry>, seq<Segment>))
    decreases |segs|
  {
    if segs == [] then (cache, [])
    else
      var rest := Bookkeep(cache, segs[1..], processAll);
      var v := Visit(rest.0, segs[0], processAll);
      (v.0, if v.1 then [segs[0]] + rest.1 else rest.1)
  }

  /** The fetch list as a filter over the input: the segments, in their
      order, that NeedsFetch given the list as it was before the run. */
  function FetchList(cache: seq<Entry>, segs: seq<Segment>, processAll: bool): (r: seq<Segment>)
    ensures |r| <= |segs|
    ensures forall s :: s in r ==> s in segs
    ensures processAll ==> r == segs
    decreases |segs|
  {
    if segs == [] then []
    else
      (if NeedsFetch(CachedOn(cache, segs[0].id), segs[0].updatedOn, processAll) then [segs[0]] else [])
      + FetchList(cache, segs[1..], processAll)
  }

  // ---------------------------------------------------------------------
  // Lookups in a changed list

  lemma FindIndexSameIds(a: seq<Entry>, b: seq<Entry>, id: int)
    requires |a| == |b|
    requires forall j :: 0 <= j < |a| ==> a[j].segId == b[j].segId
    ensures FindIndex(a, id) == FindIndex(b, id)
  {
  }

  lemma CachedOnCons(cache: seq<Entry>, id: int)
    requires cache != []
    ensures CachedOn(cache, id) ==
      if cache[0].segId == id then Some(cache[0].updatedOn) else CachedOn(cache[1..], id)
  {
    if cache[0].segId != id {
      var k := FindIndex(cache[1..], id);
      if k >= 0 { assert cache[k + 1] == cache[1..][k]; }
    }
  }

  lemma FindIndexAppend(cache: seq<Entry>, e: Entry, id: int)
    ensures FindIndex(cache + [e], id) ==
      if FindIndex(cache, id) >= 0 then FindIndex(cache, id)
      else if e.segId == id then |cache| else -1
  {
    var c := cache + [e];
    var x, y := FindIndex(cache, id), FindIndex(c, id);
    if x >= 0 {
      assert c[x].segId == id;
    } else {
      assert c[|cache|] == e;
    }
  }

  /** One visit records the segment's refreshed stamp and leaves the stamp
      of every other segment as it was; it introduces no duplicate. */
  lemma VisitLookup(cache: seq<Entry>, seg: Segment, processAll: bool, id: int)
    ensures CachedOn(Visit(cache, seg, processAll).0, id) ==
      if id == seg.id then Some(Refresh(CachedOn(cache, id), seg.updatedOn)) else CachedOn(cache, id)
    ensures NoDupIds(cache) ==> NoDupIds(Visit(cache, seg, processAll).0)
  {
    var k := FindIndex(cache, seg.id);
    if k > -1 {
      var c := Visit(cache, seg, processAll).0;
      FindIndexSameIds(c, cache, id);
    } else {
      FindIndexAppend(cache, Entry(seg.id, seg.updatedOn), id);
    }
  }

  // ---------------------------------------------------------------------
  // What one run of the bookkeeping loop promises

  /** After the loop every segment of the input has exactly one entry: an
      entry is appended only when the lookup failed, so a list without
      duplicates stays without duplicates, and every input segment is
      found in it. */
  lemma {:induction false} BookkeepEveryIdOnce(cache: seq<Entry>, segs: seq<Segment>, processAll: bool)
    requires NoDupIds(cache)
    ensures NoDupIds(Bookkeep(cache, segs, processAll).0)
    ensures forall j :: 0 <= j < |segs| ==> FindIndex(Bookkeep(cache, segs, processAll).0, segs[j].id) >= 0
    decreases |segs|
  {
    if segs != [] {
      var rest := Bookkeep(cache, segs[1..], processAll);
      BookkeepEveryIdOnce(cache, segs[1..], processAll);
      VisitLookup(rest.0, segs[0], processAll, segs[0].id);
      forall j | 0 <= j < |segs|
        ensures FindIndex(Bookkeep(cache, segs, processAll).0, segs[j].id) >= 0
      {
        VisitLookup(rest.0, segs[0], processAll, segs[j].id);
        if j > 0 { assert segs[j] == segs[1..][j - 1]; }
      }
    }
  }

  /** The stamp recorded for each segment after the loop: an input segment
      has its refreshed stamp (its own when it was not cached, the cached
      one raised to it when strictly newer); every other segment keeps
      the stamp it had. */
  lemma {:induction false} BookkeepLookup(cache: seq<Entry>, segs: seq<Segment>, processAll: bool, id: int)
    requires DistinctIds(segs)
    ensures (forall j :: 0 <= j < |segs| ==> segs[j].id != id) ==>
              CachedOn(Bookkeep(cache, segs, processAll).0, id) == CachedOn(cache, id)
    ensures forall j :: 0 <= j < |segs| && segs[j].id == id ==>
              CachedOn(Bookkeep(cache, segs, processAll).0, id) == Some(Refresh(CachedOn(cache, id), segs[j].updatedOn))
    decreases |segs|
  {
    if segs != [] {
      var rest := Bookkeep(cache, segs[1..], processAll);
      assert DistinctIds(segs[1..]);
      BookkeepLookup(cache, segs[1..], processAll, id);
      VisitLookup(rest.0, segs[0], processAll, id);
      if segs[0].id == id {
        forall j | 0 <= j < |segs[1..]| ensures segs[1..][j].id != id { assert segs[1..][j] == segs[j + 1]; }
      } else {
        forall j | 0 <= j < |segs| && segs[j].id == id
          ensures CachedOn(Bookkeep(cache, segs, processAll).0, id) == Some(Refresh(CachedOn(cache, id), segs[j].updatedOn))
        {
          assert segs[j] == segs[1..][j - 1];
        }
        if forall j :: 0 <= j < |segs| ==> segs[j].id != id {
          forall j | 0 <= j < |segs[1..]| ensures segs[1..][j].id != id { assert segs[1..][j] == segs[j + 1]; }
        }
      }
    }
  }

  /** The array left after the loop, the ids the house numbers are then
      fetched for, is the input filtered by NeedsFetch against the list as
      it was before: a segment not yet cached always stays; a cached one
      stays only when strictly newer or when `processAll` is set. The
      survivors keep their order. */
  lemma {:induction false} BookkeepFetchList(cache: seq<Entry>, segs: seq<Segment>, processAll: bool)
    requires DistinctIds(segs)
    ensures Bookkeep(cache, segs, processAll).1 == FetchList(cache, segs, processAll)
    decreases |segs|
  {
    if segs != [] {
      var rest := Bookkeep(cache, segs[1..], processAll);
      assert DistinctIds(segs[1..]);
      BookkeepFetchList(cache, segs[1..], processAll);
      BookkeepLookup(cache, segs[1..], processAll, segs[0].id);
      forall j | 0 <= j < |segs[1..]| ensures segs[1..][j].id != segs[0].id {
        assert segs[1..][j] == segs[j + 1];
      }
    }
  }

  /** With `processAll` set nothing is spliced out of the array: every
      segment is fetched again, repeated ids included. */
  lemma {:induction false} BookkeepProcessAll(cache: seq<Entry>, segs: seq<Segment>)
    ensures Bookkeep(cache, segs, true).1 == segs
    decreases |segs|
  {
    if segs != [] {
      BookkeepProcessAll(cache, segs[1..]);
      assert [segs[0]] + segs[1..] == segs;
    }
  }

  // ---------------------------------------------------------------------
  // One call of `processSegs`, as a value

  /** Why `processSegs` was called. Only `objectsremoved` differs: it
      carries the test "this segment intersects the current view". */
  datatype Action =
    | Init
    | ZoomEnd
    | ObjectsAdded
    | ObjectsRemoved(inView: Segment -> bool)
    | ExitHouseNumbers
    | HnLayerToggled
    | HnNumbersLayerToggled

  /** The ids of some segments, in order: the `ids` of the fetch request. */
  function Ids(segs: seq<Segment>): (r: seq<int>)
    ensures |r| == |segs|
    ensures forall i :: 0 <= i < |segs| ==> r[i] == segs[i].id
    decreases |segs|
  {
    if segs == [] then [] else [segs[0].id] + Ids(segs[1..])
  }

  /** `processSegs` returns at once when there are no segments or when the
      map is zoomed out below the threshold. */
  predicate Skipped(arrSegObjs: Option<seq<Segment>>, zoom: int, disableBelowZoom: int) {
    arrSegObjs.None? || arrSegObjs.value == [] || zoom < disableBelowZoom
  }

  /** The effect of one call of `processSegs` on the list, and the ids of
      the house-number request it sends, if any. */
  function ProcessSegsEffect(cache: seq<Entry>, action: Action, arrSegObjs: Option<seq<Segment>>,
                             zoom: int, disableBelowZoom: int, processAll: bool): (seq<Entry>, Option<seq<int>>)
  {
    if Skipped(arrSegObjs, zoom, disableBelowZoom) then (cache, None)
    else if action.ObjectsRemoved? then (Evict(cache, arrSegObjs.value, action.inView), None)
    else
      var b := Bookkeep(cache, arrSegObjs.value, processAll);
      (b.0, Some(Ids(b.1)))
  }

  /** No call of `processSegs` puts two entries for one segment into the
      list. */
  lemma ProcessSegsKeepsNoDupIds(cache: seq<Entry>, action: Action, arrSegObjs: Option<seq<Segment>>,
                                 zoom: int, disableBelowZoom: int, processAll: bool)
    requires NoDupIds(cache)
    ensures NoDupIds(ProcessSegsEffect(cache, action, arrSegObjs, zoom, disableBelowZoom, processAll).0)
  {
    if !Skipped(arrSegObjs, zoom, disableBelowZoom) {
      if action.ObjectsRemoved? {
        EvictRemovesOutOfView(cache, arrSegObjs.value, action.inView);
      } else {
        BookkeepEveryIdOnce(cache, arrSegObjs.value, processAll);
      }
    }
  }

  // ---------------------------------------------------------------------
  // Segments leaving the view (`objectsremoved`)

  /** `_processedSegments.splice(findObjIndex(...), 1)` when found. */
  function RemoveFirst(cache: seq<Entry>, id: int): (r: seq<Entry>)
    ensures FindIndex(cache, id) < 0 ==> r == cache
    ensures FindIndex(cache, id) >= 0 ==> |r| == |cache| - 1
  {
    var k := FindIndex(cache, id);
    if k > -1 then cache[..k] + cache[k + 1..] else cache
  }

  /** The `objectsremoved` loop: in array order, each segment that does not
      intersect the view loses its first entry. */
  function Evict(cache: seq<Entry>, segs: seq<Segment>, inView: Segment -> bool): seq<Entry>
    decreases |segs|
  {
    if segs == [] then cache
    else Evict(if inView(segs[0]) then cache else RemoveFirst(cache, segs[0].id), segs[1..], inView)
  }

  /** The ids of the segments of `segs` outside the view. */
  function OutOfView(segs: seq<Segment>, inView: Segment -> bool): set<int>
    decreases |segs|
  {
    if segs == [] then {}
    else (if inView(segs[0]) then {} else {segs[0].id}) + OutOfView(segs[1..], inView)
  }

  /** The entries of `cache`, in order, whose segment is not in `ids`. */
  function Without(cache: seq<Entry>, ids: set<int>): (r: seq<Entry>)
    ensures |r| <= |cache|
    ensures forall e :: e in r <==> e in cache && e.segId !in ids
    decreases |cache|
  {
    if cache == [] then []
    else (if cache[0].segId in ids then [] else [cache[0]]) + Without(cache[1..], ids)
  }

  lemma NoDupIdsCons(cache: seq<Entry>)
    requires cache != []
    ensures NoDupIds(cache) <==>
      NoDupIds(cache[1..]) && forall e :: e in cache[1..] ==> e.segId != cache[0].segId
  {
    if NoDupIds(cache[1..]) && forall e :: e in cache[1..] ==> e.segId != cache[0].segId {
      forall i, j | 0 <= i < j < |cache| ensures cache[i].segId != cache[j].segId {
        assert cache[j] == cache[1..][j - 1];
        if i > 0 { assert cache[i] == cache[1..][i - 1]; }
      }
    }
    if NoDupIds(cache) {
      forall e | e in cache[1..] ensures e.segId != cache[0].segId {
        var j :| 0 <= j < |cache[1..]| && cache[1..][j] == e;
        assert cache[j + 1] == e;
      }
    }
  }

  lemma {:induction false} NoDupIdsWithout(cache: seq<Entry>, ids: set<int>)
    requires NoDupIds(cache)
    ensures NoDupIds(Without(cache, ids))
    decreases |cache|
  {
    if cache != [] {
      NoDupIdsCons(cache);
      NoDupIdsWithout(cache[1..], ids);
      var r := Without(cache, ids);
      if cache[0].segId !in ids {
        assert r[1..] == Without(cache[1..], ids);
        NoDupIdsCons(r);
      }
    }
  }

  lemma RemoveFirstCons(cache: seq<Entry>, id: int)
    requires cache != [] && cache[0].segId != id
    ensures RemoveFirst(cache, id) == [cache[0]] + RemoveFirst(cache[1..], id)
  {
    var tail := cache[1..];
    var k := FindIndex(tail, id);
    assert FindIndex(cache, id) == if k < 0 then -1 else k + 1;
    if k > -1 {
      calc {
        RemoveFirst(cache, id);
        cache[..k + 1] + cache[k + 2..];
        { assert cache[..k + 1] == [cache[0]] + tail[..k]; assert cache[k + 2..] == tail[k + 1..]; }
        [cache[0]] + tail[..k] + tail[k + 1..];
        [cache[0]] + (tail[..k] + tail[k + 1..]);
      }
    } else {
      assert [cache[0]] + tail == cache;
    }
  }

  /** With no duplicates, removing the first entry for `id` removes every
      entry for it and nothing else. */
  lemma {:induction false} RemoveFirstIsWithout(cache: seq<Entry>, id: int)
    requires NoDupIds(cache)
    ensures RemoveFirst(cache, id) == Without(cache, {id})
    decreases |cache|
  {
    if cache != [] {
      NoDupIdsCons(cache);
      if cache[0].segId == id {
        assert RemoveFirst(cache, id) == cache[1..];
        WithoutNothing(cache[1..], {id});
      } else {
        RemoveFirstCons(cache, id);
        RemoveFirstIsWithout(cache[1..], id);
      }
    }
  }

  lemma {:induction false} WithoutNothing(cache: seq<Entry>, ids: set<int>)
    requires forall e :: e in cache ==> e.segId !in ids
    ensures Without(cache, ids) == cache
    decreases |cache|
  {
    if cache != [] {
      assert cache[0] in cache;
      WithoutNothing(cache[1..], ids);
    }
  }

  lemma {:induction false} WithoutWithout(cache: seq<Entry>, a: set<int>, b: set<int>)
    ensures Without(Without(cache, a), b) == Without(cache, a + b)
    decreases |cache|
  {
    if cache != [] {
      WithoutWithout(cache[1..], a, b);
      var w := Without(cache, a);
      if cache[0].segId !in a {
        assert w == [cache[0]] + Without(cache[1..], a);
        assert w[1..] == Without(cache[1..], a);
      } else {
        assert w == Without(cache[1..], a);
      }
    }
  }

  /** On a list without duplicates, the `objectsremoved` loop removes
      exactly the entries of the segments outside the view; all other
      entries stay, in their order, and no duplicate appears. */
  lemma {:induction false} EvictRemovesOutOfView(cache: seq<Entry>, segs: seq<Segment>, inView: Segment -> bool)
    requires NoDupIds(cache)
    ensures Evict(cache, segs, inView) == Without(cache, OutOfView(segs, inView))
    ensures NoDupIds(Evict(cache, segs, inView))
    decreases |segs|
  {
    if segs == [] {
      WithoutNothing(cache, {});
    } else {
      var next := if inView(segs[0]) then cache else RemoveFirst(cache, segs[0].id);
      var here: set<int> := if inView(segs[0]) then {} else {segs[0].id};
      if inView(segs[0]) {
        WithoutNothing(cache, {});
      } else {
        RemoveFirstIsWithout(cache, segs[0].id);
      }
      assert next == Without(cache, here);
      NoDupIdsWithout(cache, here);
      EvictRemovesOutOfView(next, segs[1..], inView);
      WithoutWithout(cache, here, OutOfView(segs[1..], inView));
    }
  }

  /** The stamp of a segment after some entries were removed: none for a
      removed segment, the one it had for every other. */
  lemma {:induction false} WithoutLookup(cache: seq<Entry>, ids: set<int>, id: int)
    ensures CachedOn(Without(cache, ids), id) == if id in ids then None else CachedOn(cache, id)
    decreases |cache|
  {
    if cache != [] {
      WithoutLookup(cache[1..], ids, id);
      CachedOnCons(cache, id);
      var w := Without(cache, ids);
      if cache[0].segId !in ids {
        assert w[0] == cache[0];
        assert w[1..] == Without(cache[1..], ids);
        CachedOnCons(w, id);
      } else {
        assert w == Without(cache[1..], ids);
      }
    }
  }
}
