/**
 * spatializer/src/lib.rs: choosing the object a beam points at, with a cache of
 * imported fields, and the batching loop that delivers events to that object and
 * resets the previous one when the target changes.
 */
module Spatializer {
  import opened Wrappers
  import opened Arbitration

  /** Events handed to the target in one batch at most (`recv_many(.., 32)`). */
  const BatchLimit: nat := 32

  /** The fields after the import loop over `prefix`: a cached field is kept as it is,
      an uncached handler gets its field when the import returns one. */
  function Imported<O(!new), F>(cache: map<O, F>, prefix: seq<O>, importField: O -> Option<F>): map<O, F> {
    map h | h in cache.Keys + (set x | x in prefix) && (h in cache || importField(h).Some?) :: if h in cache then cache[h] else importField(h).value
  }

  /**
   * The cache `spatial_beam_target` leaves behind: only the objects just listed, each
   * with its cached field or, when it had none, with the field its import returned;
   * an object whose import returned nothing stays out.
   */
  function CacheAfter<O(!new), F>(cache: map<O, F>, listed: seq<O>, importField: O -> Option<F>): (r: map<O, F>)
    ensures forall h :: h in r ==> h in listed
    ensures forall h :: h in listed ==> (h in r <==> h in cache || importField(h).Some?)
    ensures forall h :: h in r && h in cache ==> r[h] == cache[h]
    ensures forall h :: h in r && h !in cache ==> importField(h) == Some(r[h])
  {
    map h | h in listed && (h in cache || importField(h).Some?) :: if h in cache then cache[h] else importField(h).value
  }

  /** A second lookup over the same listing imports nothing new and keeps every field:
      the cache only changes when the listing or an import outcome does. */
  lemma CacheAfterStable<O(!new), F>(cache: map<O, F>, listed: seq<O>, importField: O -> Option<F>)
    ensures CacheAfter(CacheAfter(cache, listed, importField), listed, importField) == CacheAfter(cache, listed, importField)
  {
    var once := CacheAfter(cache, listed, importField);
    var twice := CacheAfter(once, listed, importField);
    assert forall h :: h in twice <==> h in once;
  }

  /** One more listed object: it is added when it is uncached and its import succeeds. */
  lemma ImportedStep<O(!new), F>(cache: map<O, F>, prefix: seq<O>, h: O, importField: O -> Option<F>)
    ensures var before := Imported(cache, prefix, importField);
            Imported(cache, prefix + [h], importField)
            == if h !in before && importField(h).Some? then before[h := importField(h).value] else before
  {
    var before := Imported(cache, prefix, importField);
    var after := Imported(cache, prefix + [h], importField);
    assert forall x :: x in prefix + [h] <==> x in prefix || x == h;
    if h !in before && importField(h).Some? {
      assert after.Keys == before.Keys + {h};
    } else {
      assert after.Keys == before.Keys;
    }
  }

  /** Keeping only the listed objects after the import loop gives `CacheAfter`. */
  lemma RetainImported<O(!new), F>(cache: map<O, F>, listed: seq<O>, importField: O -> Option<F>)
    ensures var imported := Imported(cache, listed, importField);
            (map h | h in imported && h in listed :: imported[h]) == CacheAfter(cache, listed, importField)
  {
  }

  /** The objects that are ray-marched: those with a cached or a newly imported field. */
  function Spawned<O(!new), F>(cache: map<O, F>, listed: seq<O>, importField: O -> Option<F>): set<O> {
    set h | h in listed && (h in cache || importField(h).Some?)
  }

  /** A call the loop makes on a handler proxy. */
  datatype Call<O, E, C> =
    | Reset(handler: O)
    | Handle(handler: O, event: E)
    | HandleCached(handler: O, state: C)

  /** The state left by `handle_event` over a batch, starting from no cached state. */
  function Cached<E, C>(handle: (Option<C>, E) -> Option<C>, batch: seq<E>): Option<C>
    decreases |batch|
  {
    if batch == [] then None else handle(Cached(handle, batch[..|batch| - 1]), batch[|batch| - 1])
  }

  /** The `handle_event` calls for a batch, one per event in order. */
  function Handled<O, E, C>(target: O, batch: seq<E>): (r: seq<Call<O, E, C>>)
    ensures |r| == |batch|
    ensures forall i :: 0 <= i < |batch| ==> r[i] == Handle(target, batch[i])
    decreases |batch|
  {
    if batch == [] then [] else Handled(target, batch[..|batch| - 1]) + [Handle(target, batch[|batch| - 1])]
  }

  /** The calls for a delivered batch: every event, then the cached state once if any. */
  function Delivered<O, E, C>(target: O, handle: (Option<C>, E) -> Option<C>, batch: seq<E>): (r: seq<Call<O, E, C>>)
    ensures |r| == |batch| + (if Cached(handle, batch).Some? then 1 else 0)
    ensures r[..|batch|] == Handled(target, batch)
    ensures Cached(handle, batch).Some? ==> r[|batch|] == HandleCached(target, Cached(handle, batch).value)
  {
    Handled(target, batch) + if Cached(handle, batch).Some? then [HandleCached(target, Cached(handle, batch).value)] else []
  }

  /**
   * The state of `spatial_input_beam`: the field cache, the last targeted object, the
   * events waiting in the channel and every call made on a handler proxy, in order.
   */
  class Beam<O(==,!new), F, E, C> {
    var fieldCache: map<O, F>
    var lastHandler: Option<O>
    var pending: seq<E>
    var calls: seq<Call<O, E, C>>

    constructor ()
      ensures fieldCache == map[] && lastHandler == None && pending == [] && calls == []
    {
      fieldCache, lastHandler, pending, calls := map[], None, [], [];
    }

    /** An event sent into the channel. */
    method Push(event: E)
      modifies this
      ensures pending == old(pending) + [event]
      ensures fieldCache == old(fieldCache) && lastHandler == old(lastHandler) && calls == old(calls)
    {
      pending := pending + [event];
    }

    /**
     * `spatial_beam_target`. `listed` is what the registry lists, `import` the outcome
     * of importing the field of an uncached object, and `rs` the ray-march completions
     * of the spawned objects in arrival order. The target is a candidate (deeper than
     * 0 and starting less than 0.05 from the field) at minimal distance, the first to
     * arrive on a tie, or nothing when there is no candidate.
     */
    method SpatialBeamTarget(listed: seq<O>, importField: O -> Option<F>, rs: seq<Completion<O>>)
      returns (target: Option<O>)
      requires Targets(rs) == Spawned(fieldCache, listed, importField)
      modifies this
      ensures fieldCache == CacheAfter(old(fieldCache), listed, importField)
      ensures IsHoverChoice(BeamFilter, rs, target)
      ensures target.Some? ==> target.value in listed
      ensures lastHandler == old(lastHandler) && pending == old(pending) && calls == old(calls)
    {
      ImportFields(listed, importField);
      RetainImported(old(fieldCache), listed, importField);
      fieldCache := map h | h in fieldCache && h in listed :: fieldCache[h];
      var closest := ClosestHit(BeamFilter, rs);
      if closest.Some? {
        FirstAtIsTarget(BeamFilter, rs, closest.value.1.deepestPointDistance);
        target := Some(closest.value.0);
      } else {
        target := None;
      }
    }

    /** The import loop of `spatial_beam_target`: an uncached object whose import
        returns a field is cached with it, in listing order. */
    method ImportFields(listed: seq<O>, importField: O -> Option<F>)
      modifies this
      ensures fieldCache == Imported(old(fieldCache), listed, importField)
      ensures lastHandler == old(lastHandler) && pending == old(pending) && calls == old(calls)
    {
      ghost var cache0 := fieldCache;
      var i := 0;
      while i < |listed|
        invariant 0 <= i <= |listed|
        invariant fieldCache == Imported(cache0, listed[..i], importField)
        invariant lastHandler == old(lastHandler) && pending == old(pending) && calls == old(calls)
      {
        var handler := listed[i];
        ImportedStep(cache0, listed[..i], handler, importField);
        assert listed[..i + 1] == listed[..i] + [handler];
        if handler !in fieldCache {
          var fieldRef := importField(handler);
          if fieldRef.Some? {
            fieldCache := fieldCache[handler := fieldRef.value];
          }
        }
        i := i + 1;
      }
      assert listed[..i] == listed;
    }

    /**
     * One turn of `spatial_input_beam`'s loop, once events are waiting: up to 32 of them
     * are taken. Without a target they are dropped and nothing else changes. With one,
     * the previous target is reset when it differs (and its proxy could be built), then
     * the batch goes to the target in order followed by the cached state if any, or,
     * when the target's proxy cannot be built, every waiting event is dropped; either
     * way the target becomes the last handler.
     */
    method Turn(listed: seq<O>, importField: O -> Option<F>, rs: seq<Completion<O>>,
                targetProxyOk: bool, lastProxyOk: bool, handle: (Option<C>, E) -> Option<C>)
      returns (target: Option<O>)
      requires Targets(rs) == Spawned(fieldCache, listed, importField)
      modifies this
      ensures var n := if |old(pending)| < BatchLimit then |old(pending)| else BatchLimit;
              var batch := old(pending)[..n];
              && fieldCache == CacheAfter(old(fieldCache), listed, importField)
              && IsHoverChoice(BeamFilter, rs, target)
              && (target.None? ==> lastHandler == old(lastHandler) && calls == old(calls) && pending == old(pending)[n..])
              && (target.Some? ==>
                    var reset := if old(lastHandler).Some? && old(lastHandler) != target && lastProxyOk
                                 then [Reset(old(lastHandler).value)] else [];
                    && lastHandler == target
                    && pending == (if targetProxyOk then old(pending)[n..] else [])
                    && calls == old(calls) + reset + (if targetProxyOk then Delivered(target.value, handle, batch) else []))
    {
      var n := if |pending| < BatchLimit then |pending| else BatchLimit;
      var batch := pending[..n];
      pending := pending[n..];
      target := SpatialBeamTarget(listed, importField, rs);
      if target.None? {
        return;
      }
      var closestHandler := target.value;
      if lastHandler.Some? && lastHandler.value != closestHandler && lastProxyOk {
        calls := calls + [Reset(lastHandler.value)];
      }
      if targetProxyOk {
        Deliver(closestHandler, handle, batch);
      } else {
        pending := [];
      }
      lastHandler := target;
    }

    /** The delivery of one batch to the target, with the cached state threaded through
        `handle_event` and handed to `handle_cached_event` at the end. */
    method Deliver(target: O, handle: (Option<C>, E) -> Option<C>, batch: seq<E>)
      modifies this
      ensures calls == old(calls) + Delivered(target, handle, batch)
      ensures fieldCache == old(fieldCache) && lastHandler == old(lastHandler) && pending == old(pending)
    {
      var cachedState: Option<C> := None;
      var i := 0;
      while i < |batch|
        invariant 0 <= i <= |batch|
        invariant cachedState == Cached(handle, batch[..i])
        invariant calls == old(calls) + Handled(target, batch[..i])
        invariant fieldCache == old(fieldCache) && lastHandler == old(lastHandler) && pending == old(pending)
      {
        assert batch[..i + 1][..i] == batch[..i];
        calls := calls + [Handle(target, batch[i])];
        cachedState := handle(cachedState, batch[i]);
        i := i + 1;
      }
      assert batch[..i] == batch;
      if cachedState.Some? {
        calls := calls + [HandleCached(target, cachedState.value)];
      }
    }
  }
}
