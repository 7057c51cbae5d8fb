/** Playback that can go to any frame: a cursor, the held state, and an LRU
    cache of the states entering earlier frames (elements-core
    `graph/timeline.rs`). */
module Timelines {
  import opened Values
  import opened MapSums
  import opened FieldPools
  import opened StateStores
  import opened Graphs
  import opened Plans
  import opened Transcripts
  import opened Evaluator

  const MAX_FRAME: nat := 0xFFFF_FFFF

  function TimeAt(frame: nat, start: nat, fps: real): Time {
    Time(frame, if frame >= start then frame - start else 0, fps)
  }

  /** Forward playback with no cache: what every frame has to agree with. */
  datatype Playback = Playback(plan: Plan, start: nat, fps: real, dims: Dims) {

    ghost function At(frame: nat, state: State): Result<(Value, seq<Value>, State), NodeError>
      requires plan.Valid()
    {
      plan.Expected(Frame.Frame(TimeAt(frame, start, fps), dims, state))
    }

    /** The state entering `frame`, stepping from an empty state at the start. */
    ghost function Entering(frame: nat): Result<State, NodeError>
      requires plan.Valid() && frame >= start
      decreases frame
    {
      if frame == start then Ok(map[]) else
        var before := Entering(frame - 1);
        if before.Err? then Err(before.error) else
          var out := At(frame - 1, before.value);
          if out.Err? then Err(out.error) else Ok(out.value.2)
    }

    /** What stepping all the way to `frame` produces. */
    ghost function Produces(frame: nat): Result<(Value, seq<Value>, State), NodeError>
      requires plan.Valid() && frame >= start
    {
      var before := Entering(frame);
      if before.Err? then Err(before.error) else At(frame, before.value)
    }

    /** A playback that fails stays failed. */
    lemma {:induction false} FailsForGood(f: nat, g: nat)
      requires plan.Valid() && start <= f <= g && Produces(f).Err?
      ensures Produces(g).Err?
    {
      hide Plan.Expected;
      hide Plan.Valid;
      if f < g { FailsForGood(f, g - 1); }
    }

    // ---------------------------------------------------------- without its own words

    /** The `i`-th frame after the start: its own number, `i` frames in. */
    function Nth(i: nat, state: State): Frame {
      Frame.Frame(Time(start + i, i, fps), dims, state)
    }

    ghost predicate Leads(i: nat, state: State, after: State) {
      exists value: Value, values: seq<Value> :: Explained(plan, Nth(i, state), value, values, after)
    }

    /** `states` are those entering the first frames, from none at the start. */
    ghost predicate Chain(states: seq<State>) {
      && |states| > 0 && states[0] == map[]
      && forall i: nat :: i + 1 < |states| ==> Leads(i, states[i], states[i + 1])
    }

    /** The `k`-th frame after the start can show this, stepping from the start. */
    ghost predicate CanShow(k: nat, value: Value, values: seq<Value>, after: State) {
      exists states: seq<State> ::
        Chain(states) && |states| == k + 1 && Explained(plan, Nth(k, states[k]), value, values, after)
    }

    /** The elapsed time of frame `start + i` is `i` frames, and a frame before
        the start has none. */
    lemma ClockIs(frame: nat)
      ensures frame >= start ==> TimeAt(frame, start, fps) == Time(frame, frame - start, fps)
      ensures frame <= start ==> TimeAt(frame, start, fps) == Time(frame, 0, fps)
    {
    }

    lemma AtExactly(i: nat, state: State, value: Value, values: seq<Value>, after: State)
      requires plan.Valid()
      ensures At(start + i, state) == Ok((value, values, after))
        <==> Explained(plan, Nth(i, state), value, values, after)
    {
      hide Plan.Valid; hide Plan.Expected; hide Explained;
      ExpectedExactly(plan, Nth(i, state), value, values, after);
      assert TimeAt(start + i, start, fps) == Time(start + i, i, fps);
    }

    lemma {:induction false} EnteringIsChain(k: nat) returns (states: seq<State>)
      requires plan.Valid() && Entering(start + k).Ok?
      ensures Chain(states) && |states| == k + 1 && states[k] == Entering(start + k).value
    {
      hide Plan.Valid; hide Playback.At; hide Explained;
      if k == 0 {
        states := [map[]];
      } else {
        states := EnteringIsChain(k - 1);
        var out := At(start + k - 1, states[k - 1]).value;
        AtExactly(k - 1, states[k - 1], out.0, out.1, out.2);
        states := states + [out.2];
      }
    }

    lemma {:induction false} ChainIsEntering(states: seq<State>, k: nat)
      requires plan.Valid() && Chain(states) && k < |states|
      ensures Entering(start + k) == Ok(states[k])
    {
      hide Plan.Valid; hide Playback.At; hide Explained;
      if k > 0 {
        ChainIsEntering(states, k - 1);
        assert Leads(k - 1, states[k - 1], states[k - 1 + 1]);
        var value, values :| Explained(plan, Nth(k - 1, states[k - 1]), value, values, states[k]);
        AtExactly(k - 1, states[k - 1], value, values, states[k]);
      }
    }

    /** Forward playback, without its own words: frame `start + k` yields this
        exactly when `k` frames from an empty state, each at its own time and
        each starting from what the one before left, can lead to it. */
    lemma ProducesExactly(k: nat, value: Value, values: seq<Value>, after: State)
      requires plan.Valid()
      ensures Produces(start + k) == Ok((value, values, after)) <==> CanShow(k, value, values, after)
    {
      hide Plan.Valid; hide Playback.At; hide Playback.Entering; hide Playback.Chain; hide Explained;
      if Entering(start + k).Ok? {
        var states := EnteringIsChain(k);
        AtExactly(k, states[k], value, values, after);
      }
      if CanShow(k, value, values, after) {
        var states: seq<State> :|
          Chain(states) && |states| == k + 1 && Explained(plan, Nth(k, states[k]), value, values, after);
        ChainIsEntering(states, k);
        AtExactly(k, states[k], value, values, after);
      }
    }

    /** What a frame shows from no state, alone. */
    ghost predicate ShowsAlone(k: nat, value: Value, values: seq<Value>) {
      exists after: State :: Explained(plan, Nth(k, map[]), value, values, after)
    }

    lemma AllExactly(k: nat)
      requires plan.Valid()
      ensures forall value: Value, values: seq<Value>, after: State ::
        CanShow(k, value, values, after) <==> Produces(start + k) == Ok((value, values, after))
      ensures forall value: Value, values: seq<Value> ::
        ShowsAlone(k, value, values)
        <==> At(start + k, map[]).Ok? && At(start + k, map[]).value.0 == value && At(start + k, map[]).value.1 == values
    {
      hide Plan.Valid; hide Playback.At; hide Playback.Produces; hide Playback.CanShow; hide Explained;
      forall value: Value, values: seq<Value>, after: State
        ensures CanShow(k, value, values, after) <==> Produces(start + k) == Ok((value, values, after))
        ensures Explained(plan, Nth(k, map[]), value, values, after)
          <==> At(start + k, map[]) == Ok((value, values, after))
      {
        ProducesExactly(k, value, values, after);
        AtExactly(k, map[], value, values, after);
      }
    }
  }

  /** Whether any node keeps state between frames. */
  predicate Stateful(g: Dag) {
    exists i :: 0 <= i < |g.nodes| && g.nodes[i].stateful
  }

  datatype CacheEntry = CacheEntry(snapshot: Snapshot, lastUsed: nat)

  type Cache = map<nat, CacheEntry>

  ghost function EntryBytes(cache: Cache): map<nat, nat> {
    map f | f in cache :: cache[f].snapshot.bytes
  }

  ghost function EntryTextures(cache: Cache): map<nat, nat> {
    map f | f in cache :: TexturesIn(cache[f].snapshot.slots)
  }

  ghost function BytesOf(cache: Cache): nat {
    Sum(EntryBytes(cache))
  }

  ghost function Pinned(cache: Cache): nat {
    Sum(EntryTextures(cache))
  }

  lemma Dropping(cache: Cache, f: nat)
    requires f in cache
    ensures BytesOf(cache) == cache[f].snapshot.bytes + BytesOf(cache - {f})
    ensures Pinned(cache) == TexturesIn(cache[f].snapshot.slots) + Pinned(cache - {f})
  {
    hide Sum; hide TexturesIn;
    SumRemove(EntryBytes(cache), f);
    SumRemove(EntryTextures(cache), f);
    assert EntryBytes(cache) - {f} == EntryBytes(cache - {f});
    assert EntryTextures(cache) - {f} == EntryTextures(cache - {f});
  }

  lemma Adding(cache: Cache, f: nat, e: CacheEntry)
    requires f !in cache
    ensures BytesOf(cache[f := e]) == e.snapshot.bytes + BytesOf(cache)
    ensures Pinned(cache[f := e]) == TexturesIn(e.snapshot.slots) + Pinned(cache)
  {
    Dropping(cache[f := e], f);
    assert cache[f := e] - {f} == cache;
  }

  /** Marking an entry used changes neither total. */
  lemma Touching(cache: Cache, f: nat, clock: nat)
    requires f in cache
    ensures BytesOf(cache[f := CacheEntry(cache[f].snapshot, clock)]) == BytesOf(cache)
    ensures Pinned(cache[f := CacheEntry(cache[f].snapshot, clock)]) == Pinned(cache)
  {
    Dropping(cache, f);
    var touched := cache[f := CacheEntry(cache[f].snapshot, clock)];
    Dropping(touched, f);
    assert touched - {f} == cache - {f};
  }

  lemma Ticking(cache: Cache, clock: nat, f: nat, snapshot: Snapshot)
    requires Ticked(cache, clock)
    ensures Ticked(cache[f := CacheEntry(snapshot, clock + 1)], clock + 1)
  {
  }

  lemma NewlyNewest(cache: Cache, clock: nat, f: nat, snapshot: Snapshot)
    requires Ticked(cache, clock)
    ensures Newest(cache[f := CacheEntry(snapshot, clock + 1)], f)
  {
  }

  lemma NothingCached()
    ensures BytesOf(map[]) == 0 && Pinned(map[]) == 0
    ensures forall clock: nat :: Ticked(map[], clock)
  {
  }

  /** No two entries were used at the same tick, none after `clock`. */
  ghost predicate Ticked(cache: Cache, clock: nat) {
    && (forall f <- cache :: cache[f].lastUsed <= clock)
    && (forall f, g :: f in cache && g in cache && f != g ==> cache[f].lastUsed != cache[g].lastUsed)
  }

  /** `f` is the entry used last. */
  ghost predicate Newest(cache: Cache, f: nat) {
    f in cache && forall g <- cache :: g != f ==> cache[g].lastUsed < cache[f].lastUsed
  }

  /** `after` is `before` with one entry made the newest. */
  ghost predicate OnlyTouched(before: Cache, after: Cache, f: nat) {
    && after.Keys == before.Keys && Newest(after, f)
    && (forall g <- after :: after[g].snapshot == before[g].snapshot && (g != f ==> after[g] == before[g]))
  }

  /** With any one entry back, `bytes` more would not have fitted: `after` was
      not emptied further than it had to be. */
  ghost predicate NoneGoneNeedlessly(before: Cache, after: Cache, bytes: nat, budget: nat) {
    forall f :: f in before && f !in after
      && (forall g :: g in before && g !in after ==> before[g].lastUsed <= before[f].lastUsed)
      ==> BytesOf(after) + before[f].snapshot.bytes + bytes > budget
  }

  /** `after` lost some entries of `before`, each used longer ago than every
      unprotected one it kept. */
  ghost predicate OnlyOldestGone(before: Cache, after: Cache, protected: Option<nat>) {
    && after.Keys <= before.Keys && (forall f <- after :: after[f] == before[f])
    && (forall f, g ::
       f in before && f !in after && g in after && Some(g) != protected ==> before[f].lastUsed < after[g].lastUsed)
  }

  /** Every entry is the state forward playback has on entering its frame. */
  ghost predicate Faithful(play: Playback, cache: Cache)
    requires play.plan.Valid()
  {
    forall f <- cache :: f >= play.start && f <= MAX_FRAME
      && play.Entering(f) == Ok(cache[f].snapshot.slots) && cache[f].snapshot.Valid()
  }

  lemma StaysFaithful(play: Playback, before: Cache, after: Cache, frame: nat, protected: Option<nat>)
    requires play.plan.Valid() && Faithful(play, before)
    requires OnlyOldestGone(before, after - {frame}, protected)
    requires frame in after ==>
      && play.start <= frame <= MAX_FRAME && after[frame].snapshot.Valid()
      && play.Entering(frame) == Ok(after[frame].snapshot.slots)
    ensures Faithful(play, after)
  {
    forall f <- after | f != frame ensures f in before && after[f] == before[f] { assert f in after - {frame}; }
  }

  lemma StillFaithful(play: Playback, cache: Cache, frame: nat, clock: nat)
    requires play.plan.Valid() && Faithful(play, cache) && frame in cache
    ensures Faithful(play, cache[frame := CacheEntry(cache[frame].snapshot, clock)])
  {
  }

  /** Return every texture of every entry. */
  method ReleaseCache(cache: Cache, pool: FieldPool)
    requires pool.Valid() && pool.outside >= Pinned(cache)
    modifies pool`free, pool`outside
    ensures pool.Valid() && pool.outside == old(pool.outside) - Pinned(cache)
  {
    hide TexturesIn;
    hide Pinned;
    NothingCached();
    var left := cache;
    while left != map[]
      invariant pool.Valid() && pool.outside >= Pinned(left)
      invariant pool.outside - Pinned(left) == old(pool.outside) - Pinned(cache)
      decreases |left|
    {
      var f :| f in left;
      Dropping(left, f);
      ReleaseAll(left[f].snapshot.slots, pool);
      left := left - {f};
    }
  }

  /** The strictly least recently used entry that is not `protected`. */
  method FindVictim(cache: Cache, protected: Option<nat>, ghost clock: nat) returns (victim: Option<nat>)
    requires Ticked(cache, clock)
    ensures victim.None? ==> forall f <- cache :: Some(f) == protected
    ensures victim.Some? ==>
      && victim.value in cache && victim != protected
      && forall f <- cache ::
         Some(f) != protected && f != victim.value ==> cache[victim.value].lastUsed < cache[f].lastUsed
  {
    victim := None;
    var left := cache.Keys;
    while left != {}
      invariant left <= cache.Keys
      invariant victim.None? ==> forall f <- cache.Keys - left :: Some(f) == protected
      invariant victim.Some? ==>
        && victim.value in cache && victim != protected
        && forall f <- cache.Keys - left ::
           Some(f) != protected && f != victim.value ==> cache[victim.value].lastUsed < cache[f].lastUsed
      decreases left
    {
      var f :| f in left;
      if Some(f) != protected && (victim.None? || cache[f].lastUsed < cache[victim.value].lastUsed) {
        victim := Some(f);
      }
      left := left - {f};
    }
  }

  /** The greatest of `frames` up to `limit`. */
  ghost function Latest(frames: set<nat>, limit: nat): (r: Option<nat>)
    ensures r.None? ==> forall f <- frames :: f > limit
    ensures r.Some? ==> r.value in frames && r.value <= limit && forall f <- frames :: f <= limit ==> f <= r.value
    decreases limit
  {
    if limit in frames then Some(limit)
    else if limit == 0 then None
    else Latest(frames, limit - 1)
  }

  /** A skipped frame's result and extras go back to the pool. */
  method ReleaseEvaluated(e: Evaluated, pool: FieldPool)
    requires pool.Valid() && pool.outside >= e.Textures()
    modifies pool`free, pool`outside
    ensures pool.Valid() && pool.outside == old(pool.outside) - e.Textures()
  {
    pool.Release(e.value);
    var i := |e.extras|;
    assert e.extras[..i] == e.extras;
    while i > 0
      invariant i <= |e.extras| && pool.Valid()
      invariant pool.outside == old(pool.outside) - e.Textures() + TexturesOf(e.extras[..i])
    {
      i := i - 1;
      assert e.extras[..i + 1] == e.extras[..i] + [e.extras[i]];
      TexturesOfSnoc(e.extras[..i], e.extras[i]);
      pool.Release(e.extras[i]);
    }
  }

  class Timeline {
    const start: nat
    const fps: real
    const budget: nat
    var state: StateStore
    /** `Some(n)` while `state` is what forward playback has on entering frame `n`. */
    var cursor: Option<nat>
    var cache: Cache
    var cacheBytes: nat
    /** The entry that `FindVictim` passes over. */
    var protected: Option<nat>
    var clock: nat
    var caching: bool
    var steps: nat
    var warned: bool
    /** Calls of the evaluator, and those of them that failed. */
    ghost var evaluations: nat
    ghost var failures: nat

    constructor (start: nat, fps: real, budget: nat)
      ensures this.start == start && this.fps == fps && this.budget == budget
      ensures fresh(state) && cursor == None && cache == map[] && state.slots == map[]
      ensures caching && steps == 0 && evaluations == 0 && failures == 0
      ensures Accounted()
    {
      this.start, this.fps, this.budget := start, fps, budget;
      state := new StateStore();
      cursor, cache, cacheBytes, protected := None, map[], 0, None;
      clock, caching, steps, warned, evaluations, failures := 0, true, 0, false, 0, 0;
      new;
      NothingCached();
    }

    /** The cache's books: its size is exact and within the budget, and the
        snapshot last restored is still there while caching is on. */
    ghost predicate Accounted()
      reads `cache, `cacheBytes, `clock, `caching, `protected
    {
      && cacheBytes == BytesOf(cache) <= budget
      && Ticked(cache, clock)
      && (!caching ==> cache == map[])
      && (caching && protected.Some? ==> protected.value in cache)
    }

    /** Textures the timeline holds. */
    ghost function Owned(): nat
      reads `cache, `state, state
    {
      TexturesIn(state.slots) + Pinned(cache)
    }

    /** Everything held agrees with forward playback. */
    ghost predicate Valid(play: Playback, pool: FieldPool)
      reads `cache, `cacheBytes, `clock, `caching, `protected, `cursor, `state, state, pool
    {
      && CacheValid(play, pool)
      && (cursor.Some? ==>
            && Stateful(play.plan.g) && start <= cursor.value <= MAX_FRAME
            && play.Entering(cursor.value) == Ok(state.slots))
    }

    /** The part that survives a failed evaluation. */
    ghost predicate CacheValid(play: Playback, pool: FieldPool)
      reads `cache, `cacheBytes, `clock, `caching, `protected, `state, state, pool
    {
      && play.plan.Valid() && play.start == start && play.fps == fps
      && pool.Valid() && pool.outside >= Owned()
      && Accounted() && Faithful(play, cache)
    }

    /** Every call of the evaluator since was counted as a step or failed. */
    twostate predicate Tallied()
      reads `steps, `evaluations, `failures
    {
      && old(steps) <= steps && old(failures) <= failures
      && evaluations - old(evaluations) == (steps - old(steps)) + (failures - old(failures))
    }

    /** Nothing held, nothing cached; every texture of theirs is idle in the pool. */
    method Reset(pool: FieldPool)
      requires pool.Valid() && pool.outside >= Owned()
      modifies this, state, pool`free, pool`outside
      ensures pool.Valid() && pool.outside == old(pool.outside) - old(Owned())
      ensures state == old(state) && state.slots == map[] && cache == map[] && Owned() == 0
      ensures cursor == None && protected == None && caching && Accounted()
      ensures steps == old(steps) && evaluations == old(evaluations) && failures == old(failures)
    {
      hide TexturesIn;
      hide Pinned;
      NothingCached();
      NothingOwned<StateKey>();
      state.Clear(pool);
      ReleaseCache(cache, pool);
      cache, cacheBytes, cursor, protected, caching := map[], 0, None, None, true;
    }

    /** Forget everything without pooling it: the device is gone, and its
        textures with it. */
    method Discard(ghost pool: FieldPool)
      requires pool.Valid() && pool.outside >= Owned() && Accounted()
      modifies this, pool`outside, pool`dropped
      ensures pool.Valid() && pool.outside == old(pool.outside) - old(Owned())
      ensures pool.dropped == old(pool.dropped) + old(Owned())
      ensures fresh(state) && state.slots == map[] && cache == map[] && Owned() == 0
      ensures cursor == None && protected == None && Accounted()
      ensures caching == old(caching) && steps == old(steps) && evaluations == old(evaluations)
        && failures == old(failures)
    {
      hide TexturesIn;
      hide Pinned;
      NothingCached();
      NothingOwned<StateKey>();
      pool.dropped := pool.dropped + Owned();
      pool.outside := pool.outside - Owned();
      state := new StateStore();
      cache, cacheBytes, cursor, protected := map[], 0, None, None;
    }

    /** Drop the least recently used entry, unless only the protected one is
        left. */
    method EvictOne(pool: FieldPool) returns (victim: Option<nat>)
      requires Accounted() && pool.Valid() && pool.outside >= Pinned(cache)
      modifies `cache, `cacheBytes, pool`free, pool`outside
      ensures Accounted() && pool.Valid()
      ensures pool.outside - Pinned(cache) == old(pool.outside) - Pinned(old(cache))
      ensures victim.None? ==>
        cache == old(cache) && cacheBytes == old(cacheBytes) && forall f <- cache :: Some(f) == protected
      ensures victim.Some? ==>
        && victim != protected && victim.value in old(cache) && cache == old(cache) - {victim.value}
        && forall f <- cache :: Some(f) != protected ==> old(cache)[victim.value].lastUsed < cache[f].lastUsed
    {
      hide TexturesIn;
      hide Pinned;
      hide BytesOf;
      victim := FindVictim(cache, protected, clock);
      if victim.Some? {
        Dropping(cache, victim.value);
        ReleaseAll(cache[victim.value].snapshot.slots, pool);
        cacheBytes := cacheBytes - cache[victim.value].snapshot.bytes;
        cache := cache - {victim.value};
      }
    }

    lemma NoneGone(cache: Cache, bytes: nat, protected: Option<nat>)
      ensures OnlyOldestGone(cache, cache, protected) && NoneGoneNeedlessly(cache, cache, bytes, budget)
    {
    }

    /** Evicting the oldest of what is left, because `bytes` more do not fit. */
    lemma OneMoreGone(before: Cache, fuller: Cache, victim: nat, bytes: nat, protected: Option<nat>)
      requires OnlyOldestGone(before, fuller, protected) && BytesOf(fuller) + bytes > budget
      requires victim in fuller && Some(victim) != protected
      requires forall f <- fuller - {victim} :: Some(f) != protected ==> fuller[victim].lastUsed < fuller[f].lastUsed
      ensures OnlyOldestGone(before, fuller - {victim}, protected)
      ensures NoneGoneNeedlessly(before, fuller - {victim}, bytes, budget)
    {
      hide BytesOf; hide Pinned;
      Dropping(fuller, victim);
    }

    /** Evict until `bytes` more fit, or only the protected entry is left. */
    method MakeRoom(bytes: nat, pool: FieldPool) returns (fits: bool)
      requires Accounted() && caching && bytes <= budget && pool.Valid() && pool.outside >= Pinned(cache)
      modifies `cache, `cacheBytes, pool`free, pool`outside
      ensures Accounted() && pool.Valid()
      ensures pool.outside - Pinned(cache) == old(pool.outside) - Pinned(old(cache))
      ensures OnlyOldestGone(old(cache), cache, protected)
      ensures NoneGoneNeedlessly(old(cache), cache, bytes, budget)
      ensures old(cacheBytes) + bytes <= budget ==> cache == old(cache)
      ensures fits <==> cacheBytes + bytes <= budget
      ensures !fits ==> protected.Some? && cache.Keys == {protected.value}
    {
      hide TexturesIn;
      hide Pinned;
      hide BytesOf;
      hide OnlyOldestGone;
      hide NoneGoneNeedlessly;
      hide Ticked;
      NoneGone(cache, bytes, protected);
      while cacheBytes + bytes > budget
        invariant Accounted() && pool.Valid() && pool.outside >= Pinned(cache)
        invariant pool.outside - Pinned(cache) == old(pool.outside) - Pinned(old(cache))
        invariant OnlyOldestGone(old(cache), cache, protected)
        invariant NoneGoneNeedlessly(old(cache), cache, bytes, budget)
        invariant old(cacheBytes) + bytes <= budget ==> cache == old(cache) && cacheBytes == old(cacheBytes)
        decreases |cache|
      {
        ghost var fuller := cache;
        var victim := EvictOne(pool);
        if victim.Some? { OneMoreGone(old(cache), fuller, victim.value, bytes, protected); }
        if victim.None? {
          RefusedOnlyByProtected(bytes);
          return false;
        }
      }
      return true;
    }

    /** Make room for a new entry and add it as the newest; where no room can
        be made, the snapshot goes back to the pool, and one over the whole
        budget ends caching. */
    method Insert(frame: nat, snapshot: Snapshot, pool: FieldPool)
      requires Accounted() && caching && frame !in cache
      requires pool.Valid() && pool.outside >= Pinned(cache) + TexturesIn(snapshot.slots)
      modifies `cache, `cacheBytes, `clock, `caching, `warned, pool`free, pool`outside
      ensures Accounted() && pool.Valid()
      ensures pool.outside - Pinned(cache) == old(pool.outside) - Pinned(old(cache)) - TexturesIn(snapshot.slots)
      ensures caching <==> snapshot.bytes <= budget
      ensures frame in cache ==> cache[frame].snapshot == snapshot && Newest(cache, frame)
      ensures caching ==> OnlyOldestGone(old(cache), cache - {frame}, protected)
      ensures caching ==> NoneGoneNeedlessly(old(cache), cache - {frame}, snapshot.bytes, budget)
      ensures caching && frame !in cache ==>
        protected.Some? && cache.Keys == {protected.value} && cacheBytes + snapshot.bytes > budget
      ensures old(cacheBytes) + snapshot.bytes <= budget ==> cache.Keys == old(cache).Keys + {frame}
    {
      hide TexturesIn;
      hide Pinned;
      hide BytesOf;
      hide Ticked;
      NothingCached();
      if snapshot.bytes > budget {
        caching, warned := false, true;
        ReleaseAll(snapshot.slots, pool);
        ReleaseCache(cache, pool);
        cache, cacheBytes := map[], 0;
        return;
      }
      var fits := MakeRoom(snapshot.bytes, pool);
      if !fits {
        ReleaseAll(snapshot.slots, pool);
        assert cache - {frame} == cache;
        return;
      }
      Adding(cache, frame, CacheEntry(snapshot, clock + 1));
      Ticking(cache, clock, frame, snapshot);
      clock := clock + 1;
      cacheBytes := cacheBytes + snapshot.bytes;
      ghost var room := cache;
      cache := cache[frame := CacheEntry(snapshot, clock)];
      assert cache - {frame} == room;
      NewlyNewest(room, clock - 1, frame, snapshot);
    }

    /** Bring back the state entering `frame` from the cache, and protect it. */
    method Restore(ghost play: Playback, frame: nat, pool: FieldPool) returns (ok: bool)
      requires Stateful(play.plan.g)
      requires CacheValid(play, pool) && caching && frame in cache
      modifies this, state, pool
      ensures CacheValid(play, pool) && state == old(state)
      ensures ok ==> Valid(play, pool) && cursor == Some(frame) && protected == Some(frame)
      ensures OnlyTouched(old(cache), cache, frame)
      ensures pool.LostOnlyToFaults() && (ok <==> pool.faults == old(pool.faults))
      ensures pool.outside - Owned() == old(pool.outside) - old(Owned())
      ensures caching == old(caching)
      ensures steps == old(steps) && evaluations == old(evaluations) && failures == old(failures)
    {
      hide TexturesIn;
      hide Pinned;
      hide BytesOf;
      hide Accounted;
      hide Plan.Valid;
      hide Faithful;
      Touch(play, frame);
      ok := state.Restore(cache[frame].snapshot, pool);
      if ok {
        Cached(play, frame);
        cursor := Some(frame);
        Protect(frame);
      }
    }

    lemma Cached(play: Playback, frame: nat)
      requires play.plan.Valid() && Faithful(play, cache) && frame in cache
      ensures play.start <= frame <= MAX_FRAME && play.Entering(frame) == Ok(cache[frame].snapshot.slots)
    {
    }

    method Protect(frame: nat)
      requires Accounted() && frame in cache
      modifies `protected
      ensures Accounted() && protected == Some(frame)
    {
      protected := Some(frame);
    }

    /** Mark an entry as the most recently used. */
    method Touch(ghost play: Playback, frame: nat)
      requires play.plan.Valid() && Accounted() && Faithful(play, cache) && frame in cache
      modifies `cache, `clock
      ensures Accounted() && play.plan.Valid() && Faithful(play, cache)
      ensures Pinned(cache) == Pinned(old(cache))
      ensures OnlyTouched(old(cache), cache, frame)
    {
      hide TexturesIn;
      hide Pinned;
      hide BytesOf;
      hide Plan.Valid;
      hide Faithful;
      hide Ticked;
      Touching(cache, frame, clock + 1);
      Ticking(cache, clock, frame, cache[frame].snapshot);
      StillFaithful(play, cache, frame, clock + 1);
      NewlyNewest(cache, clock, frame, cache[frame].snapshot);
      clock := clock + 1;
      cache := cache[frame := CacheEntry(cache[frame].snapshot, clock)];
    }

    /** Cache the state entering `frame` if it is not cached yet. */
    method Remember(ghost play: Playback, frame: nat, pool: FieldPool) returns (ok: bool)
      requires Valid(play, pool) && cursor == Some(frame)
      modifies this, pool
      ensures Valid(play, pool) && cursor == Some(frame) && state == old(state)
      ensures pool.LostOnlyToFaults() && (ok <==> pool.faults == old(pool.faults))
      ensures pool.outside - Owned() == old(pool.outside) - old(Owned())
      ensures steps == old(steps) && evaluations == old(evaluations) && failures == old(failures)
      ensures !ok || !old(caching) || frame in old(cache) ==> cache == old(cache) && caching == old(caching)
      ensures ok && caching ==> frame in cache || (protected.Some? && cache.Keys == {protected.value})
      ensures ok && old(caching) && !caching ==> BytesIn(state.slots) > budget
    {
      hide TexturesIn;
      hide Pinned;
      hide BytesOf;
      hide Plan.Valid;
      hide Ticked;
      hide OnlyOldestGone;
      hide NoneGoneNeedlessly;
      hide Newest;
      if caching && frame !in cache {
        var snapshot := state.Snapshot(pool);
        if snapshot.None? { return false; }
        ghost var before := cache;
        Insert(frame, snapshot.value, pool);
        if caching { StaysFaithful(play, before, cache, frame, protected); }
      }
      return true;
    }

    /** One evaluation at `frame`, from whatever the slots hold. */
    method EvaluateAt(ghost play: Playback, graph: Graph, dims: Dims, frame: nat, pool: FieldPool)
      returns (r: Result<Evaluated, NodeError>)
      requires Serves(play, graph, dims) && play.plan.Valid()
      requires pool.Valid() && pool.outside >= TexturesIn(state.slots)
      modifies state, pool
      ensures pool.Valid() && pool.outside >= TexturesIn(state.slots)
      ensures pool.outside - TexturesIn(state.slots) - (if r.Ok? then r.value.Textures() else 0) ==
              old(pool.outside) - TexturesIn(old(state.slots))
      ensures r.Ok? ==>
        pool.faults == old(pool.faults)
        && play.At(frame, old(state.slots)) == Ok((r.value.value, r.value.extras, state.slots))
      ensures r.Err? && pool.faults == old(pool.faults) ==> play.At(frame, old(state.slots)).Err?
      ensures pool.LostOnlyToFaults()
      ensures r == Err(Gpu) <==> pool.faults != old(pool.faults)
    {
      hide TexturesIn;
      hide TexturesOf;
      hide Plan.Expected;
      hide Plan.Valid;
      hide PlanFor;
      hide Evaluable;
      r := EvalFrame(graph, pool, state, TimeAt(frame, start, fps), dims);
    }

    /** One evaluation of `frame`, with the state it starts from remembered before. */
    method Step(ghost play: Playback, graph: Graph, dims: Dims, frame: nat, pool: FieldPool)
      returns (r: Result<Evaluated, NodeError>, ghost remembered: bool)
      requires Serves(play, graph, dims)
      requires Valid(play, pool) && cursor == Some(frame)
      modifies this, state, pool
      ensures CacheValid(play, pool) && state == old(state)
      ensures r.Ok? ==>
        && Valid(play, pool) && pool.faults == old(pool.faults)
        && play.Produces(frame) == Ok((r.value.value, r.value.extras, state.slots))
        && cursor == (if frame < MAX_FRAME then Some(frame + 1) else None)
      ensures steps == old(steps) + (if r.Ok? then 1 else 0) && (r.Ok? ==> remembered)
      ensures Tallied() && evaluations == old(evaluations) + (if remembered then 1 else 0)
      ensures !remembered ==> pool.faults != old(pool.faults)
      ensures r.Err? && pool.faults == old(pool.faults) ==> play.Produces(frame).Err?
      ensures pool.LostOnlyToFaults()
      ensures r == Err(Gpu) <==> pool.faults != old(pool.faults)
      ensures pool.outside - Owned() - (if r.Ok? then r.value.Textures() else 0) == old(pool.outside) - old(Owned())
    {
      hide TexturesIn;
      hide Pinned;
      hide BytesOf;
      hide TexturesOf;
      hide Playback.At;
      hide BytesIn;
      hide Timeline.Serves;
      hide Plan.Valid;
      hide Accounted;
      hide Faithful;
      var ok := Remember(play, frame, pool);
      if !ok { return Err(Gpu), false; }
      remembered := true;
      evaluations := evaluations + 1;
      r := EvaluateAt(play, graph, dims, frame, pool);
      if r.Err? {
        failures := failures + 1;
        return;
      }
      steps := steps + 1;
      cursor := if frame < MAX_FRAME then Some(frame + 1) else None;
    }

    /** `graph`, at these dims, is what `play` plays. */
    ghost predicate Serves(play: Playback, graph: Graph, dims: Dims)
      reads graph
    {
      && graph.Valid() && PlanFor(graph, play.plan) && Evaluable(graph) && play.plan.g == graph.View()
      && play.start == start && play.fps == fps && play.dims == dims
    }

    /** Where the run to `frame` starts: the latest of the start frame, a held
        cursor and a cached frame, none of them past `frame`. */
    ghost function Base(frame: nat): nat
      reads this
    {
      var held := if cursor.Some? && cursor.value <= frame then cursor.value else start;
      var cached := Latest(if caching then cache.Keys else {}, frame);
      if cached.Some? && cached.value > held then cached.value else held
    }

    /** The latest cached frame that is not past `frame`. */
    method LatestCached(frame: nat) returns (r: Option<nat>)
      ensures r == Latest(cache.Keys, frame)
    {
      r := None;
      var left := cache.Keys;
      while left != {}
        invariant left <= cache.Keys
        invariant r.None? ==> forall f: nat :: f in cache && f !in left ==> f > frame
        invariant r.Some? ==> r.value in cache && r.value <= frame && forall f: nat ::
          f in cache && f !in left && f <= frame ==> f <= r.value
        decreases left
      {
        var f :| f in left;
        if f <= frame && (r.None? || r.value < f) { r := Some(f); }
        left := left - {f};
      }
    }

    /** Reach the state entering a frame no later than `frame`: keep the held
        one, restore a later cached one, or start over. */
    method Seek(ghost play: Playback, frame: nat, pool: FieldPool) returns (ok: bool)
      requires Stateful(play.plan.g)
      requires Valid(play, pool) && start <= frame <= MAX_FRAME
      modifies this, state, pool
      ensures CacheValid(play, pool) && state == old(state)
      ensures pool.LostOnlyToFaults() && (ok <==> pool.faults == old(pool.faults))
      ensures ok ==> Valid(play, pool) && cursor == Some(old(Base(frame)))
      ensures pool.outside - Owned() == old(pool.outside) - old(Owned())
      ensures steps == old(steps) && evaluations == old(evaluations) && failures == old(failures)
    {
      hide TexturesIn;
      hide Pinned;
      hide Accounted;
      hide Faithful;
      hide Plan.Valid;
      NothingOwned<StateKey>();
      if cursor == Some(frame) { return true; }
      var held := if cursor.Some? && cursor.value <= frame then cursor else None;
      var cached := None;
      if caching { cached := LatestCached(frame); }
      if cached.Some? && !(held.Some? && held.value >= cached.value) {
        Cached(play, cached.value);
        ok := Restore(play, cached.value, pool);
        return;
      }
      if held.None? {
        state.Clear(pool);
        cursor := Some(start);
      }
      return true;
    }

    /** Produce `frame`, stepping forward from the nearest state at hand. */
    method AdvanceInner(ghost play: Playback, graph: Graph, dims: Dims, frame: nat, pool: FieldPool)
      returns (r: Result<Evaluated, NodeError>)
      requires Stateful(play.plan.g)
      requires Serves(play, graph, dims)
      requires Valid(play, pool) && start <= frame <= MAX_FRAME
      modifies this, state, pool
      ensures CacheValid(play, pool) && state == old(state)
      ensures r.Ok? ==>
        && Valid(play, pool) && pool.faults == old(pool.faults)
        && play.Produces(frame) == Ok((r.value.value, r.value.extras, state.slots))
        && cursor == (if frame < MAX_FRAME then Some(frame + 1) else None)
        && steps == old(steps) + (frame - old(Base(frame)) + 1) && failures == old(failures)
      ensures Tallied()
      ensures r.Err? && pool.faults == old(pool.faults) ==> play.Produces(frame).Err? && failures == old(failures) + 1
      ensures pool.LostOnlyToFaults()
      ensures r == Err(Gpu) <==> pool.faults != old(pool.faults)
      ensures evaluations <= old(evaluations) + (frame - old(Base(frame)) + 1)
      ensures pool.outside - Owned() - (if r.Ok? then r.value.Textures() else 0) == old(pool.outside) - old(Owned())
    {
      hide TexturesIn;
      hide TexturesOf;
      hide Pinned;
      hide Accounted;
      hide Faithful;
      hide Plan.Valid;
      hide PlanFor;
      hide Evaluable;
      hide Playback.Entering;
      hide Playback.Produces;
      hide Owned;
      ghost var base := Base(frame);
      var ok := Seek(play, frame, pool);
      if !ok { return Err(Gpu); }
      while cursor.Some? && cursor.value < frame
        invariant Serves(play, graph, dims) && Valid(play, pool) && state == old(state)
        invariant cursor.Some? && base <= cursor.value <= frame
        invariant pool.faults == old(pool.faults) && pool.dropped == old(pool.dropped)
        invariant Tallied() && steps == old(steps) + (cursor.value - base) && failures == old(failures)
        invariant pool.outside - Owned() == old(pool.outside) - old(Owned())
        decreases frame - cursor.value
      {
        var here := cursor.value;
        ghost var remembered;
        r, remembered := Step(play, graph, dims, here, pool);
        if r.Err? {
          if play.Produces(here).Err? { play.FailsForGood(here, frame); }
          return;
        }
        ReleaseEvaluated(r.value, pool);
      }
      ghost var remembered;
      r, remembered := Step(play, graph, dims, frame, pool);
    }

    /** `AdvanceInner`, after which a failure leaves no held state to play on from. */
    method Advance(ghost play: Playback, graph: Graph, dims: Dims, frame: nat, pool: FieldPool)
      returns (r: Result<Evaluated, NodeError>)
      requires Stateful(play.plan.g)
      requires Serves(play, graph, dims)
      requires Valid(play, pool) && start <= frame <= MAX_FRAME
      modifies this, state, pool
      ensures Valid(play, pool) && state == old(state)
      ensures r.Ok? ==>
        && pool.faults == old(pool.faults)
        && play.Produces(frame) == Ok((r.value.value, r.value.extras, state.slots))
        && cursor == (if frame < MAX_FRAME then Some(frame + 1) else None)
        && steps == old(steps) + (frame - old(Base(frame)) + 1) && failures == old(failures)
      ensures Tallied()
      ensures r.Err? ==> cursor == None && state.slots == map[]
      ensures r.Err? && pool.faults == old(pool.faults) ==> play.Produces(frame).Err? && failures == old(failures) + 1
      ensures pool.LostOnlyToFaults()
      ensures r == Err(Gpu) <==> pool.faults != old(pool.faults)
      ensures evaluations <= old(evaluations) + (frame - old(Base(frame)) + 1)
      ensures pool.outside - Owned() - (if r.Ok? then r.value.Textures() else 0) == old(pool.outside) - old(Owned())
    {
      hide TexturesIn;
      hide TexturesOf;
      hide Pinned;
      hide Accounted;
      hide Faithful;
      hide Plan.Valid;
      hide PlanFor;
      hide Evaluable;
      NothingOwned<StateKey>();
      r := AdvanceInner(play, graph, dims, frame, pool);
      if r.Err? {
        state.Clear(pool);
        cursor := None;
      }
    }

    /** Produce `frame`; frames before the start produce the start frame.
        When nothing faults, this succeeds exactly when stepping forward from
        the start does, and then yields the same result, extras and state.
        Without state it is one evaluation, alike for every state. The steps
        counted are the evaluator's calls unless there is state and one of them
        failed: when nothing faults, exactly where forward playback fails too. */
    method Goto(ghost play: Playback, graph: Graph, dims: Dims, frame: nat, pool: FieldPool)
      returns (r: Result<Evaluated, NodeError>)
      requires Serves(play, graph, dims)
      requires Valid(play, pool) && frame <= MAX_FRAME && start <= MAX_FRAME
      modifies this, state, pool
      ensures Valid(play, pool) && state == old(state)
      ensures r.Ok? ==> pool.faults == old(pool.faults)
      ensures pool.LostOnlyToFaults()
      ensures r == Err(Gpu) <==> pool.faults != old(pool.faults)
      ensures pool.outside - Owned() - (if r.Ok? then r.value.Textures() else 0) == old(pool.outside) - old(Owned())
      ensures Stateful(play.plan.g) ==> var target := if frame < start then start else frame;
        && (r.Ok? ==> play.Produces(target) == Ok((r.value.value, r.value.extras, state.slots)))
        && (r.Ok? ==> cursor == if target < MAX_FRAME then Some(target + 1) else None)
        && (r.Ok? ==>
           steps == old(steps) + (target - old(Base(target)) + 1)
             && evaluations - old(evaluations) == steps - old(steps))
        && (r.Err? && pool.faults == old(pool.faults) ==> play.Produces(target).Err?)
        && evaluations <= old(evaluations) + 2 * (target - start + 1)
      ensures !Stateful(play.plan.g) ==> var target := if frame < start then start else frame;
        && (r.Ok? ==> play.At(target, map[]).Ok?)
        && (r.Ok? ==>
           play.At(target, map[]).value.0 == r.value.value && play.At(target, map[]).value.1 == r.value.extras)
        && (r.Err? && pool.faults == old(pool.faults) ==> play.At(target, map[]).Err?)
        && steps == old(steps) + 1 && evaluations == old(evaluations) + 1
      ensures Stateful(play.plan.g) ==> Tallied()
      ensures steps - old(steps) == evaluations - old(evaluations)
        <==> !Stateful(play.plan.g) || failures == old(failures)
      ensures pool.faults == old(pool.faults) ==>
        (steps - old(steps) == evaluations - old(evaluations)
         <==> !Stateful(play.plan.g) || play.Produces(if frame < start then start else frame).Ok?)
      ensures var k := if frame < start then 0 else frame - start;
        if Stateful(play.plan.g) then
          && (r.Ok? ==> play.CanShow(k, r.value.value, r.value.extras, state.slots))
          && (r.Err? && pool.faults == old(pool.faults) ==>
             forall value: Value, values: seq<Value>, after: State :: !play.CanShow(k, value, values, after))
        else
          && (r.Ok? ==> play.ShowsAlone(k, r.value.value, r.value.extras))
          && (r.Err? && pool.faults == old(pool.faults) ==>
             forall value: Value, values: seq<Value> :: !play.ShowsAlone(k, value, values))
    {
      hide Playback.CanShow;
      hide Playback.ShowsAlone;
      hide TexturesIn;
      hide TexturesOf;
      hide Pinned;
      hide Accounted;
      hide Plan.Expected;
      hide Plan.Valid;
      hide PlanFor;
      hide Evaluable;
      hide Playback.Entering;
      hide Playback.Produces;
      var target := if frame < start then start else frame;
      play.AllExactly(target - start);
      if !Stateful(graph.View()) {
        r := EvaluateOnce(play, graph, dims, target, pool);
        return;
      }
      r := AdvanceOrRetry(play, graph, dims, target, pool);
    }

    /** `Advance`, once more from nothing if the slots were made for other dims. */
    method AdvanceOrRetry(ghost play: Playback, graph: Graph, dims: Dims, target: nat, pool: FieldPool)
      returns (r: Result<Evaluated, NodeError>)
      requires Stateful(play.plan.g)
      requires Serves(play, graph, dims)
      requires Valid(play, pool) && start <= target <= MAX_FRAME
      modifies this, state, pool
      ensures Valid(play, pool) && state == old(state)
      ensures r.Ok? ==>
        && pool.faults == old(pool.faults)
        && play.Produces(target) == Ok((r.value.value, r.value.extras, state.slots))
        && cursor == (if target < MAX_FRAME then Some(target + 1) else None)
        && steps == old(steps) + (target - old(Base(target)) + 1) && failures == old(failures)
      ensures Tallied() && (r.Err? && pool.faults == old(pool.faults) ==> failures > old(failures))
      ensures r.Err? && pool.faults == old(pool.faults) ==> play.Produces(target).Err?
      ensures evaluations <= old(evaluations) + 2 * (target - start + 1)
      ensures pool.LostOnlyToFaults()
      ensures r == Err(Gpu) <==> pool.faults != old(pool.faults)
      ensures pool.outside - Owned() - (if r.Ok? then r.value.Textures() else 0) == old(pool.outside) - old(Owned())
    {
      hide TexturesIn;
      hide TexturesOf;
      hide Pinned;
      hide Accounted;
      hide Plan.Expected;
      hide Plan.Valid;
      hide PlanFor;
      hide Evaluable;
      hide Playback.Entering;
      hide Playback.Produces;
      r := Advance(play, graph, dims, target, pool);
      if r.Err? && r.error.StateShape? {
        assert play.Produces(target).Err?;
        Reset(pool);
        r := Advance(play, graph, dims, target, pool);
      }
    }

    /** One evaluation of a graph that keeps no state. */
    method EvaluateOnce(ghost play: Playback, graph: Graph, dims: Dims, frame: nat, pool: FieldPool)
      returns (r: Result<Evaluated, NodeError>)
      requires Serves(play, graph, dims) && !Stateful(play.plan.g)
      requires Valid(play, pool)
      modifies `steps, `evaluations, `failures, state, pool
      ensures Valid(play, pool)
      ensures r.Ok? ==> pool.faults == old(pool.faults)
      ensures pool.LostOnlyToFaults()
      ensures r == Err(Gpu) <==> pool.faults != old(pool.faults)
      ensures pool.outside - Owned() - (if r.Ok? then r.value.Textures() else 0) == old(pool.outside) - old(Owned())
      ensures r.Ok? ==>
        && play.At(frame, map[]).Ok?
        && play.At(frame, map[]).value.0 == r.value.value && play.At(frame, map[]).value.1 == r.value.extras
      ensures r.Err? && pool.faults == old(pool.faults) ==> play.At(frame, map[]).Err?
      ensures steps == old(steps) + 1 && evaluations == old(evaluations) + 1
      ensures failures == old(failures) + if r.Ok? then 0 else 1
    {
      hide TexturesIn;
      hide TexturesOf;
      hide Pinned;
      hide Accounted;
      hide Plan.Expected;
      hide Plan.Valid;
      hide PlanFor;
      hide Evaluable;
      hide Playback.Entering;
      steps, evaluations := steps + 1, evaluations + 1;
      play.plan.StatelessSame(Frame.Frame(TimeAt(frame, start, fps), dims, state.slots), map[]);
      r := EvaluateAt(play, graph, dims, frame, pool);
      if r.Err? { failures := failures + 1; }
    }

    lemma RefusedOnlyByProtected(bytes: nat)
      requires Accounted() && caching && bytes <= budget < cacheBytes + bytes
      requires forall f <- cache :: Some(f) == protected
      ensures protected.Some? && cache.Keys == {protected.value}
    {
      NothingCached();
      assert cache != map[];
      var f :| f in cache;
    }
  }
}
