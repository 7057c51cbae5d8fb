/** The reference-counted evaluator (elements-core `graph/mod.rs`,
    `graph/node.rs`): values are lent, copied for early takers, moved to the
    last user, and released as soon as nobody needs them. */
module Evaluator {
  import opened Values
  import opened FieldPools
  import opened StateStores
  import opened Graphs
  import opened Plans
  import opened Transcripts

  type Counts = map<SocketId, nat>
  type Produced = map<SocketId, Value>

  function Left(remaining: Counts, s: SocketId): nat {
    if s in remaining then remaining[s] else 0
  }

  /** Input sockets whose use is not over: those of the nodes from `k` on,
      except the first one's inputs in `over`. */
  function Open(p: Plan, k: nat, over: set<nat>): set<SocketId> {
    set to | to in p.g.edges && k <= |p.order| && to.node in p.order[k..]
             && !(k < |p.order| && to.node == p.order[k] && to.index in over)
  }

  function OpenOn(p: Plan, k: nat, over: set<nat>, s: SocketId): set<SocketId> {
    set to | to in Open(p, k, over) && p.g.edges[to] == s
  }

  /** What `remaining` must say about `s`: its uses still to come, one more if
      the caller asked for it. */
  function UsesLeft(p: Plan, k: nat, over: set<nat>, s: SocketId): nat {
    |OpenOn(p, k, over, s)| + if s in p.extras then 1 else 0
  }

  /** Whether `s` is held: already made, and used again later, or never to be
      used at all because it is the result. */
  ghost predicate Held(p: Plan, k: nat, over: set<nat>, s: SocketId)
    requires p.Valid() && k <= |p.order|
  {
    && s.node in p.order[..k]
    && s.index < |p.g.nodes[s.node].outputs|
    && (UsesLeft(p, k, over, s) > 0 || (s == p.result && UsesLeft(p, 0, {}, s) == 0))
  }

  /** The evaluator's books: `remaining` counts outstanding uses exactly, and
      `produced` holds exactly the held sockets, each with its plain value. */
  ghost predicate Books(p: Plan, f: Frame, k: nat, over: set<nat>, produced: Produced, remaining: Counts)
    requires p.Valid() && k <= |p.order| && p.AllFine(f, k)
  {
    forall s: SocketId :: Booked(p, f, k, over, produced, remaining, s)
  }

  ghost predicate Booked(p: Plan, f: Frame, k: nat, over: set<nat>, produced: Produced, remaining: Counts, s: SocketId)
    requires p.Valid() && k <= |p.order| && p.AllFine(f, k)
  {
    && Left(remaining, s) == UsesLeft(p, k, over, s)
    && (s in produced <==> Held(p, k, over, s))
    && (s in produced ==> Made(p, f, k, s) && produced[s] == p.Out(s, f))
  }

  ghost predicate Made(p: Plan, f: Frame, k: nat, s: SocketId)
    requires p.Valid() && k <= |p.order| && p.AllFine(f, k)
  {
    s.node in p.order && s.index < |p.g.nodes[s.node].outputs| && p.Denote(IndexOf(p.order, s.node), f).Ok?
  }

  lemma MadeBefore(p: Plan, f: Frame, k: nat, s: SocketId)
    requires p.Valid() && k <= |p.order| && p.AllFine(f, k)
    requires s.node in p.order[..k] && s.index < |p.g.nodes[s.node].outputs|
    ensures Made(p, f, k, s)
  {
    var i :| 0 <= i < k && p.order[i] == s.node;
    assert IndexOf(p.order, s.node) == i;
  }

  function DropUse(remaining: Counts, s: SocketId): Counts {
    if Left(remaining, s) <= 1 then remaining - {s} else remaining[s := Left(remaining, s) - 1]
  }

  function DropValue(produced: Produced, remaining: Counts, s: SocketId): Produced {
    if Left(remaining, s) <= 1 then produced - {s} else produced
  }

  lemma OneUseLess(p: Plan, k: nat, over: set<nat>, i: nat, s: SocketId)
    requires p.Valid() && k < |p.order|
    requires SocketId(p.order[k], i) in p.g.edges && i !in over
    ensures UsesLeft(p, k, over, s) ==
            UsesLeft(p, k, over + {i}, s) + if s == p.g.edges[SocketId(p.order[k], i)] then 1 else 0
  {
    hide Plan.Valid;
    var to := SocketId(p.order[k], i);
    assert p.order[k] in p.order[k..];
    assert OpenOn(p, k, over + {i}, s) == OpenOn(p, k, over, s) - {to};
  }

  /** The source of an input still to be used is made and held. */
  lemma SourceHeld(p: Plan, k: nat, over: set<nat>, i: nat)
    requires p.Valid() && k < |p.order|
    requires SocketId(p.order[k], i) in p.g.edges && i !in over
    ensures Held(p, k, over, p.g.edges[SocketId(p.order[k], i)])
    ensures UsesLeft(p, 0, {}, p.g.edges[SocketId(p.order[k], i)]) > 0
  {
    var src := p.g.edges[SocketId(p.order[k], i)];
    OneUseLess(p, k, over, i, src);
    assert p.g.Feeds(src.node, p.order[k]);
    UsesShrink(p, k, over, src);
  }

  /** Ending one use keeps the books. The value was there to be used, and it
      goes exactly when this was the last use. */
  lemma UseEnds(p: Plan, f: Frame, k: nat, over: set<nat>, produced: Produced, remaining: Counts, i: nat)
    requires p.Valid() && k < |p.order| && p.AllFine(f, k) && Books(p, f, k, over, produced, remaining)
    requires SocketId(p.order[k], i) in p.g.edges && i !in over
    ensures var src := p.g.edges[SocketId(p.order[k], i)];
            src in produced && Left(remaining, src) > 0 && Made(p, f, k, src) && produced[src] == p.Out(src, f)
            && Books(p, f, k, over + {i}, DropValue(produced, remaining, src), DropUse(remaining, src))
  {
    var src := p.g.edges[SocketId(p.order[k], i)];
    assert Booked(p, f, k, over, produced, remaining, src);
    SourceHeld(p, k, over, i);
    OneUseLess(p, k, over, i, src);
    forall s: SocketId
      ensures Booked(p, f, k, over + {i}, DropValue(produced, remaining, src), DropUse(remaining, src), s)
    {
      assert Booked(p, f, k, over, produced, remaining, s);
      UseEndsAt(p, f, k, over, produced, remaining, i, s);
    }
  }

  lemma UseEndsAt(p: Plan, f: Frame, k: nat, over: set<nat>, produced: Produced, remaining: Counts, i: nat, s: SocketId)
    requires p.Valid() && k < |p.order| && p.AllFine(f, k) && Booked(p, f, k, over, produced, remaining, s)
    requires SocketId(p.order[k], i) in p.g.edges && i !in over
    ensures var src := p.g.edges[SocketId(p.order[k], i)];
            Booked(p, f, k, over + {i}, DropValue(produced, remaining, src), DropUse(remaining, src), s)
  {
    OneUseLess(p, k, over, i, s);
    SourceHeld(p, k, over, i);
  }

  lemma UsesShrink(p: Plan, k: nat, over: set<nat>, s: SocketId)
    requires k <= |p.order|
    ensures OpenOn(p, k, over, s) <= OpenOn(p, 0, {}, s) == p.Readers(s)
    ensures UsesLeft(p, k, over, s) <= UsesLeft(p, 0, {}, s)
  {
    assert p.order[0..] == p.order;
    assert forall id :: id in p.order[k..] ==> id in p.order;
    SubsetSize(OpenOn(p, k, over, s), OpenOn(p, 0, {}, s));
  }

  lemma {:induction false} SubsetSize<T>(a: set<T>, b: set<T>)
    requires a <= b
    ensures |a| <= |b|
  {
    if a != {} {
      var x :| x in a;
      SubsetSize(a - {x}, b - {x});
    }
  }

  /** An unconnected input has no use to end. */
  lemma NoUse(p: Plan, f: Frame, k: nat, over: set<nat>, produced: Produced, remaining: Counts, i: nat)
    requires p.Valid() && k < |p.order| && p.AllFine(f, k) && Books(p, f, k, over, produced, remaining)
    requires SocketId(p.order[k], i) !in p.g.edges
    ensures Books(p, f, k, over + {i}, produced, remaining)
  {
    assert Open(p, k, over + {i}) == Open(p, k, over);
    forall s: SocketId ensures Booked(p, f, k, over + {i}, produced, remaining, s) {
      assert Booked(p, f, k, over, produced, remaining, s);
      assert OpenOn(p, k, over + {i}, s) == OpenOn(p, k, over, s);
    }
  }

  /** While node `k` runs, nobody has used its outputs yet, so the evaluator's
      test for a wanted output is the plan's. */
  lemma WantedNow(p: Plan, k: nat, over: set<nat>, i: nat)
    requires p.Valid() && k < |p.order|
    ensures var s := SocketId(p.order[k], i);
            UsesLeft(p, k, over, s) == UsesLeft(p, k + 1, {}, s) == UsesLeft(p, 0, {}, s)
            && (p.Wanted(s) <==> s == p.result || UsesLeft(p, k, over, s) > 0)
  {
    var s := SocketId(p.order[k], i);
    forall to | to in p.g.edges && p.g.edges[to] == s && to.node in p.order
      ensures to.node in p.order[k + 1..] && to.node != p.order[k]
    {
      ReaderAfter(p, k, s, to);
    }
    hide Plan.Valid; hide Graph.Valid;
    assert p.order[0..] == p.order;
    assert forall id :: id in p.order[k + 1..] ==> id in p.order[k..];
    assert OpenOn(p, k + 1, {}, s) == p.Readers(s);
    assert OpenOn(p, k, over, s) == p.Readers(s);
    assert OpenOn(p, 0, {}, s) == p.Readers(s);
  }

  /** Whoever reads node `k` comes after it. */
  lemma ReaderAfter(p: Plan, k: nat, s: SocketId, to: SocketId)
    requires p.Valid() && k < |p.order| && s.node == p.order[k]
    requires to in p.g.edges && p.g.edges[to] == s && to.node in p.order
    ensures to.node in p.order[k + 1..] && to.node != p.order[k]
  {
    var j := IndexOf(p.order, to.node);
    assert p.g.Feeds(s.node, p.order[j]);
    var l :| 0 <= l < j && p.order[l] == s.node;
    assert p.order[j] == p.order[k + 1..][j - k - 1];
  }

  /** Every use of node `k` is over once its inputs are. */
  lemma NodeOver(p: Plan, k: nat, over: set<nat>)
    requires p.Valid() && k < |p.order|
    requires forall i: nat :: i < |p.NodeAt(k).inputs| ==> i in over
    ensures Open(p, k, over) == Open(p, k + 1, {})
  {
    assert p.order[k..] == [p.order[k]] + p.order[k + 1..];
    assert p.order[k] !in p.order[k + 1..];
  }

  predicate Keeps(p: Plan, remaining: Counts, s: SocketId) {
    s == p.result || Left(remaining, s) > 0
  }

  /** The first `n` outputs of node `k`, less those nobody wants. */
  function Kept(p: Plan, remaining: Counts, k: nat, outputs: seq<Value>, n: nat): Produced
    requires k < |p.order| && n <= |outputs|
  {
    if n == 0 then map[]
    else
      var s := SocketId(p.order[k], n - 1);
      if Keeps(p, remaining, s) then Kept(p, remaining, k, outputs, n - 1)[s := outputs[n - 1]]
      else Kept(p, remaining, k, outputs, n - 1)
  }

  lemma Published(p: Plan, f: Frame, k: nat, over: set<nat>, produced: Produced, remaining: Counts, outputs: seq<Value>)
    requires p.Valid() && k < |p.order| && p.AllFine(f, k) && Books(p, f, k, over, produced, remaining)
    requires forall i: nat :: i < |p.NodeAt(k).inputs| ==> i in over
    requires p.Denote(k, f).Ok? && p.Denote(k, f).value.0 == outputs
    ensures p.AllFine(f, k + 1)
    ensures Books(p, f, k + 1, {}, produced + Kept(p, remaining, k, outputs, |outputs|), remaining)
    ensures produced.Keys !! Kept(p, remaining, k, outputs, |outputs|).Keys
  {
    var now := produced + Kept(p, remaining, k, outputs, |outputs|);
    var next := k + 1;
    NextFine(p, f, k);
    forall s: SocketId ensures Booked(p, f, next, {}, now, remaining, s) {
      assert Booked(p, f, k, over, produced, remaining, s);
      PublishedAt(p, f, k, over, produced, remaining, outputs, s);
    }
    forall s: SocketId | s in produced ensures s !in Kept(p, remaining, k, outputs, |outputs|) {
      assert Booked(p, f, k, over, produced, remaining, s);
      PublishedAt(p, f, k, over, produced, remaining, outputs, s);
    }
  }

  lemma NextFine(p: Plan, f: Frame, k: nat)
    requires p.Valid() && k < |p.order| && p.AllFine(f, k) && p.Denote(k, f).Ok?
    ensures p.AllFine(f, k + 1)
  {
  }

  lemma {:induction false} KeptAt(p: Plan, remaining: Counts, k: nat, outputs: seq<Value>, n: nat, s: SocketId)
    requires k < |p.order| && n <= |outputs|
    ensures s in Kept(p, remaining, k, outputs, n) <==>
            s.node == p.order[k] && s.index < n && Keeps(p, remaining, s)
    ensures s in Kept(p, remaining, k, outputs, n) ==> Kept(p, remaining, k, outputs, n)[s] == outputs[s.index]
  {
    if n > 0 { KeptAt(p, remaining, k, outputs, n - 1, s); }
  }

  lemma KeptNext(before: Produced, p: Plan, remaining: Counts, k: nat, outputs: seq<Value>, i: nat)
    requires k < |p.order| && i < |outputs|
    requires before.Keys !! Kept(p, remaining, k, outputs, |outputs|).Keys
    ensures var s := SocketId(p.order[k], i);
            var now := before + Kept(p, remaining, k, outputs, i);
            && before + Kept(p, remaining, k, outputs, i + 1)
               == (if Keeps(p, remaining, s) then now[s := outputs[i]] else now)
            && (Keeps(p, remaining, s) ==> s !in now)
  {
    var s := SocketId(p.order[k], i);
    KeptAt(p, remaining, k, outputs, i, s);
    KeptAt(p, remaining, k, outputs, |outputs|, s);
    KeptOne(p, remaining, k, outputs, i);
    hide Kept; hide Keeps;
    assert before + Kept(p, remaining, k, outputs, i)[s := outputs[i]]
      == (before + Kept(p, remaining, k, outputs, i))[s := outputs[i]];
  }

  lemma KeptOne(p: Plan, remaining: Counts, k: nat, outputs: seq<Value>, i: nat)
    requires k < |p.order| && i < |outputs|
    ensures var s, kept := SocketId(p.order[k], i), Kept(p, remaining, k, outputs, i);
      Kept(p, remaining, k, outputs, i + 1) == if Keeps(p, remaining, s) then kept[s := outputs[i]] else kept
  {
  }

  lemma HeldNext(p: Plan, k: nat, over: set<nat>, s: SocketId)
    requires p.Valid() && k < |p.order|
    requires forall i: nat :: i < |p.NodeAt(k).inputs| ==> i in over
    ensures UsesLeft(p, k + 1, {}, s) == UsesLeft(p, k, over, s)
    ensures s.node == p.order[k] ==> !Held(p, k, over, s)
    ensures Held(p, k + 1, {}, s) <==>
            || Held(p, k, over, s)
            || (s.node == p.order[k] && s.index < |p.NodeAt(k).outputs|
               && (s == p.result || UsesLeft(p, k, over, s) > 0))
  {
    NodeOver(p, k, over);
    assert OpenOn(p, k + 1, {}, s) == OpenOn(p, k, over, s);
    assert p.order[..k + 1] == p.order[..k] + [p.order[k]];
    assert p.order[k] !in p.order[..k];
    if s.node == p.order[k] { WantedNow(p, k, over, s.index); }
  }

  lemma PublishedAt(p: Plan, f: Frame, k: nat, over: set<nat>, produced: Produced, remaining: Counts,
      outputs: seq<Value>, s: SocketId)
    requires p.Valid() && k < |p.order| && p.AllFine(f, k) && Booked(p, f, k, over, produced, remaining, s)
    requires forall i: nat :: i < |p.NodeAt(k).inputs| ==> i in over
    requires p.Denote(k, f).Ok? && p.Denote(k, f).value.0 == outputs
    ensures p.AllFine(f, k + 1)
    ensures Booked(p, f, k + 1, {}, produced + Kept(p, remaining, k, outputs, |outputs|), remaining, s)
    ensures s in produced ==> s !in Kept(p, remaining, k, outputs, |outputs|)
  {
    KeptAt(p, remaining, k, outputs, |outputs|, s);
    HeldNext(p, k, over, s);
    if s.node == p.order[k] { assert IndexOf(p.order, s.node) == k; }
  }

  /** How many textures a list of values owns. */
  ghost function TexturesOf(vs: seq<Value>): nat {
    if vs == [] then 0 else TexturesOf(vs[..|vs| - 1]) + |vs[|vs| - 1].Textures()|
  }

  lemma NothingOwned<K>()
    ensures TexturesOf([]) == 0 && TexturesIn<K>(map[]) == 0
  {
  }

  lemma TexturesOfSnoc(vs: seq<Value>, v: Value)
    ensures TexturesOf(vs + [v]) == TexturesOf(vs) + |v.Textures()|
  {
    assert (vs + [v])[..|vs|] == vs;
  }

  lemma SlotsApart(m: State, key: StateKey)
    ensures Local(m - {key}, key.node) == Local(m, key.node) - {key}
    ensures Others(m - {key}, key.node) == Others(m, key.node)
    ensures key !in m ==> m - {key} == m && Local(m, key.node) - {key} == Local(m, key.node)
  {
  }

  lemma Rejoined(m: State, id: NodeId)
    ensures m == Replace(m, id, Local(m, id))
  {
  }

  lemma SlotsJoined(m: State, key: StateKey, v: Value)
    ensures Local(m[key := v], key.node) == Local(m, key.node)[key := v]
    ensures Others(m[key := v], key.node) == Others(m, key.node)
  {
  }

  /** One evaluation in progress, with the context of the node now running. */
  class Run {
    const plan: Plan
    const time: Time
    const dims: Dims
    const pool: FieldPool
    const state: StateStore
    /** The frame as the plain meaning sees it: its state is the initial one. */
    ghost const frame: Frame
    /** Textures that belong to others: the caller, the snapshot cache. */
    ghost const base: nat

    var produced: Produced
    var remaining: Counts
    var copies: nat
    /** The running node's inputs whose use is over. */
    var over: set<nat>
    /** What the running node owns. */
    var held: seq<Value>

    ghost predicate Ledger()
      reads this, pool, state
    {
      && pool.Valid()
      && pool.outside == base + TexturesOf(held) + TexturesIn(produced) + TexturesIn(state.slots)
    }

    ghost predicate At(k: nat)
      reads this, pool, state
    {
      && plan.Valid() && k <= |plan.order| && plan.AllFine(frame, k)
      && frame.time == time && frame.dims == dims
      && Books(plan, frame, k, over, produced, remaining)
      && Ledger()
    }

    constructor (plan: Plan, time: Time, dims: Dims, pool: FieldPool, state: StateStore)
      requires pool.Valid() && pool.outside >= TexturesIn(state.slots)
      ensures this.plan == plan && this.time == time && this.dims == dims && this.pool == pool && this.state == state
      ensures frame == Frame.Frame(time, dims, state.slots)
      ensures base == pool.outside - TexturesIn(state.slots)
      ensures produced == map[] && remaining == map[] && copies == 0 && over == {} && held == []
      ensures Ledger()
    {
      this.plan, this.time, this.dims, this.pool, this.state := plan, time, dims, pool, state;
      frame := Frame.Frame(time, dims, state.slots);
      base := pool.outside - TexturesIn(state.slots);
      produced, remaining, copies, over, held := map[], map[], 0, {}, [];
    }

    /** A borrower of `src` is done; with the last of them the value goes, its textures released. */
    method Consume(src: SocketId)
      requires Ledger() && src in produced && Left(remaining, src) > 0
      modifies `remaining, `produced, pool`free, pool`outside
      ensures Ledger()
      ensures remaining == DropUse(old(remaining), src)
      ensures produced == DropValue(old(produced), old(remaining), src)
    {
      var left := Left(remaining, src) - 1;
      if left == 0 {
        Removing(produced, src);
        pool.Release(produced[src]);
        remaining, produced := remaining - {src}, produced - {src};
      } else {
        remaining := remaining[src := left];
      }
    }

    /** Borrow input `i` of the running node. */
    method Input(k: nat, i: nat) returns (r: Result<Value, NodeError>)
      requires At(k) && k < |plan.order|
      ensures r == if i in over then Err(InputAlreadyTaken(plan.order[k], i))
                   else if SocketId(plan.order[k], i) in plan.g.edges then Ok(InputValue(k, i))
                   else Err(MissingInput(plan.order[k], i))
    {
      var to := SocketId(plan.order[k], i);
      if i in over { return Err(InputAlreadyTaken(to.node, i)); }
      if to !in plan.g.edges { return Err(MissingInput(to.node, i)); }
      UseEnds(plan, frame, k, over, produced, remaining, i);
      return Ok(produced[plan.g.edges[to]]);
    }

    /** Whether there is anything to borrow at input `i`, taken already or not:
        what the plain meaning has there. */
    method InputConnected(k: nat, i: nat) returns (connected: bool)
      requires At(k) && k < |plan.order|
      ensures connected <==> SocketId(plan.order[k], i) in plan.g.edges
      ensures connected <==> i < |Inputs(k)| && Inputs(k)[i].Some?
    {
      InputsExact(k, i);
      return SocketId(plan.order[k], i) in plan.g.edges;
    }

    /** The plain value of a connected input. */
    ghost function InputValue(k: nat, i: nat): Value
      requires plan.Valid() && k < |plan.order| && plan.AllFine(frame, k)
      requires SocketId(plan.order[k], i) in plan.g.edges
    {
      var src := plan.g.edges[SocketId(plan.order[k], i)];
      assert plan.g.Feeds(src.node, plan.order[k]);
      assert src.node in plan.order[..k];
      MadeBefore(plan, frame, k, src);
      plan.Out(src, frame)
    }

    /** Take ownership of input `i`: a move exactly when no other use is left,
        a copy otherwise. */
    method TakeInput(k: nat, i: nat) returns (r: Result<Value, NodeError>)
      requires At(k) && k < |plan.order|
      modifies `produced, `remaining, `copies, `over, `held, pool
      ensures At(k)
      ensures r.Ok? <==>
        pool.faults == old(pool.faults) && i !in old(over) && SocketId(plan.order[k], i) in plan.g.edges
      ensures r.Ok? ==> r.value == InputValue(k, i) && over == old(over) + {i} && held == old(held) + [r.value]
      ensures r.Ok? ==> var src := plan.g.edges[SocketId(plan.order[k], i)];
        && remaining == DropUse(old(remaining), src)
        && produced == DropValue(old(produced), old(remaining), src)
        && copies == old(copies) + if UsesLeft(plan, k, old(over), src) == 1 || r.value.Scalar? then 0 else 1
      ensures r.Err? ==>
        over == old(over) && held == old(held) && produced == old(produced) && remaining == old(remaining)
      ensures r.Err? && pool.faults == old(pool.faults) ==>
        r.error == if i in over then InputAlreadyTaken(plan.order[k], i) else MissingInput(plan.order[k], i)
      ensures pool.LostOnlyToFaults()
      ensures pool.faults != old(pool.faults) ==> r == Err(Gpu)
    {
      hide TexturesIn;
      hide TexturesOf;
      var to := SocketId(plan.order[k], i);
      if i in over { return Err(InputAlreadyTaken(to.node, i)); }
      if to !in plan.g.edges { return Err(MissingInput(to.node, i)); }
      var src := plan.g.edges[to];
      UseEnds(plan, frame, k, over, produced, remaining, i);
      assert Booked(plan, frame, k, over, produced, remaining, src);
      var value := Own(src);
      if value.None? { return Err(Gpu); }
      over := over + {i};
      return Ok(value.value);
    }

    /** End one use of `src` with the caller as owner: the last use moves the
        value out, an earlier one copies it. */
    method Own(src: SocketId) returns (r: Option<Value>)
      requires Ledger() && src in produced && Left(remaining, src) > 0
      modifies `produced, `remaining, `copies, `held, pool
      ensures Ledger()
      ensures pool.LostOnlyToFaults() && (r.Some? <==> pool.faults == old(pool.faults))
      ensures r.Some? ==>
        && r.value == old(produced)[src] && held == old(held) + [r.value]
        && remaining == DropUse(old(remaining), src)
        && produced == DropValue(old(produced), old(remaining), src)
        && copies == old(copies) + if Left(old(remaining), src) == 1 || r.value.Scalar? then 0 else 1
      ensures r.None? ==> held == old(held) && produced == old(produced) && remaining == old(remaining)
    {
      hide TexturesIn; hide TexturesOf;
      var left := Left(remaining, src);
      if left <= 1 {
        var value := Move(src);
        remaining := remaining - {src};
        return Some(value);
      }
      r := Copy(src);
      if r.Some? {
        if !r.value.Scalar? { copies := copies + 1; }
        remaining := remaining[src := left - 1];
      }
    }

    method Move(src: SocketId) returns (value: Value)
      requires Ledger() && src in produced
      modifies `produced, `held
      ensures Ledger()
      ensures value == old(produced)[src] && held == old(held) + [value] && produced == old(produced) - {src}
    {
      hide TexturesIn; hide TexturesOf;
      value := produced[src];
      Removing(produced, src);
      TexturesOfSnoc(held, value);
      produced := produced - {src};
      held := held + [value];
    }

    method Copy(src: SocketId) returns (r: Option<Value>)
      requires Ledger() && src in produced
      modifies `held, pool
      ensures Ledger()
      ensures pool.LostOnlyToFaults() && (r.Some? <==> pool.faults == old(pool.faults))
      ensures r.Some? ==> r.value == produced[src] && held == old(held) + [r.value]
      ensures r.None? ==> held == old(held)
    {
      hide TexturesIn; hide TexturesOf;
      r := pool.Duplicate(produced[src]);
      if r.Some? {
        TexturesOfSnoc(held, r.value);
        held := held + [r.value];
      }
    }

    /** Whether output `i` of the running node will be used. */
    method OutputWanted(k: nat, i: nat) returns (wanted: bool)
      requires At(k) && k < |plan.order|
      ensures wanted == plan.Wanted(SocketId(plan.order[k], i))
    {
      var s := SocketId(plan.order[k], i);
      WantedNow(plan, k, over, i);
      assert Booked(plan, frame, k, over, produced, remaining, s);
      return s == plan.result || Left(remaining, s) > 0;
    }

    /** Hand node `k` its state `slot`, which leaves the store. */
    method TakeState(k: nat, slot: string) returns (r: Result<Option<Value>, NodeError>)
      requires At(k) && k < |plan.order|
      modifies `held, state
      ensures At(k)
      ensures var key := StateKey(plan.order[k], slot);
        if !plan.NodeAt(k).stateful then r == Err(NotStateful(plan.order[k])) && state.slots == old(state.slots)
        else
          && state.slots == old(state.slots) - {key}
          && r == if key !in old(state.slots) then Ok(None)
                  else if old(state.slots)[key].Fits(dims) then Ok(Some(old(state.slots)[key]))
                  else Err(StateShape(plan.order[k], slot))
    {
      hide TexturesIn; hide TexturesOf; hide Books; hide Plan.AllFine;
      if !plan.NodeAt(k).stateful { return Err(NotStateful(plan.order[k])); }
      var key := StateKey(plan.order[k], slot);
      if key !in state.slots { return Ok(None); }
      Removing(state.slots, key);
      var found := state.Take(key);
      TexturesOfSnoc(held, found.value);
      held := held + [found.value];
      return if found.value.Fits(dims) then Ok(found) else Err(StateShape(plan.order[k], slot));
    }

    /** Store a value the running node made, releasing what it replaces. */
    method PutState(k: nat, slot: string, v: Value) returns (r: Result<(), NodeError>)
      requires At(k) && k < |plan.order|
      modifies pool, state
      ensures At(k)
      ensures pool.LostOnlyToFaults()
      ensures !plan.NodeAt(k).stateful ==> r == Err(NotStateful(plan.order[k])) && pool.faults == old(pool.faults)
      ensures plan.NodeAt(k).stateful ==> r == if pool.faults == old(pool.faults) then Ok(()) else Err(Gpu)
      ensures r.Ok? ==> state.slots == old(state.slots)[StateKey(plan.order[k], slot) := v]
      ensures r.Err? ==> state.slots == old(state.slots)
    {
      if !plan.NodeAt(k).stateful { return Err(NotStateful(plan.order[k])); }
      var ok := pool.Obtain(v);
      if !ok { return Err(Gpu); }
      state.Put(StateKey(plan.order[k], slot), v, pool);
      return Ok(());
    }

    /** A node that fails first returns everything it owns. */
    method ReleaseHeld()
      requires Ledger()
      modifies `held, pool`free, pool`outside
      ensures Ledger() && held == []
    {
      while held != []
        invariant Ledger()
        decreases |held|
      {
        var last := held[|held| - 1];
        pool.Release(last);
        held := held[..|held| - 1];
      }
    }

    /** The answer `r`, and what the call did to the inputs taken and the
        slots, are what the plain meaning gives from `taken` and `slots`. */
    ghost predicate Answered(k: nat, h: seq<Reply>, taken: set<nat>, slots: State, r: Result<Reply, NodeError>)
      requires plan.Valid() && k < |plan.order| && plan.AllFine(frame, k)
      reads this, state
    {
      plan.Answer(k, frame, Inputs(k), h, taken, Local(slots, plan.order[k])) ==
      match r
      case Ok(reply) => Go(reply, over, Local(state.slots, plan.order[k]))
      case Err(e) => Stop(Err(e))
    }

    /** Answer the node's next call as its plain meaning does, unless the GPU
        fails. */
    method Call(k: nat, h: seq<Reply>) returns (r: Result<Reply, NodeError>)
      requires At(k) && k < |plan.order|
      requires !Next(k, h).Return? && !Next(k, h).Fail?
      modifies `produced, `remaining, `copies, `over, `held, pool, state
      ensures At(k)
      ensures Others(state.slots, plan.order[k]) == Others(old(state.slots), plan.order[k])
      ensures pool.faults == old(pool.faults) ==> Answered(k, h, old(over), old(state.slots), r)
      ensures pool.LostOnlyToFaults()
      ensures pool.faults != old(pool.faults) ==> r == Err(Gpu)
    {
      hide TexturesIn;
      hide TexturesOf;
      match Next(k, h)
      case InputConnected(i) =>
        var connected := InputConnected(k, i);
        r := Ok(Flag(connected));
      case Input(i) =>
        InputsExact(k, i);
        var v := Input(k, i);
        r := if v.Err? then Err(v.error) else Ok(Lent(v.value));
      case TakeInput(i) =>
        InputsExact(k, i);
        var v := TakeInput(k, i);
        r := if v.Err? then Err(v.error) else Ok(Lent(v.value));
      case OutputWanted(i) =>
        var wanted := OutputWanted(k, i);
        r := Ok(Flag(wanted));
      case TakeState(_) =>
        r := CallState(k, h);
      case PutState(_, _) =>
        r := CallState(k, h);
    }

    method CallState(k: nat, h: seq<Reply>) returns (r: Result<Reply, NodeError>)
      requires At(k) && k < |plan.order|
      requires Next(k, h).TakeState? || Next(k, h).PutState?
      modifies `held, pool, state
      ensures At(k)
      ensures Others(state.slots, plan.order[k]) == Others(old(state.slots), plan.order[k])
      ensures pool.faults == old(pool.faults) ==> Answered(k, h, over, old(state.slots), r)
      ensures pool.LostOnlyToFaults()
      ensures pool.faults != old(pool.faults) ==> r == Err(Gpu)
    {
      hide TexturesIn;
      hide TexturesOf;
      match Next(k, h)
      case TakeState(slot) =>
        SlotsApart(state.slots, StateKey(plan.order[k], slot));
        var found := TakeState(k, slot);
        r := if found.Err? then Err(found.error) else Ok(Slot(found.value));
      case PutState(slot, v) =>
        SlotsJoined(state.slots, StateKey(plan.order[k], slot), v);
        var stored := PutState(k, slot, v);
        r := if stored.Err? then Err(stored.error) else Ok(Stored);
    }

    function Next(k: nat, h: seq<Reply>): Action
      requires k < |plan.order| && plan.order[k] < |plan.g.nodes|
    {
      plan.NodeAt(k).strategy(time, dims, h)
    }

    /** Answer calls until the node ends its `eval`. */
    method Converse(k: nat) returns (r: Result<seq<Reply>, NodeError>)
      requires At(k) && k < |plan.order|
      requires plan.Conclude(k, frame, Inputs(k), [], over, Local(state.slots, plan.order[k])) == plan.Denote(k, frame)
      modifies `produced, `remaining, `copies, `over, `held, pool, state
      ensures At(k)
      ensures Others(state.slots, plan.order[k]) == Others(old(state.slots), plan.order[k])
      ensures r.Ok? ==>
        && pool.faults == old(pool.faults)
        && (Next(k, r.value).Return? || Next(k, r.value).Fail?)
        && plan.Conclude(k, frame, Inputs(k), r.value, over, Local(state.slots, plan.order[k])) == plan.Denote(k, frame)
      ensures r.Err? && pool.faults == old(pool.faults) ==> plan.Denote(k, frame) == Err(r.error)
      ensures pool.LostOnlyToFaults()
      ensures pool.faults != old(pool.faults) ==> r == Err(Gpu)
    {
      hide TexturesIn;
      hide TexturesOf;
      hide Books;
      assert plan.NodeAt(k).WellFormed();
      var h: seq<Reply> := [];
      while !Next(k, h).Return? && !Next(k, h).Fail?
        invariant At(k) && pool.faults == old(pool.faults) && pool.dropped == old(pool.dropped)
        invariant plan.Conclude(k, frame, Inputs(k), h, over, Local(state.slots, plan.order[k]))
          == plan.Denote(k, frame)
        invariant Others(state.slots, plan.order[k]) == Others(old(state.slots), plan.order[k])
        decreases if |h| < plan.NodeAt(k).limit then plan.NodeAt(k).limit - |h| else 0
      {
        if * {
          pool.Fault();
          return Err(Gpu);
        }
        var reply := Call(k, h);
        if reply.Err? { return Err(reply.error); }
        h := h + [reply.value];
      }
      return Ok(h);
    }

    /** Run node `k`'s `eval`. Any GPU call may fail; otherwise the node does
        exactly what its plain meaning does. */
    method EvalNode(k: nat) returns (r: Result<seq<Value>, NodeError>)
      requires At(k) && k < |plan.order| && over == {} && held == []
      requires state.slots == plan.StateAfter(frame, k)
      modifies `produced, `remaining, `copies, `over, `held, pool, state
      ensures At(k)
      ensures r.Ok? ==>
        && pool.faults == old(pool.faults)
        && plan.Denote(k, frame).Ok? && r.value == plan.Denote(k, frame).value.0
        && state.slots == Replace(plan.StateAfter(frame, k), plan.order[k], plan.Denote(k, frame).value.1)
        && held == r.value
      ensures r.Err? ==> held == []
      ensures r.Err? && pool.faults == old(pool.faults) ==> plan.Denote(k, frame) == Err(r.error)
      ensures pool.LostOnlyToFaults()
      ensures pool.faults != old(pool.faults) ==> r == Err(Gpu)
    {
      hide TexturesIn;
      hide TexturesOf;
      hide Books;
      StartsPlain(k);
      var heard := Converse(k);
      if heard.Err? {
        ReleaseHeld();
        return Err(heard.error);
      }
      Rejoined(state.slots, plan.order[k]);
      match Next(k, heard.value)
      case Return(outputs) =>
        r := Finish(outputs);
      case Fail(e) =>
        ReleaseHeld();
        r := Err(WithEvaluatingNode(e, plan.order[k]));
    }

    /** At its start a node hears from the initial state: its own slots are as
        they were when the frame began. */
    lemma StartsPlain(k: nat)
      requires At(k) && k < |plan.order|
      requires state.slots == plan.StateAfter(frame, k)
      ensures plan.Conclude(k, frame, Inputs(k), [], {}, Local(state.slots, plan.order[k])) == plan.Denote(k, frame)
    {
      NotYetRun(k);
      plan.StateUntouched(frame, k, plan.order[k]);
      plan.GatherFine(k, frame, |plan.NodeAt(k).inputs|);
    }

    lemma InputsExact(k: nat, i: nat)
      requires At(k) && k < |plan.order|
      ensures var connected := SocketId(plan.order[k], i) in plan.g.edges;
        && (connected <==> i < |Inputs(k)| && Inputs(k)[i].Some?)
        && (connected ==> Inputs(k)[i].value == InputValue(k, i))
    {
      plan.GatherFine(k, frame, |plan.NodeAt(k).inputs|);
      var to := SocketId(plan.order[k], i);
      if to in plan.g.edges { assert to.index < |plan.g.nodes[to.node].inputs|; }
    }

    /** The inputs as the plain meaning gives them. */
    ghost function Inputs(k: nat): seq<Option<Value>>
      requires plan.Valid() && k < |plan.order| && plan.AllFine(frame, k)
    {
      plan.GatherFine(k, frame, |plan.NodeAt(k).inputs|);
      plan.Gather(k, frame, |plan.NodeAt(k).inputs|).value
    }

    lemma NotYetRun(k: nat)
      requires plan.Valid() && k < |plan.order|
      ensures plan.order[k] !in plan.order[..k]
    {
    }

    /** Swap what the node took for what it made. */
    method Finish(outputs: seq<Value>) returns (r: Result<seq<Value>, NodeError>)
      requires Ledger()
      modifies `held, pool
      ensures Ledger()
      ensures r.Ok? ==> r.value == outputs && held == outputs && pool.faults == old(pool.faults)
      ensures r.Err? ==> held == [] && r.error == Gpu && pool.faults > old(pool.faults)
      ensures pool.LostOnlyToFaults()
    {
      hide TexturesIn; hide TexturesOf;
      ReleaseHeld();
      for i := 0 to |outputs|
        invariant Ledger() && held == outputs[..i] && pool.faults == old(pool.faults)
          && pool.dropped == old(pool.dropped)
      {
        var ok := pool.Obtain(outputs[i]);
        if !ok {
          ReleaseHeld();
          return Err(Gpu);
        }
        TexturesOfSnoc(held, outputs[i]);
        held := held + [outputs[i]];
        assert held == outputs[..i + 1];
      }
      return Ok(outputs);
    }

    /** How often each output will be used: once per input read by a needed
        node, and once more as an extra. */
    method Count()
      requires plan.Valid() && remaining == map[]
      modifies `remaining
      ensures forall s: SocketId :: Left(remaining, s) == UsesLeft(plan, 0, {}, s)
    {
      hide OpenOn; hide Left;
      CountReads();
      AllCounted(plan, remaining);
      CountExtras();
    }

    method CountExtras()
      requires plan.Valid()
      modifies `remaining
      ensures forall s: SocketId :: Left(remaining, s) == Left(old(remaining), s) + if s in plan.extras then 1 else 0
    {
      assert forall i, j :: 0 <= i < j < |plan.extras| ==> plan.extras[i] != plan.extras[j];
      hide Plan.Valid;
      for i := 0 to |plan.extras|
        invariant forall s: SocketId ::
          Left(remaining, s) == Left(old(remaining), s) + if s in plan.extras[..i] then 1 else 0
      {
        var s := plan.extras[i];
        assert s !in plan.extras[..i];
        assert plan.extras[..i + 1] == plan.extras[..i] + [s];
        remaining := remaining[s := Left(remaining, s) + 1];
      }
      assert plan.extras[..|plan.extras|] == plan.extras;
    }

    method CountReads()
      requires remaining == map[]
      modifies `remaining
      ensures Counted(plan, remaining, plan.g.edges.Keys)
    {
      hide Counted;
      var left := plan.g.edges.Keys;
      NoneCounted(plan);
      assert plan.g.edges.Keys - left == {};
      while left != {}
        invariant left <= plan.g.edges.Keys
        invariant Counted(plan, remaining, plan.g.edges.Keys - left)
        decreases left
      {
        var to :| to in left;
        OneMoreRead(plan, remaining, plan.g.edges.Keys - left, to);
        assert plan.g.edges.Keys - left + {to} == plan.g.edges.Keys - (left - {to});
        left := left - {to};
        if to.node in plan.order {
          remaining := remaining[plan.g.edges[to] := Left(remaining, plan.g.edges[to]) + 1];
        }
      }
      assert plan.g.edges.Keys - left == plan.g.edges.Keys;
    }

    /** After node `k`'s run, end the uses it did not end itself by taking. */
    method ConsumeBorrowed(k: nat)
      requires At(k) && k < |plan.order|
      modifies `remaining, `produced, `over, pool`free, pool`outside
      ensures At(k)
      ensures forall i: nat :: i < |plan.NodeAt(k).inputs| ==> i in over
    {
      hide TexturesIn;
      hide TexturesOf;
      for i := 0 to |plan.NodeAt(k).inputs|
        invariant At(k)
        invariant forall j: nat :: j < i ==> j in over
      {
        if i !in over { ConsumeInput(k, i); }
      }
    }

    method ConsumeInput(k: nat, i: nat)
      requires At(k) && k < |plan.order| && i !in over
      modifies `remaining, `produced, `over, pool`free, pool`outside
      ensures At(k) && over == old(over) + {i}
    {
      hide TexturesIn;
      hide TexturesOf;
      var to := SocketId(plan.order[k], i);
      if to in plan.g.edges {
        UseEnds(plan, frame, k, over, produced, remaining, i);
        Consume(plan.g.edges[to]);
      } else {
        NoUse(plan, frame, k, over, produced, remaining, i);
      }
      over := over + {i};
    }

    /** Keep the wanted outputs of node `k`, release the rest. */
    method Publish(k: nat)
      requires At(k) && k < |plan.order|
      requires forall i: nat :: i < |plan.NodeAt(k).inputs| ==> i in over
      requires plan.Denote(k, frame).Ok? && held == plan.Denote(k, frame).value.0
      modifies `produced, `over, `held, pool`free, pool`outside
      ensures At(k + 1) && over == {} && held == []
    {
      Published(plan, frame, k, over, produced, remaining, held);
      KeepWanted(k);
      over := {};
    }

    method KeepWanted(k: nat)
      requires Ledger() && k < |plan.order|
      requires produced.Keys !! Kept(plan, remaining, k, held, |held|).Keys
      modifies `produced, `held, pool`free, pool`outside
      ensures Ledger() && held == []
      ensures produced == old(produced) + Kept(plan, remaining, k, old(held), |old(held)|)
    {
      hide Run.Ledger; hide Keeps;
      var outputs := held;
      for i := 0 to |outputs|
        invariant Ledger() && held == outputs[i..]
        invariant produced == old(produced) + Kept(plan, remaining, k, outputs, i)
      {
        KeptNext(old(produced), plan, remaining, k, outputs, i);
        PlaceFirst(SocketId(plan.order[k], i));
      }
    }

    /** The next output goes to `produced` if anyone will use it. */
    method PlaceFirst(s: SocketId)
      requires Ledger() && held != []
      requires Keeps(plan, remaining, s) ==> s !in produced
      modifies `produced, `held, pool`free, pool`outside
      ensures Ledger() && held == old(held)[1..]
      ensures produced == if Keeps(plan, remaining, s) then old(produced)[s := old(held)[0]] else old(produced)
    {
      var value := held[0];
      assert held == [value] + held[1..];
      TexturesOfCons(value, held[1..]);
      if s == plan.result || Left(remaining, s) > 0 {
        Inserting(produced, s, value);
        produced := produced[s := value];
      } else {
        pool.Release(value);
      }
      held := held[1..];
    }

    /** Node `k` from its first call to its published outputs. */
    method RunNode(k: nat) returns (e: Option<NodeError>)
      requires At(k) && k < |plan.order| && over == {} && held == []
      requires state.slots == plan.StateAfter(frame, k)
      modifies `produced, `remaining, `copies, `over, `held, pool, state
      ensures e.None? ==> At(k + 1) && over == {} && held == [] && pool.faults == old(pool.faults)
      ensures e.None? ==> state.slots == plan.StateAfter(frame, k + 1)
      ensures e.Some? ==> Ledger() && held == []
      ensures e.Some? && pool.faults == old(pool.faults) ==> plan.Denote(k, frame) == Err(e.value)
      ensures pool.LostOnlyToFaults()
      ensures pool.faults != old(pool.faults) ==> e == Some(Gpu)
    {
      hide TexturesIn;
      hide TexturesOf;
      hide Books;
      var outputs := EvalNode(k);
      if outputs.Err? { return Some(outputs.error); }
      ConsumeBorrowed(k);
      Publish(k);
      return None;
    }

    method Begin()
      requires plan.Valid() && frame == Frame.Frame(time, dims, state.slots) && Ledger()
      requires produced == map[] && remaining == map[] && over == {} && held == []
      modifies `remaining
      ensures At(0)
    {
      Count();
      NothingMade();
    }

    method RunAll() returns (e: Option<NodeError>)
      requires At(0) && over == {} && held == [] && frame.state == state.slots
      modifies `produced, `remaining, `copies, `over, `held, pool, state
      ensures Ledger() && held == []
      ensures e.None? ==> At(|plan.order|) && over == {} && pool.faults == old(pool.faults)
      ensures e.None? ==> state.slots == plan.StateAfter(frame, |plan.order|)
      ensures e.Some? && pool.faults == old(pool.faults) ==> plan.Expected(frame) == Err(e.value)
      ensures pool.LostOnlyToFaults()
      ensures pool.faults != old(pool.faults) ==> e == Some(Gpu)
    {
      hide TexturesIn;
      hide TexturesOf;
      hide Books;
      for k := 0 to |plan.order|
        invariant At(k) && over == {} && held == []
        invariant state.slots == plan.StateAfter(frame, k)
        invariant pool.faults == old(pool.faults) && pool.dropped == old(pool.dropped)
      {
        e := RunNode(k);
        if e.Some? {
          if pool.faults == old(pool.faults) { plan.FirstErrorStays(frame, k, |plan.order|); }
          return;
        }
      }
      e := None;
    }

    /** Run every node, then hand over the result. */
    method Execute() returns (r: Result<Value, NodeError>)
      requires plan.Valid() && frame == Frame.Frame(time, dims, state.slots) && Ledger()
      requires produced == map[] && remaining == map[] && over == {} && held == []
      modifies `produced, `remaining, `copies, `over, `held, pool, state
      ensures Ledger()
      ensures r.Err? ==> held == []
      ensures r.Ok? ==>
        && pool.faults == old(pool.faults)
        && plan.AllFine(frame, |plan.order|) && plan.result.index < |plan.g.nodes[plan.result.node].outputs|
        && (plan.Readers(plan.result) == {} || plan.result in plan.extras)
        && held == [r.value] && r.value == plan.Out(plan.result, frame)
        && state.slots == plan.StateAfter(frame, |plan.order|)
        && ExtrasIn(plan.extras, plan.result, plan.Outs(frame, |plan.extras|), produced, 0)
      ensures r.Err? && pool.faults == old(pool.faults) ==> plan.Expected(frame) == Err(r.error)
      ensures pool.LostOnlyToFaults()
      ensures pool.faults != old(pool.faults) ==> r == Err(Gpu)
    {
      Begin();
      var e := RunAll();
      if e.Some? { return Err(e.value); }
      AtEnd();
      if plan.result !in produced { return Err(UnknownNode(plan.result.node)); }
      var value := Move(plan.result);
      return Ok(value);
    }

    /** After the last node, exactly the extras and an unread result are held. */
    lemma AtEnd()
      requires At(|plan.order|) && over == {}
      ensures plan.result in produced <==>
        plan.result in plan.extras
          || (plan.ResultUnread() && plan.result.index < |plan.g.nodes[plan.result.node].outputs|)
      ensures plan.result in produced ==>
        plan.result.index < |plan.g.nodes[plan.result.node].outputs|
          && produced[plan.result] == plan.Out(plan.result, frame)
      ensures ExtrasIn(plan.extras, plan.result, plan.Outs(frame, |plan.extras|), produced - {plan.result}, 0)
    {
      assert plan.order[..|plan.order|] == plan.order;
      HeldAtEnd(plan.result);
      forall s <- plan.extras
        ensures s in produced && s.index < |plan.g.nodes[s.node].outputs| && produced[s] == plan.Out(s, frame)
      {
        HeldAtEnd(s);
      }
    }

    lemma HeldAtEnd(s: SocketId)
      requires At(|plan.order|) && over == {}
      ensures s in produced <==>
        && s.node in plan.order && s.index < |plan.g.nodes[s.node].outputs|
        && (s in plan.extras || (s == plan.result && plan.ResultUnread()))
      ensures s in produced ==> Made(plan, frame, |plan.order|, s) && produced[s] == plan.Out(s, frame)
    {
      assert plan.order[..|plan.order|] == plan.order;
      assert Booked(plan, frame, |plan.order|, over, produced, remaining, s);
      assert OpenOn(plan, |plan.order|, {}, s) == {};
      UsesShrink(plan, 0, {}, s);
    }

    /** Take out the extras, in the order they were asked for. One that is not
        there is the result itself, already handed over. */
    method CollectExtras(ghost outs: seq<Value>) returns (r: Result<seq<Value>, NodeError>)
      requires ExtrasIn(plan.extras, plan.result, outs, produced, 0) && Ledger()
      modifies `produced, `held
      ensures Ledger()
      ensures r.Ok? ==> plan.result !in plan.extras && r.value == outs && held == old(held) + outs
      ensures r.Err? ==> plan.result in plan.extras && r.error == BadExtraOutput(plan.result.node, plan.result.index)
    {
      hide TexturesIn;
      hide TexturesOf;
      var extras: seq<Value> := [];
      for i := 0 to |plan.extras|
        invariant Ledger() && ExtrasIn(plan.extras, plan.result, outs, produced, i)
        invariant extras == outs[..i] && held == old(held) + extras
        invariant plan.result !in plan.extras[..i]
      {
        var s := plan.extras[i];
        assert plan.extras[..i + 1] == plan.extras[..i] + [s];
        ExtraTaken(plan.extras, plan.result, outs, produced, i);
        if s !in produced { return Err(BadExtraOutput(s.node, s.index)); }
        var extra := Move(s);
        extras := extras + [extra];
      }
      assert plan.extras[..|plan.extras|] == plan.extras;
      return Ok(extras);
    }

    /** The result and the extras go to the caller, the rest to the pool. */
    method HandOver(value: Value, ghost outs: seq<Value>) returns (r: Result<Evaluated, NodeError>)
      requires ExtrasIn(plan.extras, plan.result, outs, produced, 0) && Ledger() && held == [value]
      modifies `produced, `held, pool`free, pool`outside
      ensures pool.Valid() && state.slots == old(state.slots)
      ensures r == if plan.result in plan.extras then Err(BadExtraOutput(plan.result.node, plan.result.index))
                   else Ok(Evaluated(value, outs, copies))
      ensures pool.outside == base + TexturesIn(state.slots) + if r.Ok? then r.value.Textures() else 0
    {
      hide TexturesIn;
      hide TexturesOf;
      NothingOwned<SocketId>();
      var extras := CollectExtras(outs);
      ReleaseAll(produced, pool);
      produced := map[];
      if extras.Err? {
        ReleaseHeld();
        return Err(extras.error);
      }
      TexturesOfCons(value, extras.value);
      return Ok(Evaluated(value, extras.value, copies));
    }

    lemma NothingMade()
      requires plan.Valid() && produced == map[] && over == {}
      requires forall s: SocketId :: Left(remaining, s) == UsesLeft(plan, 0, {}, s)
      ensures Books(plan, frame, 0, over, produced, remaining)
    {
    }
  }

  /** The extras from the `i`-th on are held with the values `outs` gives
      them; the result no longer is. */
  ghost predicate ExtrasIn(extras: seq<SocketId>, result: SocketId, outs: seq<Value>, produced: Produced, i: nat) {
    && |outs| == |extras|
    && (forall j, k :: 0 <= j < k < |extras| ==> extras[j] != extras[k])
    && forall j :: i <= j < |extras| ==>
         && (extras[j] in produced <==> extras[j] != result)
         && (extras[j] in produced ==> produced[extras[j]] == outs[j])
  }

  lemma ExtraTaken(extras: seq<SocketId>, result: SocketId, outs: seq<Value>, produced: Produced, i: nat)
    requires ExtrasIn(extras, result, outs, produced, i) && i < |extras|
    ensures extras[i] in produced <==> extras[i] != result
    ensures extras[i] in produced ==> produced[extras[i]] == outs[i]
    ensures ExtrasIn(extras, result, outs, produced - {extras[i]}, i + 1)
  {
  }

  function AddRead(p: Plan, remaining: Counts, to: SocketId): Counts
    requires to in p.g.edges
  {
    if to.node in p.order then remaining[p.g.edges[to] := Left(remaining, p.g.edges[to]) + 1] else remaining
  }

  /** `remaining` counts the reads in `seen`. */
  ghost predicate Counted(p: Plan, remaining: Counts, seen: set<SocketId>) {
    forall s: SocketId :: Left(remaining, s) == |OpenOn(p, 0, {}, s) * seen|
  }

  lemma NoneCounted(p: Plan)
    ensures Counted(p, map[], {})
  {
  }

  lemma OneMoreRead(p: Plan, remaining: Counts, seen: set<SocketId>, to: SocketId)
    requires to in p.g.edges && to !in seen && Counted(p, remaining, seen)
    ensures Counted(p, AddRead(p, remaining, to), seen + {to})
  {
    hide OpenOn;
    forall s: SocketId ensures Left(AddRead(p, remaining, to), s) == |OpenOn(p, 0, {}, s) * (seen + {to})| {
      assert Left(remaining, s) == |OpenOn(p, 0, {}, s) * seen|;
      ReadsJoin(p, s, seen, to);
    }
  }

  lemma ReadsJoin(p: Plan, s: SocketId, seen: set<SocketId>, to: SocketId)
    requires to in p.g.edges && to !in seen
    ensures OpenOn(p, 0, {}, s) * (seen + {to})
      == OpenOn(p, 0, {}, s) * seen + if p.g.edges[to] == s && to.node in p.order then {to} else {}
  {
    assert p.order[0..] == p.order;
  }

  lemma AllCounted(p: Plan, remaining: Counts)
    requires Counted(p, remaining, p.g.edges.Keys)
    ensures forall s: SocketId :: Left(remaining, s) == |OpenOn(p, 0, {}, s)|
  {
    forall s: SocketId ensures Left(remaining, s) == |OpenOn(p, 0, {}, s)| {
      assert Left(remaining, s) == |OpenOn(p, 0, {}, s) * p.g.edges.Keys|;
      assert OpenOn(p, 0, {}, s) * p.g.edges.Keys == OpenOn(p, 0, {}, s);
    }
  }

  lemma {:induction false} TexturesOfCons(v: Value, vs: seq<Value>)
    ensures TexturesOf([v] + vs) == |v.Textures()| + TexturesOf(vs)
  {
    var all := [v] + vs;
    if vs == [] {
      assert all[..0] == [];
    } else {
      TexturesOfCons(v, vs[..|vs| - 1]);
      assert all[..|all| - 1] == [v] + vs[..|vs| - 1];
    }
  }

  datatype Evaluated = Evaluated(value: Value, extras: seq<Value>, copies: nat) {
    ghost function Textures(): nat { |value.Textures()| + TexturesOf(extras) }
  }

  /** Evaluate one frame of a plan. Without a GPU failure the outcome, the
      state included, is the plain one. Whatever happens, every texture made
      on the way is back in the pool, in the state, or with the caller. */
  method EvalPlan(plan: Plan, pool: FieldPool, state: StateStore, time: Time, dims: Dims)
    returns (r: Result<Evaluated, NodeError>)
    requires plan.Valid()
    requires pool.Valid() && pool.outside >= TexturesIn(state.slots)
    modifies pool, state
    ensures pool.Valid() && pool.outside >= TexturesIn(state.slots)
    ensures pool.outside - TexturesIn(state.slots) - (if r.Ok? then r.value.Textures() else 0) ==
            old(pool.outside) - TexturesIn(old(state.slots))
    ensures r.Ok? ==>
      && pool.faults == old(pool.faults)
      && plan.Expected(Frame.Frame(time, dims, old(state.slots))) == Ok((r.value.value, r.value.extras, state.slots))
    ensures r.Err? && pool.faults == old(pool.faults) ==>
      plan.Expected(Frame.Frame(time, dims, old(state.slots))) == Err(r.error)
    ensures pool.LostOnlyToFaults()
    ensures r == Err(Gpu) <==> pool.faults != old(pool.faults)
  {
    hide TexturesIn;
    hide TexturesOf;
    NothingOwned<SocketId>();
    var run := new Run(plan, time, dims, pool, state);
    var result := run.Execute();
    plan.NeverGpu(run.frame);
    if result.Err? {
      ReleaseAll(run.produced, pool);
      return Err(result.error);
    }
    r := run.HandOver(result.value, plan.Outs(run.frame, |plan.extras|));
  }

  /** The graph names an existing output and has no cycle anywhere, needed or
      not. */
  ghost predicate Evaluable(graph: Graph)
    reads graph
  {
    && graph.output.Some? && graph.output.value < |graph.nodes|
    && !exists id :: graph.View().OnCycle(id)
  }

  /** A plan for what `graph` asks: the nodes upstream of its output and its
      extras, in some dependency order. */
  ghost predicate PlanFor(graph: Graph, p: Plan)
    reads graph
  {
    && graph.Valid() && graph.output.Some?
    && p.g == graph.View() && p.result == SocketId(graph.output.value, 0) && p.extras == graph.extraOutputs
    && p.g.SourcesFirst(p.order)
    && (forall id: NodeId :: id in p.order <==> p.g.Upstream(graph.Roots(), id))
  }

  lemma RootsUpstream(graph: Graph)
    requires graph.output.Some?
    ensures forall r <- graph.Roots() | r < |graph.nodes| :: graph.View().Upstream(graph.Roots(), r)
    ensures graph.output.value in graph.Roots()
    ensures forall i :: 0 <= i < |graph.extraOutputs| ==> graph.extraOutputs[i].node in graph.Roots()
  {
    forall r <- graph.Roots() | r < |graph.nodes| ensures graph.View().Upstream(graph.Roots(), r) {
      assert graph.View().Walk([r]) && [r][0] in graph.Roots() && [r][|[r]| - 1] == r;
    }
    assert graph.Roots()[0] == graph.output.value;
    forall i | 0 <= i < |graph.extraOutputs| ensures graph.extraOutputs[i].node in graph.Roots() {
      assert graph.Roots()[i + 1] == graph.extraOutputs[i].node;
    }
  }

  lemma PlanIsValid(graph: Graph, p: Plan)
    requires PlanFor(graph, p) && graph.output.value < |graph.nodes|
    ensures p.Valid()
  {
    RootsUpstream(graph);
    forall k | 0 <= k < |p.order| ensures p.order[k] < |p.g.nodes| {
      assert p.order[k] in p.order;
    }
    forall s <- p.extras ensures s.node in p.order {
      assert s.node in graph.Roots();
    }
  }

  /** Without extras, nothing that runs can read the result: a reader would be
      both upstream and downstream of the output. */
  lemma NoExtrasNoReader(graph: Graph, p: Plan)
    requires PlanFor(graph, p) && Evaluable(graph) && graph.extraOutputs == []
    ensures p.ResultUnread()
  {
    var output := graph.output.value;
    if p.Readers(p.result) != {} {
      var to :| to in p.Readers(p.result);
      assert p.g.Upstream(graph.Roots(), to.node);
      var walk :| p.g.Walk(walk) && walk[0] in graph.Roots() && walk[|walk| - 1] == to.node;
      assert graph.Roots() == [output];
      assert p.g.Feeds(output, to.node);
      ClosingWalk(p.g, walk, output);
      assert false;
    }
  }

  lemma ClosingWalk(g: Dag, walk: seq<NodeId>, id: NodeId)
    requires g.Walk(walk) && walk[0] == id && g.Feeds(id, walk[|walk| - 1])
    ensures g.OnCycle(id)
  {
    var loop := walk + [id];
    assert g.Walk(loop) && |loop| > 1 && loop[0] == id && loop[|loop| - 1] == id;
  }

  /** What is to run: an order exists exactly when the graph has an output and
      no cycle. */
  method MakePlan(graph: Graph) returns (r: Result<Plan, NodeError>)
    requires graph.Valid()
    ensures r.Ok? <==> Evaluable(graph)
    ensures r.Ok? ==> r.value.Valid() && PlanFor(graph, r.value) && graph.output.value < |graph.nodes|
    ensures r != Err(Gpu)
  {
    var order := graph.EvaluationOrder();
    if order.Err? { return Err(order.error); }
    var plan := Plan.Plan(graph.View(), order.value, SocketId(graph.output.value, 0), graph.extraOutputs);
    assert PlanFor(graph, plan);
    PlanIsValid(graph, plan);
    r := Ok(plan);
  }

  /** Evaluating `graph` at this time can yield these values and slots: there is
      an account in which exactly the nodes upstream of what is asked for ran. */
  ghost predicate FrameExplained(graph: Graph, time: Time, dims: Dims, before: State, value: Value, values: seq<Value>,
      after: State)
    reads graph
  {
    graph.output.Some? && exists a: Account ::
      && a.g == graph.View() && a.result == SocketId(graph.output.value, 0) && a.extras == graph.extraOutputs
      && a.time == time && a.dims == dims && a.before == before
      && (forall id: NodeId :: id in a.outputs <==> a.g.Upstream(graph.Roots(), id))
      && a.Explains(value, values, after)
  }

  lemma FrameExactly(graph: Graph, p: Plan, f: Frame)
    requires p.Valid() && PlanFor(graph, p)
    ensures forall value: Value, values: seq<Value>, after: State ::
      FrameExplained(graph, f.time, f.dims, f.state, value, values, after)
      <==> p.Expected(f) == Ok((value, values, after))
  {
    hide Plan.Expected; hide Plan.Valid; hide Account.Explains;
    forall value: Value, values: seq<Value>, after: State
      ensures FrameExplained(graph, f.time, f.dims, f.state, value, values, after)
        <==> p.Expected(f) == Ok((value, values, after))
    {
      ExpectedExactly(p, f, value, values, after);
      SameAccounts(graph, p, f, value, values, after);
    }
  }

  lemma SameAccounts(graph: Graph, p: Plan, f: Frame, value: Value, values: seq<Value>, after: State)
    requires PlanFor(graph, p)
    ensures FrameExplained(graph, f.time, f.dims, f.state, value, values, after)
      <==> Explained(p, f, value, values, after)
  {
    hide Account.Explains; hide Dag.Upstream;
    forall a: Account | a.g == p.g
      ensures (forall id: NodeId :: id in a.outputs <==> a.g.Upstream(graph.Roots(), id))
        <==> (forall id: NodeId :: id in a.outputs <==> id in p.order)
    {
    }
    if FrameExplained(graph, f.time, f.dims, f.state, value, values, after) {
      var a: Account :| a.g == graph.View() && a.result == SocketId(graph.output.value, 0)
        && a.extras == graph.extraOutputs && a.time == f.time && a.dims == f.dims && a.before == f.state
        && (forall id: NodeId :: id in a.outputs <==> a.g.Upstream(graph.Roots(), id))
        && a.Explains(value, values, after);
      assert About(p, f, a);
    }
    if Explained(p, f, value, values, after) {
      var a: Account :| About(p, f, a) && a.Explains(value, values, after);
    }
  }

  /** Evaluate one frame of a graph. When nothing faults it succeeds exactly
      when every plan for the graph does, and then yields what any of them
      does: what every node can have been told truthfully, with the slots that
      leaves. A graph with no output or with a cycle touches nothing. */
  method EvalFrame(graph: Graph, pool: FieldPool, state: StateStore, time: Time, dims: Dims)
    returns (r: Result<Evaluated, NodeError>)
    requires graph.Valid()
    requires pool.Valid() && pool.outside >= TexturesIn(state.slots)
    modifies pool, state
    ensures pool.Valid() && pool.outside >= TexturesIn(state.slots)
    ensures pool.outside - TexturesIn(state.slots) - (if r.Ok? then r.value.Textures() else 0) ==
            old(pool.outside) - TexturesIn(old(state.slots))
    ensures forall p | PlanFor(graph, p) && Evaluable(graph) ::
      && p.Valid()
      && (r.Ok? ==>
         p.Expected(Frame.Frame(time, dims, old(state.slots))) == Ok((r.value.value, r.value.extras, state.slots)))
      && (r.Err? && pool.faults == old(pool.faults) ==> p.Expected(Frame.Frame(time, dims, old(state.slots))).Err?)
    ensures r.Ok? ==> pool.faults == old(pool.faults) && Evaluable(graph)
    ensures Evaluable(graph) ==> exists p :: PlanFor(graph, p)
    ensures pool.LostOnlyToFaults()
    ensures r == Err(Gpu) <==> pool.faults != old(pool.faults)
    ensures !Evaluable(graph) ==> r.Err? && state.slots == old(state.slots) && pool.faults == old(pool.faults)
    ensures r.Ok? ==>
      FrameExplained(graph, time, dims, old(state.slots), r.value.value, r.value.extras, state.slots)
    ensures r.Err? && pool.faults == old(pool.faults) && Evaluable(graph) ==>
      forall value: Value, values: seq<Value>, after: State ::
        !FrameExplained(graph, time, dims, old(state.slots), value, values, after)
  {
    hide FrameExplained;
    hide TexturesIn;
    hide Plan.Expected;
    hide PlanFor;
    hide Plan.Valid;
    hide Evaluable;
    hide Graph.Valid;
    var planned := MakePlan(graph);
    if planned.Err? { return Err(planned.error); }
    var plan := planned.value;
    ghost var frame := Frame.Frame(time, dims, state.slots);
    r := EvalPlan(plan, pool, state, time, dims);
    assert PlanFor(graph, plan);
    FrameExactly(graph, plan, frame);
    forall p | PlanFor(graph, p) ensures SamePlan(plan, p, frame) { AnyPlan(graph, plan, p, frame); }
  }

  ghost predicate SamePlan(p: Plan, q: Plan, f: Frame) {
    && p.Valid() && q.Valid()
    && (p.Expected(f).Ok? <==> q.Expected(f).Ok?)
    && (p.Expected(f).Ok? ==> p.Expected(f) == q.Expected(f))
  }

  lemma AnyPlan(graph: Graph, p: Plan, q: Plan, f: Frame)
    requires PlanFor(graph, p) && PlanFor(graph, q) && graph.output.value < |graph.nodes|
    ensures SamePlan(p, q, f)
  {
    PlanIsValid(graph, p);
    PlanIsValid(graph, q);
    OrderIndependent(p, q, f);
  }

  /** A source node, the graph's output, and a node that reads it, the one
      extra: the reader's use counts, so the result is gone when it is asked
      for, though every node computes without error. */
  function ReadResult(): Plan {
    Plan(Dag([Source(), Reader()], map[SocketId(1, 0) := SocketId(0, 0)]), [0, 1], SocketId(0, 0), [SocketId(1, 0)])
  }

  function Pixel(): Value {
    Field(Shape(Dims(1, 1, 1), 4), [0])
  }

  function Source(): Node {
    Node([], [FieldSocket], false, (t, d, h) => Return([Pixel()]), 0)
  }

  function Reader(): Node {
    Node([FieldSocket], [FieldSocket], false,
         (t: Time, d: Dims, h: seq<Reply>) => if |h| == 0 then Input(0) else Return([Pixel()]), 1)
  }

  lemma ReadResultValid()
    ensures ReadResult().Valid() && !ReadResult().ResultUnread()
  {
    var p := ReadResult();
    forall i, u | 0 <= i < 2 && p.g.Feeds(u, p.order[i]) ensures u in p.order[..i] {
      assert i == 1 && u == 0 && p.order[..1][0] == 0;
    }
    assert p.order[0] == 0 && p.order[1] == 1;
    assert SocketId(1, 0) in p.Readers(p.result);
  }

  lemma ReadResultRuns(f: Frame)
    requires ReadResult().Valid()
    ensures ReadResult().AllFine(f, 2)
  {
    var p := ReadResult();
    var v := Pixel();
    assert p.Denote(0, f) == Ok(([v], Local(f.state, 0)));
    p.GatherFine(1, f, 1);
    var ins := p.Gather(1, f, 1).value;
    assert p.Answer(1, f, ins, [], {}, Local(f.state, 1)) == Go(Lent(ins[0].value), {}, Local(f.state, 1));
    assert p.Denote(1, f) == Ok(([v], Local(f.state, 1)));
  }

  lemma ReadResultFails(f: Frame)
    ensures ReadResult().Valid() && ReadResult().AllFine(f, 2) && !ReadResult().ResultUnread()
    ensures ReadResult().Expected(f) == Err(UnknownNode(0))
  {
    ReadResultValid();
    ReadResultRuns(f);
    assert ReadResult().FirstError(f, 2) == None;
  }
  lemma NodesWellFormed()
    ensures Source().WellFormed() && Source().inputs == [] && Source().outputs == [FieldSocket]
    ensures Reader().WellFormed() && Reader().inputs == [FieldSocket] && Reader().outputs == [FieldSocket]
  {
  }

  lemma ReadResultIs()
    ensures var p := ReadResult();
      && p.g == Dag([Source(), Reader()], map[SocketId(1, 0) := SocketId(0, 0)])
      && p.order == [0, 1] && p.result == SocketId(0, 0) && p.extras == [SocketId(1, 0)]
      && p.Valid() && p.g.SourcesFirst([0, 1])
  {
    ReadResultValid();
  }

  /** The calls that build that graph, every one of them accepted. */
  method ReadResultGraph() returns (graph: Graph)
    ensures fresh(graph) && graph.Valid() && PlanFor(graph, ReadResult()) && Evaluable(graph)
  {
    hide Graph.Valid; hide Source; hide Reader; hide ReadResult; hide PlanFor; hide Evaluable;
    graph := WiredPair();
    NodesWellFormed();
    ReadResultIs();
    graph.SetOutput(0);
    assert graph.Exportable(SocketId(1, 0));
    var named := graph.SetExtraOutputs([SocketId(1, 0)]);
    assert named.Ok?;
    IsReadResult(graph);
  }

  /** The two nodes, the source's output connected to the reader's input. */
  method WiredPair() returns (graph: Graph)
    ensures fresh(graph) && graph.Valid() && graph.nodes == [Source(), Reader()]
    ensures graph.edges == map[SocketId(1, 0) := SocketId(0, 0)] && graph.extraOutputs == []
  {
    hide Graph.Valid; hide Source; hide Reader; hide Node.WellFormed;
    NodesWellFormed();
    graph := new Graph();
    var source := graph.AddNode(Source());
    var reader := graph.AddNode(Reader());
    var connected := graph.Connect(SocketId(source, 0), SocketId(reader, 0));
    assert connected.Ok?;
  }

  lemma IsReadResult(graph: Graph)
    requires graph.Valid() && graph.output == Some(0) && graph.extraOutputs == [SocketId(1, 0)]
    requires graph.View() == ReadResult().g
    ensures PlanFor(graph, ReadResult()) && Evaluable(graph)
  {
    hide Graph.Valid; hide Source; hide Reader; hide Plan.Valid; hide ReadResult;
    hide Dag.SourcesFirst; hide Dag.Upstream; hide Dag.OnCycle; hide Graph.Roots;
    ReadResultIs();
    TwoRoots(graph);
    BothAsked(graph.View());
  }

  lemma TwoRoots(graph: Graph)
    requires graph.output == Some(0) && graph.extraOutputs == [SocketId(1, 0)]
    ensures graph.Roots() == [0, 1]
  {
  }

  /** Two nodes, both asked for, in dependency order. */
  lemma BothAsked(g: Dag)
    requires |g.nodes| == 2 && g.SourcesFirst([0, 1])
    ensures forall id: NodeId :: id in [0, 1] <==> g.Upstream([0, 1], id)
    ensures !exists id :: g.OnCycle(id)
  {
    hide Dag.SourcesFirst; hide Dag.Feeds;
    forall id: NodeId | id in [0, 1] ensures g.Upstream([0, 1], id) {
      assert g.Walk([id]) && [id][0] in [0, 1] && [id][|[id]| - 1] == id;
    }
    forall id | g.OnCycle(id) ensures false {
      assert id < 2;
      g.OrderedIsAcyclic([0, 1], id);
    }
  }

  /** So evaluating it fails, though nothing faults and every node computes. */
  method EvaluateReadResult(pool: FieldPool, state: StateStore, time: Time, dims: Dims)
    returns (r: Result<Evaluated, NodeError>)
    requires pool.Valid() && pool.outside >= TexturesIn(state.slots)
    modifies pool, state
    ensures r.Err?
    ensures forall f :: ReadResult().Valid() && ReadResult().AllFine(f, 2)
  {
    var graph := ReadResultGraph();
    r := EvalFrame(graph, pool, state, time, dims);
    ReadResultFails(Frame.Frame(time, dims, old(state.slots)));
    forall f ensures ReadResult().Valid() && ReadResult().AllFine(f, 2) { ReadResultFails(f); }
  }
}
