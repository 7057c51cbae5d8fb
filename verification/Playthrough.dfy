/** Graphs of one node, played: what a clock and a counter show at every frame,
    however it is reached, and a call the step count leaves out. */
module Playthroughs {
  import opened Values
  import opened MapSums
  import opened FieldPools
  import opened StateStores
  import opened Graphs
  import opened Plans
  import opened Evaluator
  import opened Timelines

  // ------------------------------------------------------------ one node

  /** What runs when a graph is one node, its output. */
  function Alone(n: Node): Plan {
    Plan.Plan(Dag([n], map[]), [0], SocketId(0, 0), [])
  }

  lemma AloneIsValid(n: Node)
    requires n.WellFormed()
    ensures Alone(n).Valid()
    ensures Stateful(Alone(n).g) <==> n.stateful
  {
    hide Node.WellFormed;
    var p := Alone(n);
    assert p.g.nodes[0] == n && p.order[0] == 0;
  }

  /** It succeeds exactly when the node does. */
  lemma AloneExpected(n: Node, f: Frame)
    requires n.WellFormed() && Alone(n).Valid() && n.inputs == [] && n.outputs != []
    ensures var local, all := Alone(n).Conclude(0, f, [], [], {}, Local(f.state, 0)), Alone(n).Expected(f);
      if local.Ok? then all == Ok((local.value.0[0], [], Replace(f.state, 0, local.value.1))) else all.Err?
  {
    hide Node.WellFormed;
    var p := Alone(n);
    assert p.NodeAt(0) == n && p.Gather(0, f, 0) == Ok([]);
    assert p.Denote(0, f) == p.Conclude(0, f, [], [], {}, Local(f.state, 0));
    if p.Denote(0, f).Ok? {
      assert p.AllFine(f, 1);
      assert p.Readers(p.result) == {};
      assert p.StateAfter(f, 1) == Replace(p.StateAfter(f, 0), 0, p.Denote(0, f).value.1);
    } else {
      assert !p.AllFine(f, 1);
    }
  }

  /** The calls that build that graph. */
  method AloneGraph(n: Node) returns (graph: Graph)
    requires n.WellFormed() && n.inputs == []
    ensures fresh(graph) && graph.Valid() && graph.View() == Alone(n).g
    ensures PlanFor(graph, Alone(n)) && Evaluable(graph)
  {
    hide Graph.Valid; hide Node.WellFormed;
    AloneIsValid(n);
    graph := new Graph();
    var id := graph.AddNode(n);
    graph.SetOutput(id);
    assert graph.View() == Alone(n).g;
    OneNode(graph, n);
  }

  lemma OneNode(graph: Graph, n: Node)
    requires graph.Valid() && graph.output == Some(0) && graph.extraOutputs == []
    requires graph.View() == Alone(n).g && Alone(n).Valid()
    ensures PlanFor(graph, Alone(n)) && Evaluable(graph)
  {
    hide Graph.Valid; hide Plan.Valid; hide Dag.Wired;
    var g := graph.View();
    assert graph.Roots() == [0] && |g.nodes| == 1;
    assert g.SourcesFirst([0]);
    OnlyOne(g);
  }

  lemma OnlyOne(g: Dag)
    requires |g.nodes| == 1 && g.SourcesFirst([0])
    ensures forall id: NodeId :: id in [0] <==> g.Upstream([0], id)
    ensures !exists id :: g.OnCycle(id)
  {
    hide Dag.SourcesFirst; hide Dag.Feeds;
    assert g.Walk([0]) && [0][0] in [0] && [0][|[0]| - 1] == 0;
    forall id | g.OnCycle(id) ensures false {
      assert id < 1;
      g.OrderedIsAcyclic([0], id);
    }
  }

  /** A node that keeps state and always fails. */
  function Failing(): Node {
    Node([], [FieldSocket], true, (t, d, h) => Fail(Failed(0, 0)), 0)
  }

  lemma FailingFails(f: Frame)
    ensures Failing().WellFormed() && Alone(Failing()).Valid() && Stateful(Alone(Failing()).g)
    ensures Alone(Failing()).Expected(f).Err?
  {
    var p := Alone(Failing());
    AloneIsValid(Failing());
    assert p.NodeAt(0) == Failing();
    assert p.Answer(0, f, [], [], {}, Local(f.state, 0)).Stop?;
    AloneExpected(Failing(), f);
  }

  /** One `goto` of a fresh timeline on that graph: the evaluator is called and
      `steps` does not say so. */
  method UncountedCall(pool: FieldPool, fps: real, budget: nat, dims: Dims) returns (timeline: Timeline)
    requires pool.Valid()
    modifies pool
    ensures fresh(timeline) && (pool.faults == old(pool.faults) ==> timeline.steps < timeline.evaluations)
  {
    hide Plan.Expected; hide Plan.Valid; hide PlanFor; hide Evaluable; hide Alone; hide Stateful;
    FailingFails(Frame.Frame(TimeAt(0, 0, fps), dims, map[]));
    var graph := AloneGraph(Failing());
    timeline := new Timeline(0, fps, budget);
    ghost var play := Playback(Alone(Failing()), 0, fps, dims);
    NothingOwned<StateKey>();
    NothingCached();
    assert timeline.Valid(play, pool);
    assert play.Produces(0).Err?;
    var r := timeline.Goto(play, graph, dims, 0, pool);
  }

  // ------------------------------------------------------------ a clock and a counter

  /** `n` in 32 bits. */
  function Bits(n: nat): bv32 {
    if n == 0 then 0 else Bits(n - 1) + 1
  }

  function Reading(data: seq<bv32>): Value {
    Field(Shape(Dims(1, 1, 1), 4), data)
  }

  /** A node that shows the frames elapsed and the frame it is told. */
  function Clock(): Node {
    Node([], [FieldSocket], false,
         (t: Time, d: Dims, h: seq<Reply>) => Return([Reading([Bits(t.elapsed), Bits(t.frame)])]), 0)
  }

  lemma ClockShows(f: Frame)
    ensures Clock().WellFormed() && Alone(Clock()).Valid() && !Stateful(Alone(Clock()).g)
    ensures Alone(Clock()).Expected(f).Ok?
    ensures Alone(Clock()).Expected(f).value.0 == Reading([Bits(f.time.elapsed), Bits(f.time.frame)])
  {
    var p := Alone(Clock());
    AloneIsValid(Clock());
    assert p.NodeAt(0) == Clock();
    assert p.Answer(0, f, [], [], {}, Local(f.state, 0)).Stop?;
    AloneExpected(Clock(), f);
  }

  lemma NoBits()
    ensures Bits(0) == 0
  {
  }

  lemma ServesStart(timeline: Timeline, play: Playback, graph: Graph, dims: Dims)
    requires timeline.Serves(play, graph, dims)
    ensures play.start == timeline.start
  {
  }

  /** What a clock shows at a frame from the start on. */
  lemma ClockAt(play: Playback, frame: nat)
    requires play.plan == Alone(Clock()) && frame >= play.start
    ensures play.plan.Valid() && !Stateful(play.plan.g) && play.At(frame, map[]).Ok?
    ensures play.At(frame, map[]).value.0 == Reading([Bits(frame - play.start), Bits(frame)])
  {
    hide Plan.Expected; hide Plan.Valid; hide Alone; hide Stateful; hide Clock; hide Bits; hide TimeAt; hide Reading;
    ClockShows(Frame.Frame(TimeAt(frame, play.start, play.fps), play.dims, map[]));
    play.ClockIs(frame);
  }

  /** Every frame of a clock: the frames since the start, none before it, and
      its own number, which is never before the start. */
  method GotoClock(timeline: Timeline, ghost play: Playback, graph: Graph, dims: Dims, frame: nat, pool: FieldPool)
    returns (r: Result<Evaluated, NodeError>)
    requires play.plan == Alone(Clock()) && timeline.Serves(play, graph, dims)
    requires timeline.Valid(play, pool) && frame <= MAX_FRAME && timeline.start <= MAX_FRAME
    modifies timeline, timeline.state, pool
    ensures r.Ok? <==> pool.faults == old(pool.faults)
    ensures r.Ok? && frame >= timeline.start ==> r.value.value == Reading([Bits(frame - timeline.start), Bits(frame)])
    ensures r.Ok? && frame <= timeline.start ==> r.value.value == Reading([Bits(0), Bits(timeline.start)])
  {
    hide Plan.Expected; hide Plan.Valid; hide PlanFor; hide Evaluable; hide Alone; hide Stateful;
    hide Playback.CanShow; hide Playback.ShowsAlone; hide TexturesIn; hide TexturesOf; hide Playback.At;
    hide Playback.Produces; hide Reading; hide Bits; hide Clock; hide Timeline.Valid;
    ServesStart(timeline, play, graph, dims);
    ClockAt(play, if frame < timeline.start then timeline.start else frame);
    NoBits();
    r := timeline.Goto(play, graph, dims, frame, pool);
  }

  /** A node that counts its frames in a slot. */
  function Counter(): Node {
    Node([], [FieldSocket], true, (t: Time, d: Dims, h: seq<Reply>) => Counting(h), 2)
  }

  function Counting(h: seq<Reply>): Action {
    if |h| == 0 then TakeState("n")
    else if !h[0].Slot? || (h[0].found.Some? && !h[0].found.value.Scalar?) then Fail(Failed(0, 0))
    else if |h| == 1 then PutState("n", Scalar(Counted(h[0].found)))
    else Return([Reading([Counted(h[0].found)])])
  }

  function Counted(found: Option<Value>): bv32
    requires found.Some? ==> found.value.Scalar?
  {
    if found.None? then 1 else found.value.bits + 1
  }

  /** The counter's slot after `k` frames. */
  function Tally(k: nat): State {
    if k == 0 then map[] else map[StateKey(0, "n") := Scalar(Bits(k))]
  }

  lemma CounterIsValid()
    ensures Counter().WellFormed() && Counter().inputs == [] && Alone(Counter()).Valid() && Stateful(Alone(Counter()).g)
  {
    AloneIsValid(Counter());
  }

  /** What it hears and says in one frame: nothing in its slot the first time. */
  lemma CounterTalks(f: Frame, k: nat)
    requires Alone(Counter()).Valid()
    ensures Alone(Counter()).Conclude(0, f, [], [], {}, Tally(k)) == Ok(([Reading([Bits(k + 1)])], Tally(k + 1)))
  {
    hide Plan.Valid;
    var p := Alone(Counter());
    assert p.NodeAt(0) == Counter();
    var found := if k == 0 then None else Some(Scalar(Bits(k)));
    assert p.Answer(0, f, [], [], {}, Tally(k)) == Go(Slot(found), {}, map[]);
    var h1 := [Slot(found)];
    assert Counted(found) == Bits(k + 1);
    assert p.Answer(0, f, [], h1, {}, map[]) == Go(Stored, {}, Tally(k + 1));
    var h2 := h1 + [Stored];
    assert p.Answer(0, f, [], h2, {}, Tally(k + 1)) == Stop(Ok(([Reading([Bits(k + 1)])], Tally(k + 1))));
    assert p.Conclude(0, f, [], h1, {}, map[]) == p.Conclude(0, f, [], h2, {}, Tally(k + 1));
  }

  /** One frame of it. */
  lemma CounterCounts(time: Time, dims: Dims, k: nat)
    requires Alone(Counter()).Valid()
    ensures Alone(Counter()).Expected(Frame.Frame(time, dims, Tally(k)))
      == Ok((Reading([Bits(k + 1)]), [], Tally(k + 1)))
  {
    hide Plan.Valid; hide Plan.Expected; hide Plan.Conclude; hide Alone; hide Bits;
    var f := Frame.Frame(time, dims, Tally(k));
    CounterIsValid();
    OnlySlot(k);
    CounterTalks(f, k);
    AloneExpected(Counter(), f);
  }

  lemma OnlySlot(k: nat)
    ensures Local(Tally(k), 0) == Tally(k) && Replace(Tally(k), 0, Tally(k + 1)) == Tally(k + 1)
  {
  }

  lemma {:induction false} CounterEnters(play: Playback, k: nat)
    requires play.plan == Alone(Counter()) && play.plan.Valid()
    ensures play.Entering(play.start + k) == Ok(Tally(k))
  {
    hide Plan.Expected; hide Plan.Valid; hide Tally;
    Tallies(k);
    if k > 0 {
      CounterEnters(play, k - 1);
      CounterCounts(TimeAt(play.start + k - 1, play.start, play.fps), play.dims, k - 1);
    }
  }

  lemma Tallies(k: nat)
    ensures Tally(0) == map[] && Tally(k + 1) == map[StateKey(0, "n") := Scalar(Bits(k + 1))]
  {
  }

  lemma CounterProduces(play: Playback, k: nat)
    requires play.plan == Alone(Counter())
    ensures play.plan.Valid() && Stateful(play.plan.g)
    ensures play.Produces(play.start + k)
      == Ok((Reading([Bits(k + 1)]), [], map[StateKey(0, "n") := Scalar(Bits(k + 1))]))
  {
    hide Plan.Expected; hide Plan.Valid; hide Tally; hide Playback.Entering;
    CounterIsValid();
    CounterEnters(play, k);
    CounterCounts(TimeAt(play.start + k, play.start, play.fps), play.dims, k);
    Tallies(k);
  }

  /** However a frame of a counter is reached, by playing on, from the cache, or
      from nothing, it shows how many frames there are up to it. */
  method GotoCounter(timeline: Timeline, ghost play: Playback, graph: Graph, dims: Dims, frame: nat, pool: FieldPool)
    returns (r: Result<Evaluated, NodeError>)
    requires play.plan == Alone(Counter()) && timeline.Serves(play, graph, dims)
    requires timeline.Valid(play, pool) && frame <= MAX_FRAME && timeline.start <= MAX_FRAME
    modifies timeline, timeline.state, pool
    ensures timeline.Valid(play, pool) && timeline.state == old(timeline.state)
    ensures r.Ok? <==> pool.faults == old(pool.faults)
    ensures r.Ok? ==>
      var k := if frame < timeline.start then 0 else frame - timeline.start;
      && r.value.value == Reading([Bits(k + 1)])
      && timeline.state.slots == map[StateKey(0, "n") := Scalar(Bits(k + 1))]
  {
    hide Plan.Expected; hide Plan.Valid; hide PlanFor; hide Evaluable; hide Alone; hide Stateful;
    hide Playback.Entering;
    hide Playback.CanShow; hide Playback.ShowsAlone; hide TexturesIn; hide TexturesOf; hide Playback.Produces;
    hide Playback.At; hide Bits; hide Timeline.Accounted; hide Faithful; hide Pinned;
    CounterProduces(play, if frame < timeline.start then 0 else frame - timeline.start);
    r := timeline.Goto(play, graph, dims, frame, pool);
  }

  /** A counter's first two frames, from a fresh timeline. */
  method TwoFrames(pool: FieldPool, fps: real, budget: nat, dims: Dims)
    returns (first: Result<Evaluated, NodeError>, second: Result<Evaluated, NodeError>)
    requires pool.Valid()
    modifies pool
    ensures pool.faults == old(pool.faults) ==>
      && first.Ok? && first.value.value == Reading([1])
      && second.Ok? && second.value.value == Reading([2])
  {
    hide Plan.Valid; hide PlanFor; hide Evaluable; hide Alone; hide Stateful; hide Counter; hide Timeline.Accounted;
    hide TexturesIn; hide Pinned; hide Sum;
    CounterIsValid();
    var graph := AloneGraph(Counter());
    var timeline := new Timeline(1, fps, budget);
    ghost var play := Playback(Alone(Counter()), 1, fps, dims);
    NothingOwned<StateKey>();
    NothingCached();
    assert timeline.Valid(play, pool);
    first := GotoCounter(timeline, play, graph, dims, 1, pool);
    second := first;
    if first.Ok? { second := GotoCounter(timeline, play, graph, dims, 2, pool); }
    assert Bits(2) == Bits(1) + 1 && Bits(1) == Bits(0) + 1;
  }
}
