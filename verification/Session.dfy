/** Serving frames from one loaded graph (elementsd `daemon.rs`): any sequence
    of requests, errors and recoveries. */
module Sessions {
  import opened Values
  import opened MapSums
  import opened FieldPools
  import opened StateStores
  import opened Graphs
  import opened Plans
  import opened Evaluator
  import opened Timelines

  /** Frames further than this past the first are refused. */
  const MAX_FRAME_SPAN: nat := 1_048_574

  /** What a failed render calls for. */
  datatype ErrorKind = DeviceLost | OutOfMemory | Other

  /** One call on the timeline, or a recovery, which may also empty the pool. */
  datatype Call = Goto(frame: nat) | Reset | Discard | Recovery(kind: ErrorKind)
  {
    /** Without a GPU failure, no texture is lost to it. */
    predicate KeepsTextures() {
      Goto? || Reset? || this == Recovery(Other)
    }
  }

  function Target(start: nat, frame: nat): nat {
    if frame < start then start else frame
  }

  /** What forward playback shows at a requested frame. */
  ghost function Shows(play: Playback, frame: nat): Result<(Value, seq<Value>), NodeError>
    requires play.plan.Valid()
  {
    var r := if Stateful(play.plan.g) then play.Produces(Target(play.start, frame))
             else play.At(Target(play.start, frame), map[]);
    if r.Ok? then Ok((r.value.0, r.value.1)) else Err(r.error)
  }

  /** Every frame handed out is the one forward playback shows. */
  ghost predicate AllRight(play: Playback, calls: seq<Call>, shown: seq<Option<(Value, seq<Value>)>>)
    requires play.plan.Valid() && |shown| <= |calls|
  {
    forall i :: 0 <= i < |shown| && shown[i].Some? ==>
      calls[i].Goto? && Shows(play, calls[i].frame) == Ok(shown[i].value)
  }

  /** Every frame not handed out is one forward playback cannot show either. */
  ghost predicate NoneMissed(play: Playback, calls: seq<Call>, shown: seq<Option<(Value, seq<Value>)>>)
    requires play.plan.Valid() && |shown| <= |calls|
  {
    forall i :: 0 <= i < |shown| && calls[i].Goto? && shown[i].None? ==> Shows(play, calls[i].frame).Err?
  }

  predicate AllKeepTextures(calls: seq<Call>) {
    forall c <- calls :: c.KeepsTextures()
  }

  class Session {
    const pool: FieldPool
    const graph: Graph
    const dims: Dims
    const timeline: Timeline
    ghost const play: Playback

    constructor (pool: FieldPool, graph: Graph, dims: Dims, timeline: Timeline, ghost play: Playback)
      ensures this.pool == pool && this.graph == graph && this.dims == dims && this.timeline == timeline
        && this.play == play
    {
      this.pool, this.graph, this.dims, this.timeline, this.play := pool, graph, dims, timeline, play;
    }

    /** The loaded graph is the one being played, and the timeline is sound. */
    ghost predicate Ready()
      reads graph, timeline, timeline.state, pool
    {
      && timeline.Serves(play, graph, dims) && timeline.Valid(play, pool) && timeline.start <= MAX_FRAME
    }

    /** After a lost device or exhausted memory, nothing is held and nothing cached. */
    method Recover(kind: ErrorKind)
      requires Ready()
      modifies timeline, timeline.state, pool
      ensures Ready() && (timeline.state == old(timeline.state) || fresh(timeline.state))
      ensures pool.outside - timeline.Owned() == old(pool.outside) - old(timeline.Owned())
      ensures kind != Other ==> timeline.Owned() == 0 && timeline.cache == map[] && timeline.cursor == None
      ensures kind == OutOfMemory ==>
        pool.free == map[]
        && pool.dropped == old(pool.dropped) + Sum(old(pool.free)) + old(timeline.Owned())
      ensures kind == DeviceLost ==> pool.dropped == old(pool.dropped) + old(timeline.Owned())
      ensures kind == Other ==> pool.dropped == old(pool.dropped) && pool.outside == old(pool.outside)
      ensures pool.faults == old(pool.faults) && timeline.evaluations == old(timeline.evaluations)
    {
      hide Plan.Expected;
      hide Plan.Valid;
      hide PlanFor;
      hide Evaluable;
      hide TexturesIn;
      hide Timeline.Accounted;
      match kind
      case DeviceLost => timeline.Discard(pool);
      case OutOfMemory =>
        timeline.Reset(pool);
        pool.Clear();
      case Other =>
    }

    /** Recovery from a GPU error of some kind. */
    method RecoverFromGpu()
      requires Ready()
      modifies timeline, timeline.state, pool
      ensures Ready() && (timeline.state == old(timeline.state) || fresh(timeline.state))
      ensures pool.outside - timeline.Owned() == old(pool.outside) - old(timeline.Owned())
      ensures pool.faults == old(pool.faults) && timeline.evaluations == old(timeline.evaluations)
    {
      var kind := *;
      Recover(kind);
    }

    /** Bring the timeline to one frame. */
    method Evaluate(frame: nat) returns (e: Result<Evaluated, NodeError>)
      requires Ready() && frame <= MAX_FRAME
      modifies timeline, timeline.state, pool
      ensures Ready() && timeline.state == old(timeline.state) && pool.LostOnlyToFaults()
      ensures e == Err(Gpu) <==> pool.faults != old(pool.faults)
      ensures e.Ok? ==> pool.faults == old(pool.faults) && pool.outside >= timeline.Owned() + e.value.Textures()
      ensures pool.outside - timeline.Owned() - (if e.Ok? then e.value.Textures() else 0)
              == old(pool.outside) - old(timeline.Owned())
      ensures e.Ok? ==> Shows(play, frame) == Ok((e.value.value, e.value.extras))
      ensures e.Err? && pool.faults == old(pool.faults) ==> Shows(play, frame).Err?
      ensures timeline.evaluations <= old(timeline.evaluations)
        + 2 * (Target(timeline.start, frame) - timeline.start + 1)
    {
      hide Plan.Expected;
      hide Plan.Valid;
      hide PlanFor;
      hide Playback.Produces;
      hide TexturesIn;
      hide TexturesOf;
      hide Evaluable;
      e := timeline.Goto(play, graph, dims, frame, pool);
    }

    /** Read an evaluation's result back and release it: a field, unless the GPU
        fails; anything else is refused. */
    method ReadBack(e: Evaluated) returns (ok: bool)
      requires Ready() && pool.outside >= timeline.Owned() + e.Textures()
      modifies timeline, timeline.state, pool
      ensures Ready() && (timeline.state == old(timeline.state) || fresh(timeline.state))
      ensures pool.outside - timeline.Owned() == old(pool.outside) - old(timeline.Owned()) - e.Textures()
      ensures pool.faults >= old(pool.faults) && (pool.faults == old(pool.faults) ==> pool.dropped == old(pool.dropped))
      ensures ok ==> pool.faults == old(pool.faults) && e.value.Field?
      ensures !ok && pool.faults == old(pool.faults) ==> !e.value.Field?
      ensures timeline.evaluations == old(timeline.evaluations)
    {
      hide Plan.Expected;
      hide Plan.Valid;
      hide PlanFor;
      hide TexturesIn;
      hide TexturesOf;
      hide Evaluable;
      hide Playback.Entering;
      hide Timeline.Accounted;
      hide Faithful;
      var readBack := *;
      ReleaseEvaluated(e, pool);
      if e.value.Field? && !readBack {
        pool.Fault();
        RecoverFromGpu();
        return false;
      }
      return e.value.Field?;
    }

    /** Render one frame: its value if all goes well. A frame too far past the
        start is turned away before it costs anything. */
    method Render(frame: nat) returns (r: Option<(Value, seq<Value>)>)
      requires Ready() && frame <= MAX_FRAME
      modifies timeline, timeline.state, pool
      ensures Ready() && (timeline.state == old(timeline.state) || fresh(timeline.state))
      ensures pool.outside - timeline.Owned() == old(pool.outside) - old(timeline.Owned())
      ensures r.Some? ==> Shows(play, frame) == Ok(r.value) && r.value.0.Field?
      ensures r.None? && pool.faults == old(pool.faults) ==>
        frame > timeline.start + 1_048_574 || Shows(play, frame).Err? || !Shows(play, frame).value.0.Field?
      ensures pool.faults >= old(pool.faults)
      ensures pool.faults == old(pool.faults) || r.Some? ==> pool.dropped == old(pool.dropped)
      ensures timeline.evaluations <= old(timeline.evaluations) + 2 * 1_048_575
      ensures frame > timeline.start + 1_048_574 ==> r.None? && timeline.evaluations == old(timeline.evaluations)
    {
      hide Plan.Expected;
      hide Plan.Valid;
      hide PlanFor;
      hide Playback.Produces;
      hide TexturesIn;
      hide TexturesOf;
      hide Evaluable;
      hide Shows;
      if frame > timeline.start && frame - timeline.start > MAX_FRAME_SPAN { return None; }
      var e := Evaluate(frame);
      if e.Err? {
        if e.error == Gpu { RecoverFromGpu(); }
        return None;
      }
      var ok := ReadBack(e.value);
      return if ok then Some((e.value.value, e.value.extras)) else None;
    }

    lemma RightNext(calls: seq<Call>, shown: seq<Option<(Value, seq<Value>)>>, one: Option<(Value, seq<Value>)>)
      requires play.plan.Valid() && |shown| < |calls|
      ensures AllRight(play, calls, shown)
        && (one.Some? ==> calls[|shown|].Goto? && Shows(play, calls[|shown|].frame) == Ok(one.value))
        ==> AllRight(play, calls, shown + [one])
      ensures NoneMissed(play, calls, shown)
        && (calls[|shown|].Goto? && one.None? ==> Shows(play, calls[|shown|].frame).Err?)
        ==> NoneMissed(play, calls, shown + [one])
    {
      hide Shows; hide Plan.Valid;
    }

    lemma NoCallsYet(calls: seq<Call>)
      requires play.plan.Valid()
      ensures AllRight(play, calls, []) && NoneMissed(play, calls, [])
    {
    }

    /** Any sequence of calls: every frame handed out is the one forward
        playback shows, however it was reached and whatever failed before. */
    method Drive(calls: seq<Call>) returns (shown: seq<Option<(Value, seq<Value>)>>)
      requires Ready() && forall c <- calls :: c.Goto? ==> c.frame <= MAX_FRAME
      modifies timeline, timeline.state, pool
      ensures Ready() && |shown| == |calls|
      ensures pool.outside - timeline.Owned() == old(pool.outside) - old(timeline.Owned())
      ensures AllRight(play, calls, shown)
      ensures pool.faults == old(pool.faults) ==> NoneMissed(play, calls, shown)
      ensures pool.faults == old(pool.faults) && AllKeepTextures(calls) ==> pool.dropped == old(pool.dropped)
    {
      hide Plan.Expected;
      hide Plan.Valid;
      hide PlanFor;
      hide Playback.Produces;
      hide TexturesIn;
      hide TexturesOf;
      hide Evaluable;
      hide Shows; hide AllRight; hide NoneMissed;
      shown := [];
      NoCallsYet(calls);
      for i := 0 to |calls|
        invariant Ready() && (timeline.state == old(timeline.state) || fresh(timeline.state))
        invariant |shown| == i && pool.faults >= old(pool.faults)
        invariant pool.outside - timeline.Owned() == old(pool.outside) - old(timeline.Owned())
        invariant AllRight(play, calls, shown)
        invariant pool.faults == old(pool.faults) ==> NoneMissed(play, calls, shown)
        invariant pool.faults == old(pool.faults) && AllKeepTextures(calls) ==> pool.dropped == old(pool.dropped)
      {
        var one := Serve(calls[i]);
        RightNext(calls, shown, one);
        shown := shown + [one];
      }
    }

    /** One frame evaluated, handed out and released. */
    method Present(frame: nat) returns (one: Option<(Value, seq<Value>)>)
      requires Ready() && frame <= MAX_FRAME
      modifies timeline, timeline.state, pool
      ensures Ready() && timeline.state == old(timeline.state)
      ensures pool.outside - timeline.Owned() == old(pool.outside) - old(timeline.Owned())
      ensures pool.faults >= old(pool.faults)
      ensures pool.faults == old(pool.faults) ==> pool.dropped == old(pool.dropped)
      ensures one.Some? ==> Shows(play, frame) == Ok(one.value)
      ensures pool.faults == old(pool.faults) && one.None? ==> Shows(play, frame).Err?
    {
      hide Plan.Expected;
      hide Plan.Valid;
      hide PlanFor;
      hide Playback.Produces;
      hide TexturesIn;
      hide TexturesOf;
      hide Evaluable;
      hide Shows;
      var e := Evaluate(frame);
      if e.Err? { return None; }
      ReleaseEvaluated(e.value, pool);
      return Some((e.value.value, e.value.extras));
    }

    /** One call: what it shows, and what it costs in textures. */
    method Serve(call: Call) returns (one: Option<(Value, seq<Value>)>)
      requires Ready() && (call.Goto? ==> call.frame <= MAX_FRAME)
      modifies timeline, timeline.state, pool
      ensures Ready() && (timeline.state == old(timeline.state) || fresh(timeline.state))
      ensures pool.outside - timeline.Owned() == old(pool.outside) - old(timeline.Owned())
      ensures pool.faults >= old(pool.faults)
      ensures pool.faults == old(pool.faults) && call.KeepsTextures() ==> pool.dropped == old(pool.dropped)
      ensures call.Reset? ==> timeline.Owned() == 0 && timeline.cache == map[] && timeline.cursor == None
      ensures call == Recovery(OutOfMemory) ==>
        pool.dropped == old(pool.dropped) + Sum(old(pool.free)) + old(timeline.Owned())
      ensures call.Discard? || call == Recovery(DeviceLost) ==>
        pool.dropped == old(pool.dropped) + old(timeline.Owned())
      ensures one.Some? ==> call.Goto? && Shows(play, call.frame) == Ok(one.value)
      ensures pool.faults == old(pool.faults) && call.Goto? && one.None? ==> Shows(play, call.frame).Err?
    {
      hide Plan.Expected;
      hide Plan.Valid;
      hide PlanFor;
      hide Playback.Produces;
      hide TexturesIn;
      hide TexturesOf;
      hide Evaluable;
      hide Shows;
      one := None;
      match call
      case Goto(frame) => one := Present(frame);
      case Reset => timeline.Reset(pool);
      case Discard => timeline.Discard(pool);
      case Recovery(kind) => Recover(kind);
    }
  }
}
