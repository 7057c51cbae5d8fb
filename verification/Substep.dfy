/** The lifetime of every field a substep uses (elements-ember `solver.rs`):
    recording, retiring, mid-solve flushes, submitting and abandoning. A kernel
    is the dispatches it may record; any of them may fail part-way. */
module Substeps {
  import opened Values
  import opened Tenancy
  import opened Batches
  import opened Schedules

  /** The fields carried from one substep to the next. */
  class SolverState {
    var velocity: (Hold, Hold, Hold)
    var density: Hold
    var temperature: Hold
    var pressure: Hold
    var fire: Option<FireState>
    var surface: Option<Hold>

    constructor (velocity: (Hold, Hold, Hold), density: Hold, temperature: Hold, pressure: Hold,
        fire: Option<FireState>, surface: Option<Hold>)
      ensures this.velocity == velocity && this.density == density && this.temperature == temperature
      ensures this.pressure == pressure && this.fire == fire && this.surface == surface
    {
      this.velocity, this.density, this.temperature := velocity, density, temperature;
      this.pressure, this.fire, this.surface := pressure, fire, surface;
    }

    function Faces(): set<Hold>
      reads this`velocity
    {
      {velocity.0, velocity.1, velocity.2}
    }

    /** What it holds now. */
    ghost function Now(): Moment
      reads this
    {
      Moment(velocity, density, temperature, pressure, fire, surface)
    }

    function Fields(): seq<Hold>
      reads this
    {
      [velocity.0, velocity.1, velocity.2, density, temperature, pressure]
      + (if fire.Some? then [fire.value.fuel, fire.value.react] else [])
      + if surface.Some? then [surface.value] else []
    }

    lemma Members()
      ensures Faces() + {density, temperature, pressure} <= Elements(Fields())
      ensures fire.Some? ==> {fire.value.fuel, fire.value.react} <= Elements(Fields())
      ensures surface.Some? ==> surface.value in Elements(Fields())
    {
      var fields := Fields();
      assert fields[0] == velocity.0 && fields[1] == velocity.1 && fields[2] == velocity.2;
      assert fields[3] == density && fields[4] == temperature && fields[5] == pressure;
      assert fire.Some? ==> fields[6] == fire.value.fuel && fields[7] == fire.value.react;
      assert surface.Some? ==> fields[|fields| - 1] == surface.value;
    }
  }

  class Substep {
    const batch: ComputeBatch<Work>
    const setup: Setup
    /** Fields a stage replaced, waiting for the batch to have run. */
    var retired: seq<Hold>

    constructor (batch: ComputeBatch<Work>, setup: Setup)
      ensures retired == [] && this.batch == batch && this.setup == setup
    {
      this.batch, this.setup, retired := batch, setup, [];
    }

    /** The live fields not waiting in `retired`. */
    ghost function Kept(pool: TexturePool): set<Hold>
      reads this`retired, pool`held
    {
      pool.held - Elements(retired)
    }

    /** What every stage keeps, even when it fails. */
    ghost predicate Sound(pool: TexturePool)
      reads this, batch, pool
    {
      && pool.Valid()
      && Orderly(batch.Recorded(), pool.held, pool.acquisitions)
      && Distinct(retired) && Elements(retired) <= pool.held
    }

    /** What a stage needs, and keeps when it succeeds: every field a pending
        dispatch binds is still held, `retired` included. */
    ghost predicate Ready(pool: TexturePool)
      reads this, batch, pool
    {
      Sound(pool) && Owned(batch.dispatches, pool.held)
    }

    ghost predicate Carries(pool: TexturePool, state: SolverState)
      reads this`retired, pool`held, state
    {
      Distinct(state.Fields()) && Elements(state.Fields()) <= Kept(pool)
    }

    /** Work is only added: behind what was recorded, and to what has reached
        the queue. */
    twostate predicate Grows()
      reads batch
    {
      old(batch.queued) <= batch.queued && old(batch.Recorded()) <= batch.Recorded()
    }

    // ------------------------------------------------------------ steps

    method Take(pool: TexturePool) returns (ok: bool, h: Hold)
      requires Ready(pool)
      modifies pool
      ensures Ready(pool) && pool.lost == old(pool.lost)
      ensures ok ==> h !in old(pool.held) && Kept(pool) == old(Kept(pool)) + {h} && pool.held == old(pool.held) + {h}
      ensures !ok ==> pool.held == old(pool.held)
      ensures old(pool.held) <= pool.held
    {
      ghost var log, held, acquisitions := batch.Recorded(), pool.held, pool.acquisitions;
      ok, h := pool.Acquire();
      if ok { AcquireKeeps(log, held, acquisitions, h); }
    }

    method Retire(pool: TexturePool, hs: seq<Hold>)
      requires Sound(pool) && Distinct(hs) && Elements(hs) <= Kept(pool)
      modifies `retired
      ensures Sound(pool) && Kept(pool) == old(Kept(pool)) - Elements(hs)
      ensures old(Ready(pool)) ==> Ready(pool)
    {
      DistinctConcat(retired, hs);
      retired := retired + hs;
    }

    method RetireOne(pool: TexturePool, h: Hold)
      requires Sound(pool) && h in Kept(pool)
      modifies `retired
      ensures Sound(pool) && Kept(pool) == old(Kept(pool)) - {h}
      ensures old(Ready(pool)) ==> Ready(pool)
    {
      assert Elements([h]) == {h};
      Retire(pool, [h]);
    }

    /** A kernel: some dispatches of one pass over the fields it is given, which
        it may stop recording at any point. One that succeeds has bound all
        `surely` names. */
    method Kernel(pool: TexturePool, pass: Pass, binds: set<Hold>, surely: set<Hold>) returns (ok: bool)
      requires Ready(pool) && surely <= binds <= pool.held
      modifies batch
      ensures Grows()
      ensures Ready(pool) && batch.queued == old(batch.queued) && batch.submissions == old(batch.submissions)
      ensures ok ==> Added(old(batch.Recorded()), batch.Recorded(), [Step(pass, surely)])
    {
      var count: int := *;
      var covered: set<Hold> := {};
      ghost var before := batch.Recorded();
      for i := 0 to if count < 0 then 0 else count
        invariant Ready(pool) && batch.queued == old(batch.queued) && batch.submissions == old(batch.submissions)
        invariant Grows() && IsRun(batch.Recorded()[|before|..], Step(pass, covered))
      {
        var bound: set<Hold> := *;
        bound := bound * binds;
        ghost var log := batch.Recorded();
        RecordKeeps(log, pool.held, pool.acquisitions, Work(pass, bound));
        OneMore(log[|before|..], pass, covered, bound);
        batch.Dispatch(Work(pass, bound));
        assert batch.Recorded()[|before|..] == log[|before|..] + [Work(pass, bound)];
        covered := covered + bound;
      }
      ok := *;
      ok := ok && surely <= covered;
      OneRun(before, batch.Recorded(), Step(pass, covered * surely));
    }

    /** A kernel that binds everything it is given. */
    method Run(pool: TexturePool, pass: Pass, binds: set<Hold>) returns (ok: bool)
      requires Ready(pool) && binds <= pool.held
      modifies batch
      ensures Grows()
      ensures Ready(pool) && batch.queued == old(batch.queued) && batch.submissions == old(batch.submissions)
      ensures ok ==> Added(old(batch.Recorded()), batch.Recorded(), [Step(pass, binds)])
    {
      ok := Kernel(pool, pass, binds, binds);
    }

    /** Submit what is recorded and go on. */
    method Flush(pool: TexturePool) returns (ok: bool)
      requires Sound(pool)
      modifies batch
      ensures Grows()
      ensures Ready(pool) && batch.dispatches == [] && batch.Recorded() == old(batch.Recorded())
    {
      ok := batch.Flush();
    }

    /** One dispatch. */
    method Record(pool: TexturePool, w: Work, ghost surely: set<Hold>)
      requires Ready(pool) && surely <= w.binds <= pool.held
      modifies batch
      ensures Grows()
      ensures Ready(pool) && batch.queued == old(batch.queued) && batch.submissions == old(batch.submissions)
      ensures Added(old(batch.Recorded()), batch.Recorded(), [Step(w.pass, surely)])
    {
      RecordKeeps(batch.Recorded(), pool.held, pool.acquisitions, w);
      OneDispatch(batch.Recorded(), w, Step(w.pass, surely));
      batch.Dispatch(w);
    }

    // ------------------------------------------------------------ advection

    /** `advect`: one dispatch that writes `dst`, or none. */
    method Advect(pool: TexturePool, pass: Pass, binds: set<Hold>, dst: Hold, ghost surely: set<Hold>)
      returns (ok: bool)
      requires Ready(pool) && binds + {dst} <= pool.held && surely <= binds + {dst}
      modifies batch
      ensures Grows()
      ensures Ready(pool) && batch.queued == old(batch.queued) && batch.submissions == old(batch.submissions)
      ensures if ok then Added(old(batch.Recorded()), batch.Recorded(), [Step(pass, surely)])
              else batch.dispatches == old(batch.dispatches)
    {
      ok := *;
      if ok { Record(pool, Work(pass, binds + {dst}), surely); }
    }

    /** `maccormack`: three passes through two scratch fields. */
    method MacCormack(pool: TexturePool, what: Carried, velocity: set<Hold>, src: Hold, dst: Hold, walls: set<Hold>)
      returns (ok: bool)
      requires Ready(pool) && velocity + {src, dst} + walls <= pool.held
      modifies `retired, batch, pool
      ensures Grows()
      ensures ok ==> Added(old(batch.Recorded()), batch.Recorded(), ThreePasses(what, velocity, src, dst, walls))
      ensures Ready(pool) && Kept(pool) == old(Kept(pool)) && pool.lost == old(pool.lost) && old(pool.held) <= pool.held
    {
      hide Substep.Sound; hide Added;
      var fwd, bwd;
      ok, fwd := Take(pool);
      if !ok { return; }
      ok, bwd := Take(pool);
      if !ok {
        RetireOne(pool, fwd);
        return;
      }
      ok := ThroughScratch(pool, what, velocity, src, dst, walls, fwd, bwd);
      RetireOne(pool, fwd);
      RetireOne(pool, bwd);
    }

    method ThroughScratch(pool: TexturePool, what: Carried, velocity: set<Hold>, src: Hold, dst: Hold, walls: set<Hold>,
        fwd: Hold, bwd: Hold)
      returns (ok: bool)
      requires Ready(pool) && velocity + {src, dst, fwd, bwd} + walls <= pool.held
      modifies batch
      ensures Grows() && Ready(pool)
      ensures ok ==> Added(old(batch.Recorded()), batch.Recorded(), ThreePasses(what, velocity, src, dst, walls))
    {
      hide Substep.Sound; hide Added; hide Owned;
      ghost var a, plan := batch.Recorded(), ThreePasses(what, velocity, src, dst, walls);
      ok := Advect(pool, Forward(what), velocity + {src} + walls, fwd, plan[0].binds);
      if !ok { return; }
      ghost var b := batch.Recorded();
      ok := Advect(pool, Backward(what), velocity + {fwd} + walls, bwd, plan[1].binds);
      if !ok { return; }
      ghost var c := batch.Recorded();
      ok := Advect(pool, Carry(what), velocity + {src, fwd, bwd} + walls, dst, plan[2].binds);
      if !ok { return; }
      AddedThen(a, b, c, [plan[0]], [plan[1]]);
      AddedThen(a, c, batch.Recorded(), [plan[0]] + [plan[1]], [plan[2]]);
      assert [plan[0]] + [plan[1]] + [plan[2]] == plan;
    }

    /** `advect_grid`: `src` carried into a new field. */
    method AdvectGrid(pool: TexturePool, what: Carried, velocity: set<Hold>, src: Hold, walls: set<Hold>)
      returns (ok: bool, dst: Hold)
      requires Ready(pool) && velocity + {src} + walls <= pool.held
      modifies `retired, batch, pool
      ensures Grows()
      ensures Ready(pool) && pool.lost == old(pool.lost) && old(pool.held) <= pool.held
      ensures ok ==> dst !in old(pool.held) && Kept(pool) == old(Kept(pool)) + {dst}
      ensures ok ==>
        Added(old(batch.Recorded()), batch.Recorded(), Carrying(setup, what, velocity, src, dst, walls))
      ensures !ok ==> Kept(pool) == old(Kept(pool))
    {
      hide Substep.Sound; hide Added; hide ThreePasses;
      ok, dst := Take(pool);
      if !ok { return; }
      if setup.maccormack {
        ok := MacCormack(pool, what, velocity, src, dst, walls);
      } else {
        ok := Advect(pool, Carry(what), velocity + {src} + walls, dst, velocity + {src, dst} + walls);
      }
      if !ok { RetireOne(pool, dst); }
    }

    /** `advect_scalar`: with the mass correction's measurements around it. */
    method AdvectScalar(pool: TexturePool, what: Carried, velocity: set<Hold>, src: Hold, solids: Option<Solids>)
      returns (ok: bool, dst: Hold)
      requires Ready(pool) && velocity + {src} + Walls(solids) <= pool.held
      modifies `retired, batch, pool
      ensures Grows()
      ensures Ready(pool) && pool.lost == old(pool.lost) && old(pool.held) <= pool.held
      ensures ok ==> dst !in old(pool.held) && Kept(pool) == old(Kept(pool)) + {dst}
      ensures ok ==>
        Added(old(batch.Recorded()), batch.Recorded(), CarryingScalar(setup, what, velocity, src, dst, solids))
      ensures !ok ==> Kept(pool) == old(Kept(pool))
    {
      hide Substep.Sound; hide Added; hide Carrying; hide Owned;
      ObstacleIsWall(solids, what);
      var walls, mask := Obstacle(solids, what), One(Mask(solids));
      if !setup.conserveMass {
        ok, dst := AdvectGrid(pool, what, velocity, src, walls);
        return;
      }
      var scratch;
      ok, scratch := Take(pool);
      dst := scratch;
      if !ok { return; }
      ghost var a := batch.Recorded();
      ghost var measured := velocity + {src} + mask;
      ok := Kernel(pool, Measure(what), velocity + {src, scratch} + mask, velocity + {src} + mask);
      RetireOne(pool, scratch);
      if !ok { return; }
      ghost var b := batch.Recorded();
      ok, dst := AdvectGrid(pool, what, velocity, src, walls);
      if !ok { return; }
      ghost var c := batch.Recorded();
      ok := Run(pool, Correct(what), {dst});
      if !ok {
        RetireOne(pool, dst);
        return;
      }
      ghost var carry := Carrying(setup, what, velocity, src, dst, walls);
      AddedThen(a, b, c, [Step(Measure(what), measured)], carry);
      AddedThen(a, c, batch.Recorded(), [Step(Measure(what), measured)] + carry, [Step(Correct(what), {dst})]);
    }

    // ------------------------------------------------------------ the pressure solves

    /** `Smoother::record`: `count` sweeps, a dispatch for each colour. */
    method Sweeps(pool: TexturePool, done: nat, count: nat, p: Hold, div: Hold, mask: set<Hold>,
        ghost start: seq<Work>)
      requires Ready(pool) && {p, div} + mask <= pool.held
      requires Added(start, batch.Recorded(), Sweeping(done, p, div))
      modifies batch
      ensures Grows() && Ready(pool)
      ensures Added(start, batch.Recorded(), Sweeping(done + count, p, div))
    {
      hide Substep.Sound; hide Added; hide Owned; hide Sweeping;
      for s := 0 to count
        invariant Grows() && Ready(pool) && Added(start, batch.Recorded(), Sweeping(done + s, p, div))
      {
        ghost var log := batch.Recorded();
        Colours(pool, done + s, {p, div} + mask, {p, div});
        OneSweepMore(done + s, p, div);
        AddedThen(start, log, batch.Recorded(), Sweeping(done + s, p, div), [Step(Solve(done + s), {p, div})]);
      }
    }

    /** One sweep: red, then black. */
    method Colours(pool: TexturePool, i: nat, binds: set<Hold>, ghost surely: set<Hold>)
      requires Ready(pool) && surely <= binds <= pool.held
      modifies batch
      ensures Grows() && Ready(pool)
      ensures Added(old(batch.Recorded()), batch.Recorded(), [Step(Solve(i), surely)])
    {
      hide Substep.Sound; hide Added; hide Owned;
      ghost var a := batch.Recorded();
      Record(pool, Work(Solve(i), binds), surely);
      ghost var b := batch.Recorded();
      Record(pool, Work(Solve(i), binds), surely);
      RunsJoin(a, b, batch.Recorded(), Step(Solve(i), surely), Step(Solve(i), surely), surely);
    }

    /** `solve_pressure`: sweeps in chunks, one submission a chunk; in a closed
        domain the mean is removed after them. */
    method GaussSeidelSweeps(pool: TexturePool, iterations: nat, p: Hold, div: Hold, mask: set<Hold>)
      returns (ok: bool)
      requires Ready(pool) && {p, div} + mask <= pool.held
      modifies batch
      ensures Grows()
      ensures Ready(pool)
      ensures ok ==>
        Added(old(batch.Recorded()), batch.Recorded(), Sweeping(iterations, p, div) + Mean(setup.closed, p))
    {
      hide Substep.Sound; hide Added; hide Owned; hide Sweeping;
      var chunk := if setup.perSubmit == 0 then 1 else setup.perSubmit;
      var done := 0;
      ghost var start := batch.Recorded();
      NothingAdded(start);
      NoSweeps(p, div);
      ok := *;
      while ok && done < iterations
        invariant Ready(pool) && Grows() && done <= iterations
        invariant ok ==> Added(start, batch.Recorded(), Sweeping(done, p, div))
        decreases ok, iterations - done
      {
        if done > 0 { ok := Flush(pool); }
        if ok {
          var sweeps := if chunk < iterations - done then chunk else iterations - done;
          Sweeps(pool, done, sweeps, p, div, mask, start);
          done := done + sweeps;
        }
      }
      if ok { ok := RemoveMeans(pool, p, start, Sweeping(iterations, p, div)); }
    }

    method RemoveMeans(pool: TexturePool, p: Hold, ghost start: seq<Work>, ghost solved: seq<Step>) returns (ok: bool)
      requires Ready(pool) && p in pool.held && Added(start, batch.Recorded(), solved)
      modifies batch
      ensures Grows() && Ready(pool)
      ensures ok ==> Added(start, batch.Recorded(), solved + Mean(setup.closed, p))
    {
      hide Substep.Sound; hide Added; hide Owned;
      ok := true;
      if !setup.closed {
        assert solved + [] == solved;
        return;
      }
      ghost var log := batch.Recorded();
      ok := Run(pool, RemoveMean, {p});
      if ok { AddedThen(start, log, batch.Recorded(), solved, [Step(RemoveMean, {p})]); }
    }

    /** `VCycle::record`: one submission a cycle. */
    method Cycles(pool: TexturePool, count: nat, binds: set<Hold>, p: Hold, div: Hold) returns (ok: bool)
      requires Ready(pool) && {p, div} <= binds <= pool.held
      modifies batch
      ensures Grows()
      ensures Ready(pool)
      ensures ok ==> Added(old(batch.Recorded()), batch.Recorded(), Sweeping(count, p, div) + Mean(setup.closed, p))
    {
      hide Substep.Sound; hide Added; hide Owned; hide Sweeping;
      var cycle := 0;
      ghost var start := batch.Recorded();
      NothingAdded(start);
      NoSweeps(p, div);
      ok := *;
      while ok && cycle < count
        invariant Ready(pool) && Grows() && cycle <= count
        invariant ok ==> Added(start, batch.Recorded(), Sweeping(cycle, p, div))
        decreases ok, count - cycle
      {
        if cycle > 0 { ok := Flush(pool); }
        if ok {
          ghost var log := batch.Recorded();
          ok := Kernel(pool, Solve(cycle), binds, {p, div});
          OneSweepMore(cycle, p, div);
          if ok {
            AddedThen(start, log, batch.Recorded(), Sweeping(cycle, p, div), [Step(Solve(cycle), {p, div})]);
          }
          cycle := cycle + 1;
        }
      }
      if ok { ok := RemoveMeans(pool, p, start, Sweeping(count, p, div)); }
    }

    /** `n` more fields; the caller keeps what it got when one fails. */
    method TakeMany(pool: TexturePool, n: nat) returns (ok: bool, fields: seq<Hold>)
      requires Ready(pool)
      modifies pool
      ensures Ready(pool) && pool.lost == old(pool.lost) && pool.held == old(pool.held) + Elements(fields)
      ensures Distinct(fields) && Kept(pool) == old(Kept(pool)) + Elements(fields) && Elements(fields) !! old(pool.held)
      ensures ok ==> |fields| == n
    {
      hide Substep.Sound;
      ok, fields := true, [];
      while ok && |fields| < n
        invariant Ready(pool) && pool.lost == old(pool.lost) && pool.held == old(pool.held) + Elements(fields)
        invariant Distinct(fields) && Kept(pool) == old(Kept(pool)) + Elements(fields)
          && Elements(fields) !! old(pool.held)
        invariant Elements(fields) <= pool.held
        invariant ok ==> |fields| <= n
        decreases ok, n - |fields|
      {
        var h;
        ok, h := Take(pool);
        if ok {
          assert Elements([h]) == {h};
          DistinctConcat(fields, [h]);
          fields := fields + [h];
        }
      }
    }

    /** Fields dropped with the value that held them. A pending dispatch may
        still bind them: only abandoning the batch makes that harmless. */
    ghost method DropAll(pool: TexturePool, fields: set<Hold>)
      requires Sound(pool) && fields <= Kept(pool)
      modifies pool`held, pool`lost
      ensures Sound(pool) && Kept(pool) == old(Kept(pool)) - fields && pool.held == old(pool.held) - fields
    {
      pool.Drop(fields);
      ReleaseKeeps(batch.Recorded(), old(pool.held), pool.held, pool.acquisitions);
    }

    /** Fields returned to the pool. */
    method ReturnAll(pool: TexturePool, fields: seq<Hold>)
      requires Sound(pool) && Distinct(fields) && Elements(fields) <= Kept(pool)
      modifies pool`free, pool`held
      ensures Sound(pool) && Kept(pool) == old(Kept(pool)) - Elements(fields)
        && pool.held == old(pool.held) - Elements(fields)
      ensures batch.dispatches == [] ==> Ready(pool)
    {
      ghost var held := pool.held;
      pool.ReleaseAll(fields);
      ReleaseKeeps(batch.Recorded(), held, pool.held, pool.acquisitions);
    }

    /** `Hierarchy::new`'s levels, finest first: right-hand side and correction
        on coarse levels, a residual on all but the coarsest, and with solids a
        mask and fluid fractions on coarse levels and prolongation weights on
        all but the coarsest. */
    method BuildLevels(pool: TexturePool, fineMask: Option<Hold>, depth: nat) returns (ok: bool, fields: seq<Hold>)
      requires Ready(pool) && One(fineMask) <= pool.held
      modifies batch, pool
      ensures Grows()
      ensures Ready(pool) && pool.lost == old(pool.lost) && pool.held == old(pool.held) + Elements(fields)
      ensures Distinct(fields) && Kept(pool) == old(Kept(pool)) + Elements(fields) && Elements(fields) !! old(pool.held)
      ensures ok ==> |fields| == LevelFields(fineMask.Some?, depth, depth)
      ensures ok ==> Added(old(batch.Recorded()), batch.Recorded(), [LevelsStep(depth, fineMask)])
    {
      hide Substep.Sound; hide TexturePool.Valid; hide Added; hide Owned;
      var l := 0;
      ok, fields := true, [];
      ghost var start := batch.Recorded();
      NoLevels(start, fineMask);
      while ok && l < depth
        invariant Ready(pool) && pool.lost == old(pool.lost) && pool.held == old(pool.held) + Elements(fields)
        invariant Distinct(fields) && Kept(pool) == old(Kept(pool)) + Elements(fields)
          && Elements(fields) !! old(pool.held)
        invariant Elements(fields) <= pool.held
        invariant Grows()
        invariant ok ==> l <= depth && |fields| == LevelFields(fineMask.Some?, l, depth)
        invariant ok ==> Added(start, batch.Recorded(), [LevelsStep(l, fineMask)])
        decreases ok, depth - l
      {
        var more;
        ok, more := TakeMany(pool, FieldsOf(fineMask.Some?, l, depth));
        DistinctConcat(fields, more);
        fields := fields + more;
        if ok { ok := SetUpLevel(pool, fineMask, fields, l, start); }
        l := l + 1;
      }
      if ok { ok := WeighProlongation(pool, fineMask, fields, depth, start); }
    }

    /** One level's mask, fluid fractions and solid count. The finest counts the
        caller's mask. */
    method SetUpLevel(pool: TexturePool, fineMask: Option<Hold>, fields: seq<Hold>, l: nat, ghost start: seq<Work>)
      returns (ok: bool)
      requires Ready(pool) && One(fineMask) + Elements(fields) <= pool.held
      requires Added(start, batch.Recorded(), [LevelsStep(l, fineMask)])
      modifies batch
      ensures Grows() && Ready(pool)
      ensures ok ==> Added(start, batch.Recorded(), [LevelsStep(l + 1, fineMask)])
    {
      hide Substep.Sound; hide Added; hide Owned;
      ok := true;
      if fineMask.None? { return; }
      ghost var log := batch.Recorded();
      var counted := if l == 0 then One(fineMask) else {};
      ok := Kernel(pool, Levels, Elements(fields) + One(fineMask), counted);
      if ok {
        RunsJoin(start, log, batch.Recorded(), LevelsStep(l, fineMask), Step(Levels, counted),
          LevelsStep(l + 1, fineMask).binds);
      }
    }

    method WeighProlongation(pool: TexturePool, fineMask: Option<Hold>, fields: seq<Hold>, depth: nat,
        ghost start: seq<Work>)
      returns (ok: bool)
      requires Ready(pool) && One(fineMask) + Elements(fields) <= pool.held
      requires Added(start, batch.Recorded(), [LevelsStep(depth, fineMask)])
      modifies batch
      ensures Grows() && Ready(pool)
      ensures ok ==> Added(start, batch.Recorded(), [LevelsStep(depth, fineMask)])
    {
      hide Substep.Sound; hide Added; hide Owned;
      ok := true;
      if fineMask.None? { return; }
      ghost var log := batch.Recorded();
      ok := Kernel(pool, Levels, Elements(fields) + One(fineMask), {});
      if ok {
        RunsJoin(start, log, batch.Recorded(), LevelsStep(depth, fineMask), Step(Levels, {}),
          LevelsStep(depth, fineMask).binds);
      }
    }

    /** `Hierarchy::new`. A failure drops the levels built so far. */
    method NewHierarchy(pool: TexturePool, fineMask: Option<Hold>) returns (ok: bool, fields: seq<Hold>)
      requires Ready(pool) && One(fineMask) <= pool.held
      modifies batch, pool
      ensures Grows()
      ensures Sound(pool) && old(pool.held) <= pool.held
      ensures ok ==>
        Ready(pool) && pool.lost == old(pool.lost) && Distinct(fields) && Elements(fields) !! old(pool.held)
                     && Kept(pool) == old(Kept(pool)) + Elements(fields)
      ensures ok ==> Added(old(batch.Recorded()), batch.Recorded(), [LevelsStep(setup.depth, fineMask)])
      ensures !ok ==> Kept(pool) == old(Kept(pool)) && pool.held == old(pool.held)
    {
      hide TexturePool.Valid; hide Orderly; hide Added;
      ok, fields := BuildLevels(pool, fineMask, setup.depth);
      if !ok { DropAll(pool, Elements(fields)); }
    }

    /** `mgpcg`: five scratch fields, returned once the recording is flushed -
        and returned too when it failed, flushed or not. */
    method Mgpcg(pool: TexturePool, iterations: nat, binds: set<Hold>, p: Hold, div: Hold) returns (ok: bool)
      requires Ready(pool) && {p, div} <= binds <= pool.held
      modifies batch, pool
      ensures Grows()
      ensures Sound(pool) && pool.held == old(pool.held) && Kept(pool) == old(Kept(pool))
      ensures ok ==> Ready(pool) && pool.lost == old(pool.lost)
      ensures ok ==>
        Added(old(batch.Recorded()), batch.Recorded(), Iterating(iterations, p, div)
          + Mean(setup.closed && iterations > 0, p))
    {
      hide TexturePool.Valid; hide Orderly; hide Added; hide Iterating; hide Owned;
      NoSweeps(p, div);
      NothingAdded(batch.Recorded());
      if iterations == 0 {
        assert Iterating(0, p, div) + Mean(false, p) == [];
        return true;
      }
      var fields;
      ok, fields := TakeMany(pool, 5);
      if !ok {
        DropAll(pool, Elements(fields));
        return;
      }
      ok := Iterations(pool, iterations, binds + Elements(fields), p, div);
      if ok { ok := Flush(pool); }
      ReturnAll(pool, fields);
    }

    /** `record`: one submission an iteration. */
    method Iterations(pool: TexturePool, iterations: nat, binds: set<Hold>, p: Hold, div: Hold) returns (ok: bool)
      requires Ready(pool) && {p, div} <= binds <= pool.held && iterations > 0
      modifies batch
      ensures Grows() && Ready(pool)
      ensures ok ==>
        Added(old(batch.Recorded()), batch.Recorded(), Iterating(iterations, p, div) + Mean(setup.closed, p))
    {
      hide Substep.Sound; hide Added; hide Owned; hide Iterating;
      var i := 0;
      ghost var start := batch.Recorded();
      NothingAdded(start);
      NoSweeps(p, div);
      ok := true;
      while ok && i < iterations
        invariant Ready(pool) && Grows() && i <= iterations
        invariant ok ==> Added(start, batch.Recorded(), Iterating(i, p, div))
        decreases ok, iterations - i
      {
        if i > 0 { ok := Flush(pool); }
        if ok {
          ghost var log := batch.Recorded();
          var surely := if i == 0 then {p, div} else {p};
          ok := Kernel(pool, Solve(i), binds, surely);
          OneSweepMore(i, p, div);
          if ok { AddedThen(start, log, batch.Recorded(), Iterating(i, p, div), [Step(Solve(i), surely)]); }
          i := i + 1;
        }
      }
      if ok { ok := RemoveMeans(pool, p, start, Iterating(iterations, p, div)); }
    }

    /** `project`: divergence, the solve the set-up names, the gradient. */
    method Project(pool: TexturePool, state: SolverState, solids: Option<Solids>)
      returns (ok: bool, ghost into: Hold)
      requires Ready(pool) && Carries(pool, state) && Walls(solids) <= pool.held
      modifies `retired, batch, pool
      ensures Grows()
      ensures Sound(pool) && Kept(pool) == old(Kept(pool)) && old(pool.held) <= pool.held
      ensures ok ==> Ready(pool) && pool.lost == old(pool.lost) && into !in old(pool.held)
      ensures ok ==>
        Added(old(batch.Recorded()), batch.Recorded(), Projecting(setup, state.Faces(), state.pressure, into, solids))
    {
      hide TexturePool.Valid; hide Orderly; hide Substep.Sound; hide Added; hide Projecting;
      var div;
      ok, div := Take(pool);
      into := div;
      if !ok { return; }
      ok := RecordProjection(pool, state, div, solids);
      RetireOne(pool, div);
    }

    method RecordProjection(pool: TexturePool, state: SolverState, div: Hold, solids: Option<Solids>)
      returns (ok: bool)
      requires Ready(pool) && Elements(state.Fields()) <= pool.held && div in pool.held && Walls(solids) <= pool.held
      modifies `retired, batch, pool
      ensures Grows()
      ensures Sound(pool) && Kept(pool) == old(Kept(pool)) && old(pool.held) <= pool.held
      ensures ok ==> Ready(pool) && pool.lost == old(pool.lost)
      ensures ok ==>
        Added(old(batch.Recorded()), batch.Recorded(), Projecting(setup, state.Faces(), state.pressure, div, solids))
    {
      hide TexturePool.Valid; hide Orderly; hide Owned; hide Added; hide Solving; hide SolverState.Fields;
      state.Members();
      var velocity, p := state.Faces(), state.pressure;
      ghost var a := batch.Recorded();
      ok := Run(pool, Divergence, velocity + {div});
      if !ok { return; }
      ghost var b := batch.Recorded();
      ok := RecordSolve(pool, p, div, solids);
      if !ok { return; }
      ghost var c := batch.Recorded();
      ok := Run(pool, Gradient, velocity + {p} + Walls(solids));
      if !ok { return; }
      AddedThen(a, b, c, [Step(Divergence, velocity + {div})], Solving(setup, p, div, solids));
      AddedThen(a, c, batch.Recorded(), [Step(Divergence, velocity + {div})] + Solving(setup, p, div, solids),
        [Step(Gradient, velocity + {p} + Walls(solids))]);
    }

    method RecordSolve(pool: TexturePool, p: Hold, div: Hold, solids: Option<Solids>) returns (ok: bool)
      requires Ready(pool) && {p, div} + Walls(solids) <= pool.held
      modifies `retired, batch, pool
      ensures Grows()
      ensures Sound(pool) && Kept(pool) == old(Kept(pool)) && old(pool.held) <= pool.held
      ensures ok ==> Ready(pool) && pool.lost == old(pool.lost)
      ensures ok ==> Added(old(batch.Recorded()), batch.Recorded(), Solving(setup, p, div, solids))
    {
      hide TexturePool.Valid; hide Orderly; hide Owned; hide Added; hide Sweeping; hide Iterating;
      match setup.pressure {
        case GaussSeidel(iterations) =>
          ok := GaussSeidelSweeps(pool, iterations, p, div, One(Mask(solids)));
        case Multigrid(count) =>
          ok := SolveByCycles(pool, count, p, div, solids);
        case Mgpcg(count) =>
          ok := SolveByMgpcg(pool, count, p, div, solids);
      }
    }

    method SolveByCycles(pool: TexturePool, count: nat, p: Hold, div: Hold, solids: Option<Solids>)
      returns (ok: bool)
      requires Ready(pool) && {p, div} + Walls(solids) <= pool.held
      modifies `retired, batch, pool
      ensures Grows()
      ensures Sound(pool) && Kept(pool) == old(Kept(pool)) && old(pool.held) <= pool.held
      ensures ok ==> Ready(pool) && pool.lost == old(pool.lost)
      ensures ok ==>
        Added(old(batch.Recorded()), batch.Recorded(),
          [BuildingLevels(setup, solids)] + (Sweeping(count, p, div) + Mean(setup.closed, p)))
    {
      hide TexturePool.Valid; hide Orderly; hide Owned; hide Substep.Sound; hide Added; hide Sweeping;
      var fields;
      ghost var a := batch.Recorded();
      ok, fields := NewHierarchy(pool, Mask(solids));
      if !ok { return; }
      ghost var b := batch.Recorded();
      ok := Cycles(pool, count, {p, div} + One(Mask(solids)) + Elements(fields), p, div);
      Retire(pool, fields);
      if ok {
        AddedThen(a, b, batch.Recorded(), [BuildingLevels(setup, solids)],
          Sweeping(count, p, div) + Mean(setup.closed, p));
      }
    }

    method SolveByMgpcg(pool: TexturePool, count: nat, p: Hold, div: Hold, solids: Option<Solids>)
      returns (ok: bool)
      requires Ready(pool) && {p, div} + Walls(solids) <= pool.held
      modifies `retired, batch, pool
      ensures Grows()
      ensures Sound(pool) && Kept(pool) == old(Kept(pool)) && old(pool.held) <= pool.held
      ensures ok ==> Ready(pool) && pool.lost == old(pool.lost)
      ensures ok ==>
        Added(old(batch.Recorded()), batch.Recorded(),
          [BuildingLevels(setup, solids)] + (Iterating(count, p, div) + Mean(setup.closed && count > 0, p)))
    {
      hide TexturePool.Valid; hide Orderly; hide Owned; hide Substep.Sound; hide Added; hide Iterating;
      var fields;
      ghost var a := batch.Recorded();
      ok, fields := NewHierarchy(pool, Mask(solids));
      if !ok { return; }
      ghost var b := batch.Recorded();
      ok := Mgpcg(pool, count, {p, div} + One(Mask(solids)) + Elements(fields), p, div);
      Retire(pool, fields);
      if ok {
        AddedThen(a, b, batch.Recorded(), [BuildingLevels(setup, solids)],
          Iterating(count, p, div) + Mean(setup.closed && count > 0, p));
      }
    }

    // ------------------------------------------------------------ the other stages

    /** `confine_vorticity`: four scratch fields. */
    method ConfineVorticity(pool: TexturePool, velocity: set<Hold>, fuel: set<Hold>, mask: set<Hold>)
      returns (ok: bool)
      requires Ready(pool) && velocity + fuel + mask <= pool.held
      modifies `retired, batch, pool
      ensures Grows()
      ensures Ready(pool) && Kept(pool) == old(Kept(pool)) && pool.lost == old(pool.lost) && old(pool.held) <= pool.held
      ensures ok ==>
        Added(old(batch.Recorded()), batch.Recorded(),
          [Step(Curl, velocity + mask), Step(Confine, velocity + fuel + mask)])
    {
      hide Substep.Sound; hide TexturePool.Valid; hide Added; hide Owned;
      var omega;
      ok, omega := TakeMany(pool, 4);
      if !ok {
        Retire(pool, omega);
        return;
      }
      ghost var a := batch.Recorded();
      ok := Kernel(pool, Curl, velocity + Elements(omega) + mask, velocity + mask);
      ghost var b := batch.Recorded();
      if ok { ok := Kernel(pool, Confine, velocity + Elements(omega) + fuel + mask, velocity + fuel + mask); }
      Retire(pool, omega);
      if ok {
        var curl, confine := Step(Curl, velocity + mask), Step(Confine, velocity + fuel + mask);
        AddedThen(a, b, batch.Recorded(), [curl], [confine]);
        assert [curl] + [confine] == [curl, confine];
      }
    }

    /** One field no pending dispatch binds goes straight back to the pool. */
    method Give(pool: TexturePool, h: Hold)
      requires Ready(pool) && h in Kept(pool) && Owned(batch.dispatches, pool.held - {h})
      modifies pool`free, pool`held
      ensures Ready(pool) && pool.held == old(pool.held) - {h} && Kept(pool) == old(Kept(pool)) - {h}
    {
      ghost var held := pool.held;
      pool.Release(h);
      ReleaseKeeps(batch.Recorded(), held, pool.held, pool.acquisitions);
    }

    /** The surface's burn, through two scratch fields retired before they are
        used. The first goes straight back when there is no second. */
    method BurnSurface(pool: TexturePool, state: SolverState, load: Hold, sources: Sources) returns (ok: bool)
      requires Ready(pool) && Carries(pool, state) && sources.Binds() <= pool.held && sources.surface == Some(load)
      modifies `retired, batch, pool
      ensures Grows()
      ensures Ready(pool) && Kept(pool) == old(Kept(pool)) && pool.lost == old(pool.lost) && old(pool.held) <= pool.held
      ensures ok ==> state.fire.Some? && state.surface.Some? && sources.solids.Some?
      ensures ok ==> Added(old(batch.Recorded()), batch.Recorded(), Wood(state.Now(), sources))
    {
      hide TexturePool.Valid; hide Substep.Sound; hide SolverState.Fields; hide Distinct; hide Added;
      if state.surface.None? || sources.solids.None? || state.fire.None? { return false; }
      state.Members();
      var emitted, rate;
      ok, emitted := Take(pool);
      if !ok { return; }
      ok, rate := Take(pool);
      if !ok {
        Give(pool, emitted);
        return;
      }
      RetireOne(pool, emitted);
      RetireOne(pool, rate);
      ok := BurnThrough(pool, state, load, sources, emitted, rate);
    }

    method BurnThrough(pool: TexturePool, state: SolverState, load: Hold, sources: Sources, emitted: Hold, rate: Hold)
      returns (ok: bool)
      requires Ready(pool) && state.surface.Some? && sources.solids.Some? && state.fire.Some?
      requires {state.temperature, state.surface.value, state.fire.value.fuel, state.fire.value.react} <= pool.held
      requires {emitted, rate} + sources.Binds() <= pool.held && sources.surface == Some(load)
      modifies batch
      ensures Grows() && Ready(pool)
      ensures ok ==> Added(old(batch.Recorded()), batch.Recorded(), Wood(state.Now(), sources))
    {
      hide Substep.Sound; hide Added; hide Owned;
      var burned, fire, mask := state.surface.value, state.fire.value, One(Mask(sources.solids));
      ghost var plan, a := Wood(state.Now(), sources), batch.Recorded();
      ok := Kernel(pool, Ignite, {load, state.temperature, burned, emitted} + mask,
        {load, state.temperature, burned} + mask);
      if !ok { return; }
      ghost var b := batch.Recorded();
      ok := Kernel(pool, Gather, {emitted, rate} + mask, mask);
      if !ok { return; }
      ghost var c := batch.Recorded();
      ok := Kernel(pool, EmitWood, {fire.fuel, fire.react, rate}, {fire.fuel, fire.react});
      if !ok { return; }
      assert plan[0].binds == {load, state.temperature, burned} + mask;
      AddedThen(a, b, c, [plan[0]], [plan[1]]);
      AddedThen(a, c, batch.Recorded(), [plan[0]] + [plan[1]], [plan[2]]);
      assert [plan[0]] + [plan[1]] + [plan[2]] == plan;
    }

    /** The dispatches before the velocity is carried: emission, fire, forces. */
    method RecordForces(pool: TexturePool, state: SolverState, sources: Sources) returns (ok: bool)
      requires Ready(pool) && Carries(pool, state) && sources.Binds() <= pool.held
      modifies `retired, batch, pool
      ensures Grows()
      ensures Ready(pool) && Kept(pool) == old(Kept(pool)) && pool.lost == old(pool.lost) && old(pool.held) <= pool.held
      ensures ok && setup.burns ==> state.fire.Some?
      ensures ok ==> Added(old(batch.Recorded()), batch.Recorded(), Forces(state.Now(), sources, setup))
    {
      hide TexturePool.Valid; hide Substep.Sound; hide SolverState.Fields; hide Distinct;
      hide Owned; hide Walls; hide Elements; hide Added; hide Fire; hide Moving;
      ghost var a := batch.Recorded();
      ok := RecordEmission(pool, state, sources);
      if !ok { return; }
      ghost var b := batch.Recorded();
      ok := RecordMotion(pool, state, sources);
      if ok {
        AddedThen(a, b, batch.Recorded(), Emitting(state.Now(), sources, setup), Moving(state.Now(), sources, setup));
      }
    }

    /** Emission into the smoke, and the fire. */
    method RecordEmission(pool: TexturePool, state: SolverState, sources: Sources) returns (ok: bool)
      requires Ready(pool) && Carries(pool, state) && sources.Binds() <= pool.held
      modifies `retired, batch, pool
      ensures Grows()
      ensures Ready(pool) && Kept(pool) == old(Kept(pool)) && pool.lost == old(pool.lost) && old(pool.held) <= pool.held
      ensures ok && setup.burns ==> state.fire.Some?
      ensures ok ==> Added(old(batch.Recorded()), batch.Recorded(), Emitting(state.Now(), sources, setup))
    {
      hide TexturePool.Valid; hide Substep.Sound; hide SolverState.Fields; hide Distinct;
      hide Owned; hide Walls; hide Elements; hide Added; hide Fire;
      state.Members();
      ghost var plan, a := Emitting(state.Now(), sources, setup), batch.Recorded();
      ok := Run(pool, Emit(Density), {state.density, sources.density});
      if !ok { return; }
      ghost var b := batch.Recorded();
      ok := Run(pool, Emit(Temperature), {state.temperature, sources.temperature});
      if !ok { return; }
      AddedThen(a, b, batch.Recorded(), [plan[0]], [plan[1]]);
      ghost var c, smoke := batch.Recorded(), [plan[0]] + [plan[1]];
      if setup.burns {
        ok := RecordFire(pool, state, sources);
        assert plan == smoke + Fire(state.Now(), sources);
        if ok { AddedThen(a, c, batch.Recorded(), smoke, Fire(state.Now(), sources)); }
      } else {
        assert plan == smoke;
      }
    }

    /** Velocity emission, buoyancy, wind and vorticity. */
    method RecordMotion(pool: TexturePool, state: SolverState, sources: Sources) returns (ok: bool)
      requires Ready(pool) && Carries(pool, state) && sources.Binds() <= pool.held
      modifies `retired, batch, pool
      ensures Grows()
      ensures Ready(pool) && Kept(pool) == old(Kept(pool)) && pool.lost == old(pool.lost) && old(pool.held) <= pool.held
      ensures ok ==> Added(old(batch.Recorded()), batch.Recorded(), Moving(state.Now(), sources, setup))
    {
      hide TexturePool.Valid; hide Substep.Sound; hide SolverState.Fields; hide Distinct; hide Walls;
      hide Owned; hide Elements; hide Added; hide Blending; hide Blowing; hide Swirling;
      ghost var now, a := state.Now(), batch.Recorded();
      ok := RecordBlend(pool, state, sources);
      if !ok { return; }
      ghost var b := batch.Recorded();
      ok := RecordBuoyancy(pool, state, sources);
      if !ok { return; }
      ghost var c := batch.Recorded();
      ok := RecordWind(pool, state, sources);
      if !ok { return; }
      ghost var d := batch.Recorded();
      ok := RecordVorticity(pool, state, sources);
      if !ok { return; }
      AddedThen(a, b, c, Blending(now, sources), [Lifting(now, sources)]);
      AddedThen(a, c, d, Blending(now, sources) + [Lifting(now, sources)], Blowing(now, sources, setup));
      AddedThen(a, d, batch.Recorded(),
        Blending(now, sources) + [Lifting(now, sources)] + Blowing(now, sources, setup),
        Swirling(now, sources, setup));
    }

    method RecordBlend(pool: TexturePool, state: SolverState, sources: Sources) returns (ok: bool)
      requires Ready(pool) && Carries(pool, state) && sources.Binds() <= pool.held
      modifies batch
      ensures Grows() && Ready(pool)
      ensures ok ==> Added(old(batch.Recorded()), batch.Recorded(), Blending(state.Now(), sources))
    {
      hide TexturePool.Valid; hide Substep.Sound; hide SolverState.Fields; hide Distinct; hide Owned; hide Added;
      state.Members();
      NothingAdded(batch.Recorded());
      ok := true;
      if sources.emission.Some? {
        var e := sources.emission.value;
        ok := Run(pool, Blend, state.Faces() + {e.weight} + Three(e.velocity) + One(Mask(sources.solids)));
      }
    }

    method RecordBuoyancy(pool: TexturePool, state: SolverState, sources: Sources) returns (ok: bool)
      requires Ready(pool) && Carries(pool, state) && sources.Binds() <= pool.held
      modifies batch
      ensures Grows() && Ready(pool)
      ensures ok ==> Added(old(batch.Recorded()), batch.Recorded(), [Lifting(state.Now(), sources)])
    {
      hide TexturePool.Valid; hide Substep.Sound; hide SolverState.Fields; hide Distinct; hide Owned; hide Added;
      state.Members();
      ok := Run(pool, Buoyancy, {state.velocity.2, state.density, state.temperature} + One(Mask(sources.solids)));
    }

    method RecordWind(pool: TexturePool, state: SolverState, sources: Sources) returns (ok: bool)
      requires Ready(pool) && Carries(pool, state) && sources.Binds() <= pool.held
      modifies batch
      ensures Grows() && Ready(pool)
      ensures ok ==> Added(old(batch.Recorded()), batch.Recorded(), Blowing(state.Now(), sources, setup))
    {
      hide TexturePool.Valid; hide Substep.Sound; hide SolverState.Fields; hide Distinct; hide Owned; hide Added;
      state.Members();
      NothingAdded(batch.Recorded());
      ok := true;
      if setup.wind { ok := Run(pool, Wind, state.Faces() + One(Mask(sources.solids))); }
    }

    method RecordVorticity(pool: TexturePool, state: SolverState, sources: Sources) returns (ok: bool)
      requires Ready(pool) && Carries(pool, state) && sources.Binds() <= pool.held
      modifies `retired, batch, pool
      ensures Grows()
      ensures Ready(pool) && Kept(pool) == old(Kept(pool)) && pool.lost == old(pool.lost) && old(pool.held) <= pool.held
      ensures ok ==> Added(old(batch.Recorded()), batch.Recorded(), Swirling(state.Now(), sources, setup))
    {
      hide TexturePool.Valid; hide Substep.Sound; hide SolverState.Fields; hide Distinct; hide Owned; hide Added;
      state.Members();
      NothingAdded(batch.Recorded());
      ok := true;
      if setup.vorticity {
        var fuel := if setup.burns && state.fire.Some? then {state.fire.value.fuel} else {};
        ok := ConfineVorticity(pool, state.Faces(), fuel, One(Mask(sources.solids)));
      }
    }

    method RecordFire(pool: TexturePool, state: SolverState, sources: Sources) returns (ok: bool)
      requires Ready(pool) && Carries(pool, state) && sources.Binds() <= pool.held
      modifies `retired, batch, pool
      ensures Grows()
      ensures Ready(pool) && Kept(pool) == old(Kept(pool)) && pool.lost == old(pool.lost) && old(pool.held) <= pool.held
      ensures state.fire.None? || sources.fuel.None? ==> !ok && batch.Recorded() == old(batch.Recorded())
      ensures ok ==> Added(old(batch.Recorded()), batch.Recorded(), Fire(state.Now(), sources))
    {
      hide TexturePool.Valid; hide Substep.Sound; hide SolverState.Fields; hide Distinct; hide Added; hide Wood;
      hide Owned;
      if state.fire.None? || sources.fuel.None? { return false; }
      state.Members();
      var fire := state.fire.value;
      ghost var now, a := state.Now(), batch.Recorded();
      ok := Run(pool, EmitFuel, {fire.fuel, fire.react, sources.fuel.value});
      if !ok { return; }
      ghost var b := batch.Recorded();
      ghost var emit := Step(EmitFuel, {fire.fuel, fire.react} + One(sources.fuel));
      assert {fire.fuel, fire.react, sources.fuel.value} == emit.binds;
      ghost var done := [emit];
      if sources.surface.Some? {
        ok := BurnSurface(pool, state, sources.surface.value, sources);
        if !ok { return; }
        AddedThen(a, b, batch.Recorded(), [emit], Wood(now, sources));
        done := done + Wood(now, sources);
      }
      ghost var c := batch.Recorded();
      ok := Run(pool, Burn, {fire.fuel, fire.react, state.density, state.temperature});
      if ok {
        ghost var burn := Step(Burn, {fire.fuel, fire.react} + {state.density, state.temperature});
        assert {fire.fuel, fire.react, state.density, state.temperature} == burn.binds;
        AddedThen(a, c, batch.Recorded(), done, [burn]);
        assert done + [burn] == Fire(now, sources);
      }
    }

    /** `pre_projection`: forces, then each velocity face carried into a new field. */
    method PreProjection(pool: TexturePool, state: SolverState, sources: Sources) returns (ok: bool)
      requires Ready(pool) && Carries(pool, state) && sources.Binds() <= pool.held
      modifies `retired, batch, pool, state`velocity
      ensures Grows()
      ensures Ready(pool) && Carries(pool, state) && pool.lost == old(pool.lost) && old(pool.held) <= pool.held
      ensures Kept(pool) - Elements(state.Fields()) == old(Kept(pool) - Elements(state.Fields()))
      ensures |state.Fields()| == old(|state.Fields()|)
      ensures ok ==> state.Faces() !! old(pool.held)
      ensures ok && setup.burns ==> state.fire.Some?
      ensures ok ==>
        Added(old(batch.Recorded()), batch.Recorded(), Forces(old(state.Now()), sources, setup)
          + CarryingFaces(setup, old(state.velocity), state.velocity, sources.solids))
      ensures !ok ==> state.velocity == old(state.velocity)
    {
      hide TexturePool.Valid; hide Substep.Sound; hide SolverState.Fields; hide Distinct; hide Added; hide Forces;
      hide CarryingFaces; hide Owned; hide Elements; hide Walls;
      WallsBound(sources);
      ghost var a := batch.Recorded();
      ok := RecordForces(pool, state, sources);
      if !ok { return; }
      ghost var b := batch.Recorded();
      state.Members();
      var x, y, z;
      ok, x, y, z := AdvectFaces(pool, state.velocity, sources.solids);
      if !ok { return; }
      AddedThen(a, b, batch.Recorded(), Forces(state.Now(), sources, setup),
        CarryingFaces(setup, state.velocity, (x, y, z), sources.solids));
      ReplaceVelocity(pool, state, x, y, z);
    }

    /** The three faces carried one after the other; those carried before a
        failure are retired. */
    method AdvectFaces(pool: TexturePool, faces: (Hold, Hold, Hold), solids: Option<Solids>)
      returns (ok: bool, x: Hold, y: Hold, z: Hold)
      requires Ready(pool) && Three(faces) + Walls(solids) <= pool.held
      modifies `retired, batch, pool
      ensures Grows()
      ensures Ready(pool) && pool.lost == old(pool.lost) && old(pool.held) <= pool.held
      ensures ok ==> x != y && y != z && x != z && {x, y, z} !! old(pool.held)
      ensures ok ==>
        Added(old(batch.Recorded()), batch.Recorded(), CarryingFaces(setup, faces, (x, y, z), solids))
      ensures Kept(pool) == if ok then old(Kept(pool)) + {x, y, z} else old(Kept(pool))
    {
      hide TexturePool.Valid; hide Substep.Sound; hide Elements; hide Added; hide Carrying; hide Owned; hide Walls;
      hide Obstacle;
      ObstacleIsWall(solids, FaceX);
      ObstacleIsWall(solids, FaceY);
      ObstacleIsWall(solids, FaceZ);
      var velocity := Three(faces);
      ghost var a := batch.Recorded();
      ok, x := AdvectGrid(pool, FaceX, velocity, faces.0, Obstacle(solids, FaceX));
      y, z := x, x;
      if !ok { return; }
      ghost var b := batch.Recorded();
      ok, y := AdvectGrid(pool, FaceY, velocity, faces.1, Obstacle(solids, FaceY));
      if !ok {
        RetireOne(pool, x);
        return;
      }
      ghost var c := batch.Recorded();
      ok, z := AdvectGrid(pool, FaceZ, velocity, faces.2, Obstacle(solids, FaceZ));
      if !ok {
        RetireOne(pool, x);
        RetireOne(pool, y);
        return;
      }
      ghost var first := Carrying(setup, FaceX, velocity, faces.0, x, Obstacle(solids, FaceX));
      ghost var second := Carrying(setup, FaceY, velocity, faces.1, y, Obstacle(solids, FaceY));
      AddedThen(a, b, c, first, second);
      AddedThen(a, c, batch.Recorded(), first + second,
        Carrying(setup, FaceZ, velocity, faces.2, z, Obstacle(solids, FaceZ)));
    }

    /** The new faces take the old ones' place, which are retired. */
    method ReplaceVelocity(pool: TexturePool, state: SolverState, x: Hold, y: Hold, z: Hold)
      requires Ready(pool) && {x, y, z} <= Kept(pool) && x != y && y != z && x != z
      requires Distinct(state.Fields()) && Elements(state.Fields()) <= Kept(pool) - {x, y, z}
      modifies `retired, state`velocity
      ensures Ready(pool) && Carries(pool, state)
      ensures Kept(pool) - Elements(state.Fields()) == old(Kept(pool) - {x, y, z} - Elements(state.Fields()))
      ensures state.velocity == (x, y, z)
      ensures |state.Fields()| == old(|state.Fields()|)
    {
      hide TexturePool.Valid; hide Substep.Sound; hide SolverState.Fields; hide Distinct;
      var was := state.velocity;
      ghost var kept, fields := Kept(pool) - {x, y, z}, state.Fields();
      SetVelocity(state, x, y, z);
      ThreeReplaced(kept, fields, x, y, z);
      RetireOne(pool, was.0);
      RetireOne(pool, was.1);
      RetireOne(pool, was.2);
    }

    method SetVelocity(state: SolverState, x: Hold, y: Hold, z: Hold)
      modifies state`velocity
      ensures |old(state.Fields())| >= 3 && state.velocity == (x, y, z)
      ensures var fields, was := old(state.Fields()), old(state.velocity);
        fields[0] == was.0 && fields[1] == was.1 && fields[2] == was.2
          && state.Fields() == fields[0 := x][1 := y][2 := z]
    {
      ghost var fields := state.Fields();
      state.velocity := (x, y, z);
      assert state.Fields() == fields[0 := x][1 := y][2 := z];
    }

    /** A carried scalar takes place `i` of the state's list of fields. */
    method RetireReplaced(pool: TexturePool, state: SolverState, ghost fields: seq<Hold>, ghost i: nat, was: Hold,
        h: Hold)
      requires Ready(pool) && h in Kept(pool) && i < |fields| && fields[i] == was && state.Fields() == fields[i := h]
      requires Distinct(fields) && Elements(fields) <= Kept(pool) - {h}
      modifies `retired
      ensures Ready(pool) && Carries(pool, state)
      ensures Kept(pool) - Elements(state.Fields()) == old(Kept(pool)) - {h} - Elements(fields)
    {
      hide TexturePool.Valid; hide Substep.Sound;
      Replaced(Kept(pool) - {h}, fields, i, h);
      assert fields[i] in fields;
      RetireOne(pool, was);
    }

    /** `advect_scalars`: density and temperature, then fuel and react when fire is on. */
    method AdvectScalars(pool: TexturePool, state: SolverState, solids: Option<Solids>) returns (ok: bool)
      requires Ready(pool) && Carries(pool, state) && Walls(solids) <= pool.held
      modifies `retired, batch, pool, state`density, state`temperature, state`fire
      ensures Grows()
      ensures Ready(pool) && Carries(pool, state) && pool.lost == old(pool.lost) && old(pool.held) <= pool.held
      ensures Kept(pool) - Elements(state.Fields()) == old(Kept(pool) - Elements(state.Fields()))
      ensures |state.Fields()| == old(|state.Fields()|)
      ensures if setup.burns then ok ==> old(state.fire).Some? && state.fire.Some? else state.fire == old(state.fire)
      ensures ok ==> state.Now().Scalars(setup.burns) !! old(pool.held)
      ensures ok ==>
        Added(old(batch.Recorded()), batch.Recorded(), CarryingScalars(setup, old(state.Now()), state.Now(), solids))
    {
      hide TexturePool.Valid; hide Substep.Sound; hide SolverState.Fields; hide Distinct; hide Added; hide Owned;
      hide CarryingScalar; hide Elements; hide Walls;
      ghost var before, a := state.Now(), batch.Recorded();
      ok := CarrySmoke(pool, state, solids);
      ghost var b := batch.Recorded();
      if ok && setup.burns {
        ok := CarryFire(pool, state, solids);
        if ok {
          AddedThen(a, b, batch.Recorded(), CarryingSmoke(setup, before, state.Now(), solids),
            CarryingFire(setup, before, state.Now(), solids));
        }
      } else {
        assert CarryingSmoke(setup, before, state.Now(), solids) + []
          == CarryingSmoke(setup, before, state.Now(), solids);
      }
    }

    method CarrySmoke(pool: TexturePool, state: SolverState, solids: Option<Solids>) returns (ok: bool)
      requires Ready(pool) && Carries(pool, state) && Walls(solids) <= pool.held
      modifies `retired, batch, pool, state`density, state`temperature
      ensures Grows()
      ensures Ready(pool) && Carries(pool, state) && pool.lost == old(pool.lost) && old(pool.held) <= pool.held
      ensures Kept(pool) - Elements(state.Fields()) == old(Kept(pool) - Elements(state.Fields()))
      ensures |state.Fields()| == old(|state.Fields()|)
      ensures ok ==> {state.density, state.temperature} !! old(pool.held)
      ensures ok ==>
        Added(old(batch.Recorded()), batch.Recorded(), CarryingSmoke(setup, old(state.Now()), state.Now(), solids))
    {
      hide TexturePool.Valid; hide Substep.Sound; hide SolverState.Fields; hide Distinct; hide Added; hide Owned;
      hide CarryingScalar; hide Elements; hide Walls;
      ghost var before, a := state.Now(), batch.Recorded();
      ok := CarryDensity(pool, state, solids);
      if !ok { return; }
      ghost var b := batch.Recorded();
      ok := CarryTemperature(pool, state, solids);
      if !ok { return; }
      AddedThen(a, b, batch.Recorded(),
        CarryingScalar(setup, Density, state.Faces(), before.density, state.density, solids),
        CarryingScalar(setup, Temperature, state.Faces(), before.temperature, state.temperature, solids));
    }

    method CarryFire(pool: TexturePool, state: SolverState, solids: Option<Solids>) returns (ok: bool)
      requires Ready(pool) && Carries(pool, state) && Walls(solids) <= pool.held
      modifies `retired, batch, pool, state`fire
      ensures Grows()
      ensures Ready(pool) && Carries(pool, state) && pool.lost == old(pool.lost) && old(pool.held) <= pool.held
      ensures Kept(pool) - Elements(state.Fields()) == old(Kept(pool) - Elements(state.Fields()))
      ensures |state.Fields()| == old(|state.Fields()|)
      ensures ok ==> old(state.fire).Some? && state.fire.Some?
      ensures ok ==> {state.fire.value.fuel, state.fire.value.react} !! old(pool.held)
      ensures ok ==>
        Added(old(batch.Recorded()), batch.Recorded(), CarryingFire(setup, old(state.Now()), state.Now(), solids))
    {
      hide TexturePool.Valid; hide Substep.Sound; hide SolverState.Fields; hide Distinct; hide Added; hide Owned;
      hide CarryingScalar; hide Elements; hide Walls;
      if state.fire.None? { return false; }
      ghost var was, a := state.fire.value, batch.Recorded();
      ok := CarryFuel(pool, state, solids);
      if !ok { return; }
      ghost var b := batch.Recorded();
      ok := CarryReact(pool, state, solids);
      if !ok { return; }
      AddedThen(a, b, batch.Recorded(),
        CarryingScalar(setup, Fuel, state.Faces(), was.fuel, state.fire.value.fuel, solids),
        CarryingScalar(setup, React, state.Faces(), was.react, state.fire.value.react, solids));
    }

    method CarryDensity(pool: TexturePool, state: SolverState, solids: Option<Solids>) returns (ok: bool)
      requires Ready(pool) && Carries(pool, state) && Walls(solids) <= pool.held
      modifies `retired, batch, pool, state`density
      ensures Grows()
      ensures Ready(pool) && Carries(pool, state) && pool.lost == old(pool.lost) && old(pool.held) <= pool.held
      ensures Kept(pool) - Elements(state.Fields()) == old(Kept(pool) - Elements(state.Fields()))
      ensures |state.Fields()| == old(|state.Fields()|)
      ensures ok ==> state.density !in old(pool.held)
      ensures ok ==>
        Added(old(batch.Recorded()), batch.Recorded(),
          CarryingScalar(setup, Density, state.Faces(), old(state.density), state.density, solids))
    {
      hide TexturePool.Valid; hide Substep.Sound; hide SolverState.Fields; hide Distinct; hide Added;
      hide CarryingScalar; hide Owned; hide Walls;
      state.Members();
      ghost var fields := state.Fields();
      var was := state.density;
      var h;
      ok, h := AdvectScalar(pool, Density, state.Faces(), was, solids);
      if !ok { return; }
      SetDensity(state, h);
      RetireReplaced(pool, state, fields, 3, was, h);
    }

    method SetDensity(state: SolverState, h: Hold)
      modifies state`density
      ensures 3 < |old(state.Fields())| && state.Fields() == old(state.Fields())[3 := h]
      ensures old(state.Fields()[3]) == old(state.density)
      ensures state.density == h
    {
      ghost var fields := state.Fields();
      state.density := h;
      assert state.Fields() == fields[3 := h];
    }

    method CarryTemperature(pool: TexturePool, state: SolverState, solids: Option<Solids>) returns (ok: bool)
      requires Ready(pool) && Carries(pool, state) && Walls(solids) <= pool.held
      modifies `retired, batch, pool, state`temperature
      ensures Grows()
      ensures Ready(pool) && Carries(pool, state) && pool.lost == old(pool.lost) && old(pool.held) <= pool.held
      ensures Kept(pool) - Elements(state.Fields()) == old(Kept(pool) - Elements(state.Fields()))
      ensures |state.Fields()| == old(|state.Fields()|)
      ensures ok ==> state.temperature !in old(pool.held)
      ensures ok ==>
        Added(old(batch.Recorded()), batch.Recorded(),
          CarryingScalar(setup, Temperature, state.Faces(), old(state.temperature), state.temperature, solids))
    {
      hide TexturePool.Valid; hide Substep.Sound; hide SolverState.Fields; hide Distinct; hide Added;
      hide CarryingScalar; hide Owned; hide Walls;
      state.Members();
      ghost var fields := state.Fields();
      var was := state.temperature;
      var h;
      ok, h := AdvectScalar(pool, Temperature, state.Faces(), was, solids);
      if !ok { return; }
      SetTemperature(state, h);
      RetireReplaced(pool, state, fields, 4, was, h);
    }

    method SetTemperature(state: SolverState, h: Hold)
      modifies state`temperature
      ensures 4 < |old(state.Fields())| && state.Fields() == old(state.Fields())[4 := h]
      ensures old(state.Fields()[4]) == old(state.temperature)
      ensures state.temperature == h
    {
      ghost var fields := state.Fields();
      state.temperature := h;
      assert state.Fields() == fields[4 := h];
    }

    method CarryFuel(pool: TexturePool, state: SolverState, solids: Option<Solids>) returns (ok: bool)
      requires Ready(pool) && Carries(pool, state) && Walls(solids) <= pool.held && state.fire.Some?
      modifies `retired, batch, pool, state`fire
      ensures Grows()
      ensures Ready(pool) && Carries(pool, state) && pool.lost == old(pool.lost) && old(pool.held) <= pool.held
      ensures Kept(pool) - Elements(state.Fields()) == old(Kept(pool) - Elements(state.Fields()))
      ensures |state.Fields()| == old(|state.Fields()|) && state.fire.Some?
      ensures state.fire.value.react == old(state.fire.value.react)
      ensures ok ==> state.fire.value.fuel !in old(pool.held)
      ensures ok ==>
        Added(old(batch.Recorded()), batch.Recorded(),
          CarryingScalar(setup, Fuel, state.Faces(), old(state.fire.value.fuel), state.fire.value.fuel, solids))
    {
      hide TexturePool.Valid; hide Substep.Sound; hide SolverState.Fields; hide Distinct; hide Added;
      hide CarryingScalar; hide Owned; hide Walls;
      state.Members();
      ghost var fields := state.Fields();
      var was := state.fire.value.fuel;
      var h;
      ok, h := AdvectScalar(pool, Fuel, state.Faces(), was, solids);
      if !ok { return; }
      SetFuel(state, h);
      RetireReplaced(pool, state, fields, 6, was, h);
    }

    method SetFuel(state: SolverState, h: Hold)
      requires state.fire.Some?
      modifies state`fire
      ensures 6 < |old(state.Fields())| && state.Fields() == old(state.Fields())[6 := h]
      ensures old(state.Fields()[6]) == old(state.fire.value.fuel) && state.fire.Some?
      ensures state.fire.value.fuel == h && state.fire.value.react == old(state.fire.value.react)
    {
      ghost var fields := state.Fields();
      state.fire := Some(state.fire.value.(fuel := h));
      assert state.Fields() == fields[6 := h];
    }

    method CarryReact(pool: TexturePool, state: SolverState, solids: Option<Solids>) returns (ok: bool)
      requires Ready(pool) && Carries(pool, state) && Walls(solids) <= pool.held && state.fire.Some?
      modifies `retired, batch, pool, state`fire
      ensures Grows()
      ensures Ready(pool) && Carries(pool, state) && pool.lost == old(pool.lost) && old(pool.held) <= pool.held
      ensures Kept(pool) - Elements(state.Fields()) == old(Kept(pool) - Elements(state.Fields()))
      ensures |state.Fields()| == old(|state.Fields()|) && state.fire.Some?
      ensures ok ==> state.fire.value.react !in old(pool.held)
      ensures ok ==>
        Added(old(batch.Recorded()), batch.Recorded(),
          CarryingScalar(setup, React, state.Faces(), old(state.fire.value.react), state.fire.value.react, solids))
      ensures state.fire.value.fuel == old(state.fire.value.fuel)
    {
      hide TexturePool.Valid; hide Substep.Sound; hide SolverState.Fields; hide Distinct; hide Added;
      hide CarryingScalar; hide Owned; hide Walls;
      state.Members();
      ghost var fields := state.Fields();
      var was := state.fire.value.react;
      var h;
      ok, h := AdvectScalar(pool, React, state.Faces(), was, solids);
      if !ok { return; }
      SetReact(state, h);
      RetireReplaced(pool, state, fields, 7, was, h);
    }

    method SetReact(state: SolverState, h: Hold)
      requires state.fire.Some?
      modifies state`fire
      ensures 7 < |old(state.Fields())| && state.Fields() == old(state.Fields())[7 := h]
      ensures old(state.Fields()[7]) == old(state.fire.value.react) && state.fire.Some?
      ensures state.fire.value.react == h && state.fire.value.fuel == old(state.fire.value.fuel)
    {
      ghost var fields := state.Fields();
      state.fire := Some(state.fire.value.(react := h));
      assert state.Fields() == fields[7 := h];
    }

    // ------------------------------------------------------------ the ends

    /** `submit`: run everything recorded, then return the replaced fields. */
    method Submit(pool: TexturePool) returns (ok: bool)
      requires Ready(pool)
      modifies this, batch, pool
      ensures pool.Valid() && pool.held == old(Kept(pool)) && pool.lost == old(pool.lost)
        && pool.acquisitions == old(pool.acquisitions)
      ensures batch.queued == old(batch.Recorded()) && batch.dispatches == []
      ensures Orderly(batch.queued, pool.held, pool.acquisitions)
    {
      hide TexturePool.Valid; hide Orderly;
      ok := batch.Flush();
      assert batch.Recorded() == batch.queued;
      Empty(pool);
    }

    /** `abandon`: what is still recorded never runs. */
    method Abandon(pool: TexturePool)
      requires Sound(pool)
      modifies this, batch, pool
      ensures pool.Valid() && pool.held == old(Kept(pool)) && pool.lost == old(pool.lost)
        && pool.acquisitions == old(pool.acquisitions)
      ensures batch.queued == old(batch.queued) && batch.dispatches == []
      ensures Orderly(batch.queued, pool.held, pool.acquisitions)
    {
      hide TexturePool.Valid; hide Orderly;
      OrderlyPrefix(batch.queued, batch.dispatches, pool.held, pool.acquisitions);
      batch.dispatches := [];
      assert batch.Recorded() == batch.queued;
      Empty(pool);
    }

    method Empty(pool: TexturePool)
      requires Sound(pool)
      modifies `retired, pool`free, pool`held
      ensures pool.Valid() && pool.held == old(Kept(pool)) && Orderly(batch.Recorded(), pool.held, pool.acquisitions)
    {
      ghost var held := pool.held;
      pool.ReleaseAll(retired);
      ReleaseKeeps(batch.Recorded(), held, pool.held, pool.acquisitions);
      retired := [];
    }
  }

  /** The state's fields are live, each its own, and none is lent by the inputs. */
  ghost predicate Holds(pool: TexturePool, state: SolverState, sources: Sources)
    reads pool, state
  {
    && pool.Valid()
    && Distinct(state.Fields()) && Elements(state.Fields()) <= pool.held
    && sources.Binds() <= pool.held - Elements(state.Fields())
  }

  /** `substep`: the stages, then submit, or abandon at the first error. The
      queue only grows and stays in tenancy order on every path, and whatever was
      acquired is back in the pool (or dropped, when it failed) but for the
      state's fields. On success everything recorded has reached the queue, and
      it is exactly one whole substep from the state before to the state now. */
  method RunSubstep(pool: TexturePool, state: SolverState, sources: Sources, setup: Setup, ghost queue: seq<Work>)
    returns (ok: bool, ghost queue': seq<Work>, ghost recorded: seq<Work>)
    requires Holds(pool, state, sources) && Orderly(queue, pool.held, pool.acquisitions)
    modifies pool, state
    ensures Holds(pool, state, sources) && Orderly(queue', pool.held, pool.acquisitions)
    ensures pool.held - Elements(state.Fields()) == old(pool.held - Elements(state.Fields()))
    ensures |state.Fields()| == old(|state.Fields()|)
    ensures queue <= queue' <= queue + recorded
    ensures ok ==> pool.lost == old(pool.lost)
    ensures ok ==> queue' == queue + recorded && AllWritten(state.Now(), setup.burns, old(pool.held), queue')
    ensures ok ==> Advances(setup, sources, old(state.Now()), state.Now(), old(pool.held), recorded)
  {
    hide TexturePool.Valid; hide Orderly; hide Distinct; hide SolverState.Fields; hide Sources.Binds; hide Bound;
    hide AllWritten; hide Elements; hide Owned; hide Advances;
    WallsBound(sources);
    var batch := new ComputeBatch(queue);
    var step := new Substep(batch, setup);
    assert batch.Recorded() == queue;
    Fresh(step, pool);
    ok := Stages(step, pool, state, sources);
    recorded := batch.Recorded()[|queue|..];
    if ok {
      AdvancesWrites(setup, sources, old(state.Now()), state.Now(), old(pool.held), queue, recorded);
      ok := step.Submit(pool);
    } else {
      step.Abandon(pool);
    }
    queue' := batch.queued;
  }

  /** The stages, up to the first that fails. */
  method Stages(step: Substep, pool: TexturePool, state: SolverState, sources: Sources)
    returns (ok: bool)
    requires step.Ready(pool) && step.Carries(pool, state) && sources.Binds() <= pool.held
    modifies step`retired, step.batch, pool, state
    ensures step.Grows()
    ensures step.Sound(pool) && step.Carries(pool, state) && old(pool.held) <= pool.held
    ensures step.Kept(pool) - Elements(state.Fields()) == old(step.Kept(pool) - Elements(state.Fields()))
    ensures |state.Fields()| == old(|state.Fields()|)
    ensures ok ==> step.Ready(pool) && pool.lost == old(pool.lost)
    ensures ok ==>
      Advances(step.setup, sources, old(state.Now()), state.Now(), old(pool.held),
        step.batch.Recorded()[|old(step.batch.Recorded())|..])
  {
    hide TexturePool.Valid; hide Orderly; hide Distinct; hide SolverState.Fields; hide Sources.Binds; hide Bound;
    hide Substep.Sound; hide Substep.Kept; hide Substep.Carries; hide Elements; hide Walls; hide Owned; hide Added;
    hide Forces; hide CarryingFaces; hide CarryingScalars; hide Projecting; hide Advances;
    WallsBound(sources);
    ghost var before, held, a := state.Now(), pool.held, step.batch.Recorded();
    ok := step.PreProjection(pool, state, sources);
    if !ok { return; }
    ghost var b, between := step.batch.Recorded(), state.Now();
    ghost var div;
    ok, div := LastStages(step, pool, state, sources);
    if !ok { return; }
    SameScalars(step.setup, before, between, state.Now(), sources.solids);
    WholeSubstep(step.setup, sources, before, state.Now(), held, a, b, step.batch.Recorded(), div);
  }

  /** The projection and the scalars' advection, which leave the velocity's
      fields in place. */
  method LastStages(step: Substep, pool: TexturePool, state: SolverState, sources: Sources)
    returns (ok: bool, ghost div: Hold)
    requires step.Ready(pool) && step.Carries(pool, state) && sources.Binds() <= pool.held
    modifies step`retired, step.batch, pool, state`density, state`temperature, state`fire
    ensures step.Grows()
    ensures step.Sound(pool) && step.Carries(pool, state) && old(pool.held) <= pool.held
    ensures step.Kept(pool) - Elements(state.Fields()) == old(step.Kept(pool) - Elements(state.Fields()))
    ensures |state.Fields()| == old(|state.Fields()|)
    ensures ok ==> step.Ready(pool) && pool.lost == old(pool.lost) && div !in old(pool.held)
    ensures if step.setup.burns then ok ==> old(state.fire).Some? && state.fire.Some?
            else state.fire == old(state.fire)
    ensures ok ==> state.Now().Scalars(step.setup.burns) !! old(pool.held)
    ensures ok ==>
      Added(old(step.batch.Recorded()), step.batch.Recorded(),
        Projecting(step.setup, state.Faces(), state.pressure, div, sources.solids)
        + CarryingScalars(step.setup, old(state.Now()), state.Now(), sources.solids))
  {
    hide TexturePool.Valid; hide Orderly; hide Distinct; hide SolverState.Fields; hide Sources.Binds; hide Bound;
    hide Substep.Sound; hide Elements; hide Walls; hide Owned; hide Added; hide Projecting; hide CarryingScalars;
    WallsBound(sources);
    ghost var before, a := state.Now(), step.batch.Recorded();
    ok, div := step.Project(pool, state, sources.solids);
    ghost var b := step.batch.Recorded();
    if ok { ok := step.AdvectScalars(pool, state, sources.solids); }
    if ok {
      AddedThen(a, b, step.batch.Recorded(),
        Projecting(step.setup, state.Faces(), state.pressure, div, sources.solids),
        CarryingScalars(step.setup, before, state.Now(), sources.solids));
    }
  }

  lemma Fresh(step: Substep, pool: TexturePool)
    requires pool.Valid() && step.retired == [] && step.batch.dispatches == []
    requires Orderly(step.batch.Recorded(), pool.held, pool.acquisitions)
    ensures step.Ready(pool) && step.Kept(pool) == pool.held
  {
  }

  /** Where a frame stands between two substeps. */
  datatype Instant = Instant(state: Moment, held: set<Hold>, queue: seq<Work>)

  /** From each instant to the next, the queue gets exactly one whole substep. */
  ghost predicate Runs(setup: Setup, sources: Sources, trace: seq<Instant>) {
    forall i :: 0 <= i < |trace| - 1 ==> OneSubstep(setup, sources, trace[i], trace[i + 1])
  }

  ghost predicate OneSubstep(setup: Setup, sources: Sources, a: Instant, b: Instant) {
    && a.queue <= b.queue
    && Advances(setup, sources, a.state, b.state, a.held, b.queue[|a.queue|..])
  }

  /** `step_frame`: `count` substeps, or those before the first that fails. */
  method RunFrame(pool: TexturePool, state: SolverState, sources: Sources, setup: Setup, count: nat,
      ghost queue: seq<Work>)
    returns (ok: bool, ghost queue': seq<Work>, ghost trace: seq<Instant>)
    requires Holds(pool, state, sources) && Orderly(queue, pool.held, pool.acquisitions)
    modifies pool, state
    ensures Holds(pool, state, sources) && Orderly(queue', pool.held, pool.acquisitions)
    ensures pool.held - Elements(state.Fields()) == old(pool.held - Elements(state.Fields()))
    ensures |state.Fields()| == old(|state.Fields()|)
    ensures queue <= queue'
    ensures ok ==> pool.lost == old(pool.lost) && |pool.held| == old(|pool.held|)
    ensures ok && count > 0 ==> exists held :: AllWritten(state.Now(), setup.burns, held, queue')
    ensures |trace| > 0 && trace[0] == Instant(old(state.Now()), old(pool.held), queue) && Runs(setup, sources, trace)
    ensures ok ==> |trace| == count + 1 && trace[count] == Instant(state.Now(), pool.held, queue')
    ensures !ok ==> |trace| <= count && trace[|trace| - 1].queue <= queue'
  {
    hide TexturePool.Valid; hide Orderly; hide SolverState.Fields; hide Sources.Binds; hide Distinct;
    hide AllWritten; hide Advances;
    ok, queue' := true, queue;
    trace := [Instant(state.Now(), pool.held, queue)];
    var done := 0;
    while ok && done < count
      invariant Holds(pool, state, sources) && Orderly(queue', pool.held, pool.acquisitions)
      invariant pool.held - Elements(state.Fields()) == old(pool.held - Elements(state.Fields()))
      invariant |state.Fields()| == old(|state.Fields()|) && queue <= queue' && done <= count
      invariant ok ==> pool.lost == old(pool.lost)
      invariant ok && done > 0 ==> exists held :: AllWritten(state.Now(), setup.burns, held, queue')
      invariant |trace| > 0 && trace[0] == Instant(old(state.Now()), old(pool.held), queue)
      invariant Runs(setup, sources, trace)
      invariant if ok then |trace| == done + 1 && trace[done] == Instant(state.Now(), pool.held, queue')
                else |trace| == done && trace[|trace| - 1].queue <= queue'
      decreases ok, count - done
    {
      ghost var recorded;
      ok, queue', recorded := RunSubstep(pool, state, sources, setup, queue');
      if ok { trace := trace + [Instant(state.Now(), pool.held, queue')]; }
      done := done + 1;
    }
    CountKept(old(pool.held), old(state.Fields()), pool.held, state.Fields());
  }

  /** As many live fields as before, when the state has as many. */
  lemma CountKept(held: set<Hold>, fields: seq<Hold>, held': set<Hold>, fields': seq<Hold>)
    requires Distinct(fields) && Distinct(fields') && |fields| == |fields'|
    requires Elements(fields) <= held && Elements(fields') <= held'
      && held - Elements(fields) == held' - Elements(fields')
    ensures |held| == |held'|
  {
    CountDistinct(fields);
    CountDistinct(fields');
    assert held == (held - Elements(fields)) + Elements(fields);
    assert held' == (held' - Elements(fields')) + Elements(fields');
  }

  lemma {:induction false} CountDistinct(hs: seq<Hold>)
    requires Distinct(hs)
    ensures |Elements(hs)| == |hs|
  {
    if hs != [] {
      var rest := hs[..|hs| - 1];
      CountDistinct(rest);
      assert Elements(hs) == Elements(rest) + {hs[|hs| - 1]};
    } else {
      assert Elements(hs) == {};
    }
  }

  /** The fields one level of a hierarchy holds. */
  function FieldsOf(solids: bool, l: nat, depth: nat): nat {
    (if l > 0 then 2 else 0) + (if l + 1 < depth then 1 else 0)
    + if solids then (if l > 0 then 2 else 0) + (if l + 1 < depth then 1 else 0) else 0
  }

  function LevelFields(solids: bool, l: nat, depth: nat): nat {
    if l == 0 then 0 else LevelFields(solids, l - 1, depth) + FieldsOf(solids, l - 1, depth)
  }
}
