/** What a substep has to record, pass by pass (elements-ember `solver.rs`):
    which passes run, in which order, and which fields each of them binds. */
module Schedules {
  import opened Values
  import opened Tenancy

  datatype Solids = Solids(mask: Hold, faces: (Hold, Hold, Hold))

  datatype Emission = Emission(weight: Hold, velocity: (Hold, Hold, Hold))

  /** The fields a frame's inputs lend to every substep. */
  datatype Sources = Sources(density: Hold, temperature: Hold, fuel: Option<Hold>, surface: Option<Hold>,
                             emission: Option<Emission>, solids: Option<Solids>)
  {
    function Binds(): set<Hold> {
      {density, temperature} + One(fuel) + One(surface) + Walls(solids)
      + if emission.Some? then {emission.value.weight} + Three(emission.value.velocity) else {}
    }
  }

  function One(h: Option<Hold>): set<Hold> {
    if h.Some? then {h.value} else {}
  }

  function Three(v: (Hold, Hold, Hold)): set<Hold> {
    {v.0, v.1, v.2}
  }

  function Walls(solids: Option<Solids>): set<Hold> {
    One(Mask(solids)) + if solids.Some? then Three(solids.value.faces) else {}
  }

  function Mask(solids: Option<Solids>): Option<Hold> {
    if solids.Some? then Some(solids.value.mask) else None
  }

  /** What carrying a grid reads of the solids: the mask, and for a face the
      collider's velocity there. */
  function Obstacle(solids: Option<Solids>, what: Carried): set<Hold> {
    One(Mask(solids))
    + if solids.None? then {} else
        match what
        case FaceX => {solids.value.faces.0}
        case FaceY => {solids.value.faces.1}
        case FaceZ => {solids.value.faces.2}
        case _ => {}
  }

  datatype PressureSolve = GaussSeidel(iterations: nat) | Multigrid(count: nat) | Mgpcg(count: nat)

  /** What a substep is set up with: its stages' switches, its solve, how many
      levels a hierarchy has and how many sweeps one submission takes. */
  datatype Setup = Setup(maccormack: bool, vorticity: bool, wind: bool, conserveMass: bool, burns: bool, closed: bool,
                         pressure: PressureSolve, depth: nat, perSubmit: nat)

  datatype FireState = FireState(fuel: Hold, react: Hold)

  /** The fields a solver's state holds at one moment. */
  datatype Moment = Moment(velocity: (Hold, Hold, Hold), density: Hold, temperature: Hold, pressure: Hold,
                           fire: Option<FireState>, surface: Option<Hold>)
  {
    function Faces(): set<Hold> {
      Three(velocity)
    }

    /** The scalars a substep carries, fire's among them when it burns. */
    function Scalars(burns: bool): set<Hold> {
      {density, temperature} + if burns && fire.Some? then {fire.value.fuel, fire.value.react} else {}
    }
  }

  /** One pass of a schedule, and fields its dispatches bind between them. */
  datatype Step = Step(pass: Pass, binds: set<Hold>)

  ghost predicate IsRun(work: seq<Work>, s: Step) {
    && (forall i :: 0 <= i < |work| ==> work[i].pass == s.pass)
    && (forall h <- s.binds :: Bound(work, h))
  }

  /** `work` is one run of dispatches for each pass in turn, and nothing else. */
  ghost predicate Follows(work: seq<Work>, plan: seq<Step>)
    decreases |plan|
  {
    if plan == [] then work == [] else
      exists m: nat :: m <= |work| && Follows(work[..m], plan[..|plan| - 1]) && IsRun(work[m..], plan[|plan| - 1])
  }

  /** What was recorded since `before` follows `plan`. */
  ghost predicate Added(before: seq<Work>, after: seq<Work>, plan: seq<Step>) {
    before <= after && Follows(after[|before|..], plan)
  }

  // ------------------------------------------------------------ the schedule

  function Forces(s: Moment, sources: Sources, setup: Setup): seq<Step> {
    Emitting(s, sources, setup) + Moving(s, sources, setup)
  }

  function Emitting(s: Moment, sources: Sources, setup: Setup): seq<Step> {
    [Step(Emit(Density), {s.density, sources.density}), Step(Emit(Temperature), {s.temperature, sources.temperature})]
    + if setup.burns then Fire(s, sources) else []
  }

  function Fire(s: Moment, sources: Sources): seq<Step> {
    if s.fire.None? then [] else
    var fire := {s.fire.value.fuel, s.fire.value.react};
    [Step(EmitFuel, fire + One(sources.fuel))]
    + (if sources.surface.Some? then Wood(s, sources) else [])
    + [Step(Burn, fire + {s.density, s.temperature})]
  }

  function Wood(s: Moment, sources: Sources): seq<Step> {
    if s.fire.None? then [] else
    [Step(Ignite, One(sources.surface) + {s.temperature} + One(s.surface) + One(Mask(sources.solids))),
     Step(Gather, One(Mask(sources.solids))), Step(EmitWood, {s.fire.value.fuel, s.fire.value.react})]
  }

  function Moving(s: Moment, sources: Sources, setup: Setup): seq<Step> {
    Blending(s, sources) + [Lifting(s, sources)] + Blowing(s, sources, setup) + Swirling(s, sources, setup)
  }

  function Blending(s: Moment, sources: Sources): seq<Step> {
    if sources.emission.None? then [] else
    [Step(Blend, s.Faces() + {sources.emission.value.weight} + Three(sources.emission.value.velocity)
       + One(Mask(sources.solids)))]
  }

  function Lifting(s: Moment, sources: Sources): Step {
    Step(Buoyancy, {s.velocity.2, s.density, s.temperature} + One(Mask(sources.solids)))
  }

  function Blowing(s: Moment, sources: Sources, setup: Setup): seq<Step> {
    if setup.wind then [Step(Wind, s.Faces() + One(Mask(sources.solids)))] else []
  }

  function Swirling(s: Moment, sources: Sources, setup: Setup): seq<Step> {
    var mask := One(Mask(sources.solids));
    var fuel := if setup.burns && s.fire.Some? then {s.fire.value.fuel} else {};
    if setup.vorticity then [Step(Curl, s.Faces() + mask), Step(Confine, s.Faces() + fuel + mask)] else []
  }

  /** How one grid is carried: `src` read, `dst` written, both along `velocity`. */
  function Carrying(setup: Setup, what: Carried, velocity: set<Hold>, src: Hold, dst: Hold, walls: set<Hold>): seq<Step>
  {
    if setup.maccormack then ThreePasses(what, velocity, src, dst, walls)
    else [Step(Carry(what), velocity + {src, dst} + walls)]
  }

  function ThreePasses(what: Carried, velocity: set<Hold>, src: Hold, dst: Hold, walls: set<Hold>): seq<Step> {
    [Step(Forward(what), velocity + {src} + walls), Step(Backward(what), velocity + walls),
     Step(Carry(what), velocity + {src, dst} + walls)]
  }

  function CarryingScalar(setup: Setup, what: Carried, velocity: set<Hold>, src: Hold, dst: Hold,
      solids: Option<Solids>): seq<Step>
  {
    var carry := Carrying(setup, what, velocity, src, dst, Obstacle(solids, what));
    if setup.conserveMass then
      [Step(Measure(what), velocity + {src} + One(Mask(solids)))] + carry + [Step(Correct(what), {dst})]
    else carry
  }

  /** Each face carried through the velocity as it was. */
  function CarryingFaces(setup: Setup, was: (Hold, Hold, Hold), now: (Hold, Hold, Hold), solids: Option<Solids>)
    : seq<Step>
  {
    Carrying(setup, FaceX, Three(was), was.0, now.0, Obstacle(solids, FaceX))
    + Carrying(setup, FaceY, Three(was), was.1, now.1, Obstacle(solids, FaceY))
    + Carrying(setup, FaceZ, Three(was), was.2, now.2, Obstacle(solids, FaceZ))
  }

  function Projecting(setup: Setup, faces: set<Hold>, p: Hold, div: Hold, solids: Option<Solids>): seq<Step> {
    [Step(Divergence, faces + {div})] + Solving(setup, p, div, solids) + [Step(Gradient, faces + {p} + Walls(solids))]
  }

  function Solving(setup: Setup, p: Hold, div: Hold, solids: Option<Solids>): seq<Step> {
    match setup.pressure
    case GaussSeidel(n) => Sweeping(n, p, div) + Mean(setup.closed, p)
    case Multigrid(n) => [BuildingLevels(setup, solids)] + (Sweeping(n, p, div) + Mean(setup.closed, p))
    case Mgpcg(n) => [BuildingLevels(setup, solids)] + (Iterating(n, p, div) + Mean(setup.closed && n > 0, p))
  }

  /** In a closed domain pressure is defined up to a constant. */
  function Mean(closed: bool, p: Hold): seq<Step> {
    if closed then [Step(RemoveMean, {p})] else []
  }

  /** With solids, setting the levels up reads the mask. */
  function BuildingLevels(setup: Setup, solids: Option<Solids>): Step {
    LevelsStep(setup.depth, Mask(solids))
  }

  function LevelsStep(built: nat, mask: Option<Hold>): Step {
    Step(Levels, if built > 0 then One(mask) else {})
  }

  /** Every sweep, or every cycle, works on the pressure and the divergence. */
  function Sweeping(n: nat, p: Hold, div: Hold): seq<Step> {
    seq(n, i requires 0 <= i < n => Step(Solve(i), {p, div}))
  }

  /** Conjugate gradients read the divergence once, before the first iteration. */
  function Iterating(n: nat, p: Hold, div: Hold): seq<Step> {
    seq(n, i requires 0 <= i < n => Step(Solve(i), if i == 0 then {p, div} else {p}))
  }

  /** The scalars carried through the projected velocity, fire's last. */
  function CarryingScalars(setup: Setup, before: Moment, after: Moment, solids: Option<Solids>): seq<Step> {
    CarryingSmoke(setup, before, after, solids)
    + if setup.burns then CarryingFire(setup, before, after, solids) else []
  }

  function CarryingSmoke(setup: Setup, before: Moment, after: Moment, solids: Option<Solids>): seq<Step> {
    CarryingScalar(setup, Density, after.Faces(), before.density, after.density, solids)
    + CarryingScalar(setup, Temperature, after.Faces(), before.temperature, after.temperature, solids)
  }

  function CarryingFire(setup: Setup, before: Moment, after: Moment, solids: Option<Solids>): seq<Step> {
    if before.fire.None? || after.fire.None? then [] else
    CarryingScalar(setup, Fuel, after.Faces(), before.fire.value.fuel, after.fire.value.fuel, solids)
    + CarryingScalar(setup, React, after.Faces(), before.fire.value.react, after.fire.value.react, solids)
  }

  /** A whole substep from one moment to the next: forces, the faces carried,
      the projection, the scalars carried. */
  function Whole(setup: Setup, sources: Sources, before: Moment, after: Moment, div: Hold): seq<Step> {
    (Forces(before, sources, setup) + CarryingFaces(setup, before.velocity, after.velocity, sources.solids))
    + (Projecting(setup, after.Faces(), before.pressure, div, sources.solids)
       + CarryingScalars(setup, before, after, sources.solids))
  }

  /** `work` takes a state from `before` to `after`: it is a whole substep's,
      it fills fields nobody held, and it leaves pressure and surface in place. */
  ghost predicate Advances(setup: Setup, sources: Sources, before: Moment, after: Moment, held: set<Hold>,
      work: seq<Work>)
  {
    && (exists div :: div !in held && Follows(work, Whole(setup, sources, before, after, div)))
    && (setup.burns ==> before.fire.Some? && after.fire.Some?) && (!setup.burns ==> after.fire == before.fire)
    && after.pressure == before.pressure && after.surface == before.surface
    && (forall h <- after.Faces() + after.Scalars(setup.burns) :: h !in held)
  }

  // ------------------------------------------------------------ following it

  lemma NothingAdded(log: seq<Work>)
    ensures Added(log, log, [])
  {
  }

  lemma OneRun(before: seq<Work>, after: seq<Work>, s: Step)
    requires before <= after && IsRun(after[|before|..], s)
    ensures Added(before, after, [s])
  {
    var work := after[|before|..];
    assert work[..0] == [] && work[0..] == work;
    assert Follows(work[..0], [s][..0]);
  }

  lemma OneDispatch(before: seq<Work>, w: Work, s: Step)
    requires w.pass == s.pass && s.binds <= w.binds
    ensures Added(before, before + [w], [s])
  {
    assert (before + [w])[|before|..] == [w];
    forall h <- s.binds ensures Bound([w], h) { assert h in [w][0].binds; }
    OneRun(before, before + [w], s);
  }

  lemma OneMore(work: seq<Work>, pass: Pass, covered: set<Hold>, binds: set<Hold>)
    requires IsRun(work, Step(pass, covered))
    ensures IsRun(work + [Work(pass, binds)], Step(pass, covered + binds))
  {
    var next := work + [Work(pass, binds)];
    forall h <- covered + binds ensures Bound(next, h) {
      if h in covered { BoundStays(work, next, h); } else { BoundLast(work, Work(pass, binds), h); }
    }
  }

  lemma NoLevels(log: seq<Work>, mask: Option<Hold>)
    ensures Added(log, log, [LevelsStep(0, mask)])
  {
    OneRun(log, log, LevelsStep(0, mask));
  }

  lemma WallsBound(sources: Sources)
    ensures Walls(sources.solids) <= sources.Binds()
  {
  }

  lemma NoSweeps(p: Hold, div: Hold)
    ensures Sweeping(0, p, div) == Iterating(0, p, div) == []
  {
  }

  lemma OneSweepMore(n: nat, p: Hold, div: Hold)
    ensures Sweeping(n + 1, p, div) == Sweeping(n, p, div) + [Step(Solve(n), {p, div})]
    ensures Iterating(n + 1, p, div) == Iterating(n, p, div) + [Step(Solve(n), if n == 0 then {p, div} else {p})]
  {
  }

  lemma ObstacleIsWall(solids: Option<Solids>, what: Carried)
    ensures One(Mask(solids)) <= Obstacle(solids, what) <= Walls(solids)
  {
  }

  lemma RunOf(before: seq<Work>, after: seq<Work>, s: Step)
    requires Added(before, after, [s])
    ensures IsRun(after[|before|..], s)
  {
    var work := after[|before|..];
    var m: nat :| m <= |work| && Follows(work[..m], [s][..0]) && IsRun(work[m..], s);
    assert work[m..] == work;
  }

  lemma {:induction false} FollowsConcat(a: seq<Work>, p: seq<Step>, b: seq<Work>, q: seq<Step>)
    requires Follows(a, p) && Follows(b, q)
    ensures Follows(a + b, p + q)
    decreases |q|
  {
    if q == [] {
      assert a + b == a && p + q == p;
    } else {
      var k := |q| - 1;
      var m: nat :| m <= |b| && Follows(b[..m], q[..k]) && IsRun(b[m..], q[k]);
      FollowsConcat(a, p, b[..m], q[..k]);
      var n := |a| + m;
      assert (a + b)[..n] == a + b[..m] && (a + b)[n..] == b[m..];
      assert (p + q)[..|p + q| - 1] == p + q[..k];
      assert Follows((a + b)[..n], (p + q)[..|p + q| - 1]);
    }
  }

  lemma AddedThen(a: seq<Work>, b: seq<Work>, c: seq<Work>, p: seq<Step>, q: seq<Step>)
    requires Added(a, b, p) && Added(b, c, q)
    ensures Added(a, c, p + q)
  {
    FollowsConcat(b[|a|..], p, c[|b|..], q);
    assert b[|a|..] + c[|b|..] == c[|a|..];
  }

  /** Two runs of one pass are a run of it. */
  lemma RunsJoin(a: seq<Work>, b: seq<Work>, c: seq<Work>, s: Step, t: Step, binds: set<Hold>)
    requires Added(a, b, [s]) && Added(b, c, [t]) && s.pass == t.pass && binds <= s.binds + t.binds
    ensures Added(a, c, [Step(s.pass, binds)])
  {
    RunOf(a, b, s);
    RunOf(b, c, t);
    var first, second, work := b[|a|..], c[|b|..], c[|a|..];
    assert work == first + second;
    forall h <- binds ensures Bound(work, h) {
      if h in s.binds { BoundStays(first, work, h); } else { BoundAfter(first, second, h); }
    }
    OneRun(a, c, Step(s.pass, binds));
  }

  lemma BoundAfter(a: seq<Work>, b: seq<Work>, h: Hold)
    requires Bound(b, h)
    ensures Bound(a + b, h)
  {
    var i :| 0 <= i < |b| && h in b[i].binds;
    assert (a + b)[|a| + i] == b[i];
  }

  /** A field that a pass of the schedule binds is bound. */
  lemma {:induction false} FollowedBinds(work: seq<Work>, plan: seq<Step>, i: nat, h: Hold)
    requires Follows(work, plan) && i < |plan| && h in plan[i].binds
    ensures exists k :: 0 <= k < |work| && work[k].pass == plan[i].pass && h in work[k].binds
    decreases |plan|
  {
    var last := |plan| - 1;
    var m: nat :| m <= |work| && Follows(work[..m], plan[..last]) && IsRun(work[m..], plan[last]);
    if i < last {
      FollowedBinds(work[..m], plan[..last], i, h);
      var k :| 0 <= k < m && work[..m][k].pass == plan[i].pass && h in work[..m][k].binds;
      assert work[k] == work[..m][k];
    } else {
      var k :| 0 <= k < |work[m..]| && h in work[m..][k].binds;
      assert work[m + k] == work[m..][k];
    }
  }

  /** The two halves of a substep. */
  lemma WholeSubstep(setup: Setup, sources: Sources, before: Moment, after: Moment, held: set<Hold>,
      a: seq<Work>, b: seq<Work>, c: seq<Work>, div: Hold)
    requires Added(a, b, Forces(before, sources, setup)
      + CarryingFaces(setup, before.velocity, after.velocity, sources.solids))
    requires Added(b, c, Projecting(setup, after.Faces(), after.pressure, div, sources.solids)
      + CarryingScalars(setup, before, after, sources.solids))
    requires div !in held && after.pressure == before.pressure && after.surface == before.surface
    requires if setup.burns then before.fire.Some? && after.fire.Some? else after.fire == before.fire
    requires forall h <- after.Faces() + after.Scalars(setup.burns) :: h !in held
    ensures Advances(setup, sources, before, after, held, c[|a|..])
  {
    hide Added; hide Forces; hide CarryingFaces; hide Projecting; hide CarryingScalars; hide Moment.Faces;
    AddedThen(a, b, c,
      Forces(before, sources, setup) + CarryingFaces(setup, before.velocity, after.velocity, sources.solids),
      Projecting(setup, after.Faces(), after.pressure, div, sources.solids)
      + CarryingScalars(setup, before, after, sources.solids));
    AddedFollows(a, c, Whole(setup, sources, before, after, div));
  }

  /** The velocity before makes no difference to how scalars are carried. */
  lemma SameScalars(setup: Setup, a: Moment, b: Moment, after: Moment, solids: Option<Solids>)
    requires a.density == b.density && a.temperature == b.temperature && a.fire == b.fire
    ensures CarryingScalars(setup, a, after, solids) == CarryingScalars(setup, b, after, solids)
  {
  }

  lemma AddedFollows(a: seq<Work>, c: seq<Work>, plan: seq<Step>)
    requires Added(a, c, plan)
    ensures a <= c && Follows(c[|a|..], plan)
  {
  }

  /** The state's carried fields are new, and the work that writes them is in
      the queue. */
  ghost predicate AllWritten(state: Moment, burns: bool, held: set<Hold>, queue: seq<Work>) {
    && (burns ==> state.fire.Some?)
    && forall h <- state.Faces() + state.Scalars(burns) :: h !in held && Bound(queue, h)
  }

  ghost predicate Fills(plan: seq<Step>, h: Hold) {
    exists i :: 0 <= i < |plan| && h in plan[i].binds
  }

  lemma FillsEither(p: seq<Step>, q: seq<Step>, h: Hold)
    requires Fills(p, h) || Fills(q, h)
    ensures Fills(p + q, h)
  {
    if Fills(p, h) {
      var i :| 0 <= i < |p| && h in p[i].binds;
      assert (p + q)[i] == p[i];
    } else {
      var i :| 0 <= i < |q| && h in q[i].binds;
      assert (p + q)[|p| + i] == q[i];
    }
  }

  lemma CarryFills(setup: Setup, what: Carried, velocity: set<Hold>, src: Hold, dst: Hold, walls: set<Hold>)
    ensures Fills(Carrying(setup, what, velocity, src, dst, walls), dst)
  {
    var plan := Carrying(setup, what, velocity, src, dst, walls);
    assert dst in plan[|plan| - 1].binds;
  }

  lemma FacesFill(setup: Setup, was: (Hold, Hold, Hold), now: (Hold, Hold, Hold), solids: Option<Solids>)
    ensures forall h <- Three(now) :: Fills(CarryingFaces(setup, was, now, solids), h)
  {
    hide Fills; hide Carrying;
    var x := Carrying(setup, FaceX, Three(was), was.0, now.0, Obstacle(solids, FaceX));
    var y := Carrying(setup, FaceY, Three(was), was.1, now.1, Obstacle(solids, FaceY));
    var z := Carrying(setup, FaceZ, Three(was), was.2, now.2, Obstacle(solids, FaceZ));
    CarryFills(setup, FaceX, Three(was), was.0, now.0, Obstacle(solids, FaceX));
    CarryFills(setup, FaceY, Three(was), was.1, now.1, Obstacle(solids, FaceY));
    CarryFills(setup, FaceZ, Three(was), was.2, now.2, Obstacle(solids, FaceZ));
    FillsEither(x, y, now.0);
    FillsEither(x, y, now.1);
    forall h <- Three(now) ensures Fills(x + y + z, h) { FillsEither(x + y, z, h); }
  }

  lemma ScalarFills(setup: Setup, what: Carried, velocity: set<Hold>, src: Hold, dst: Hold, solids: Option<Solids>)
    ensures Fills(CarryingScalar(setup, what, velocity, src, dst, solids), dst)
  {
    hide Fills; hide Carrying;
    var carry := Carrying(setup, what, velocity, src, dst, Obstacle(solids, what));
    CarryFills(setup, what, velocity, src, dst, Obstacle(solids, what));
    if setup.conserveMass {
      var measure := [Step(Measure(what), velocity + {src} + One(Mask(solids)))];
      FillsEither(measure, carry, dst);
      FillsEither(measure + carry, [Step(Correct(what), {dst})], dst);
    }
  }

  lemma ScalarsFill(setup: Setup, before: Moment, after: Moment, solids: Option<Solids>)
    requires setup.burns ==> before.fire.Some? && after.fire.Some?
    ensures forall h <- after.Scalars(setup.burns) :: Fills(CarryingScalars(setup, before, after, solids), h)
  {
    hide Fills; hide CarryingScalar;
    var v := after.Faces();
    var density := CarryingScalar(setup, Density, v, before.density, after.density, solids);
    var temperature := CarryingScalar(setup, Temperature, v, before.temperature, after.temperature, solids);
    ScalarFills(setup, Density, v, before.density, after.density, solids);
    ScalarFills(setup, Temperature, v, before.temperature, after.temperature, solids);
    FillsEither(density, temperature, after.density);
    FillsEither(density, temperature, after.temperature);
    if setup.burns {
      var was, now := before.fire.value, after.fire.value;
      var fuel := CarryingScalar(setup, Fuel, v, was.fuel, now.fuel, solids);
      var react := CarryingScalar(setup, React, v, was.react, now.react, solids);
      ScalarFills(setup, Fuel, v, was.fuel, now.fuel, solids);
      ScalarFills(setup, React, v, was.react, now.react, solids);
      FillsEither(fuel, react, now.fuel);
      FillsEither(fuel, react, now.react);
      forall h <- after.Scalars(true) ensures Fills(density + temperature + (fuel + react), h) {
        FillsEither(density + temperature, fuel + react, h);
      }
    } else {
      assert density + temperature + [] == density + temperature;
    }
  }

  /** A whole substep writes every field the state then carries. */
  lemma AdvancesWrites(setup: Setup, sources: Sources, before: Moment, after: Moment, held: set<Hold>, queue: seq<Work>,
      work: seq<Work>)
    requires Advances(setup, sources, before, after, held, work)
    ensures AllWritten(after, setup.burns, held, queue + work)
  {
    hide Forces; hide CarryingFaces; hide Projecting; hide CarryingScalars; hide Fills; hide Follows; hide Bound;
    var div :| Follows(work, Whole(setup, sources, before, after, div));
    var forces, faces := Forces(before, sources, setup),
      CarryingFaces(setup, before.velocity, after.velocity, sources.solids);
    var project, scalars := Projecting(setup, after.Faces(), before.pressure, div, sources.solids),
      CarryingScalars(setup, before, after, sources.solids);
    FacesFill(setup, before.velocity, after.velocity, sources.solids);
    ScalarsFill(setup, before, after, sources.solids);
    forall h <- after.Faces() + after.Scalars(setup.burns) ensures Bound(queue + work, h) {
      if h in after.Faces() {
        FillsEither(forces, faces, h);
      } else {
        FillsEither(project, scalars, h);
      }
      FillsEither(forces + faces, project + scalars, h);
      FilledBinds(work, Whole(setup, sources, before, after, div), h);
      BoundAfter(queue, work, h);
    }
  }

  lemma FilledBinds(work: seq<Work>, plan: seq<Step>, h: Hold)
    requires Follows(work, plan) && Fills(plan, h)
    ensures Bound(work, h)
  {
    var i :| 0 <= i < |plan| && h in plan[i].binds;
    FollowedBinds(work, plan, i, h);
  }

  // ------------------------------------------------------------ what a substep is sure to do

  /** How many sweeps, cycles or iterations were asked for. */
  function Asked(pressure: PressureSolve): nat {
    match pressure
    case GaussSeidel(n) => n
    case Multigrid(n) => n
    case Mgpcg(n) => n
  }

  /** The stages of a substep, in order. */
  function Stage(pass: Pass): nat {
    match pass
    case Forward(w) => if OnFaces(w) then 1 else 5
    case Backward(w) => if OnFaces(w) then 1 else 5
    case Carry(w) => if OnFaces(w) then 1 else 5
    case Measure(_) => 5
    case Correct(_) => 5
    case Divergence => 2
    case Levels => 3
    case Solve(_) => 3
    case RemoveMean => 3
    case Gradient => 4
    case _ => 0
  }

  predicate OnFaces(what: Carried) {
    what.FaceX? || what.FaceY? || what.FaceZ?
  }

  ghost predicate InStage(plan: seq<Step>, n: nat) {
    forall i :: 0 <= i < |plan| ==> Stage(plan[i].pass) == n
  }

  ghost predicate Staged(plan: seq<Step>) {
    forall i, j :: 0 <= i < j < |plan| ==> Stage(plan[i].pass) <= Stage(plan[j].pass)
  }

  /** The pass runs, and binds each of these fields. */
  ghost predicate Reaches(work: seq<Work>, pass: Pass, binds: set<Hold>) {
    forall h <- binds :: exists k :: 0 <= k < |work| && work[k].pass == pass && h in work[k].binds
  }

  lemma {:induction false} FollowedPass(work: seq<Work>, plan: seq<Step>, k: nat)
    requires Follows(work, plan) && k < |work|
    ensures exists i :: 0 <= i < |plan| && plan[i].pass == work[k].pass
    decreases |plan|
  {
    var last := |plan| - 1;
    var m: nat :| m <= |work| && Follows(work[..m], plan[..last]) && IsRun(work[m..], plan[last]);
    if k < m {
      FollowedPass(work[..m], plan[..last], k);
      var i :| 0 <= i < last && plan[..last][i].pass == work[..m][k].pass;
      assert plan[i] == plan[..last][i];
    } else {
      assert work[m..][k - m] == work[k];
    }
  }

  lemma {:induction false} FollowedStages(work: seq<Work>, plan: seq<Step>, a: nat, b: nat)
    requires Follows(work, plan) && Staged(plan) && a < b < |work|
    ensures Stage(work[a].pass) <= Stage(work[b].pass)
    decreases |plan|
  {
    var last := |plan| - 1;
    var m: nat :| m <= |work| && Follows(work[..m], plan[..last]) && IsRun(work[m..], plan[last]);
    if b < m {
      FollowedStages(work[..m], plan[..last], a, b);
    } else {
      assert work[m..][b - m] == work[b];
      if a < m {
        FollowedPass(work[..m], plan[..last], a);
        var i :| 0 <= i < last && plan[..last][i].pass == work[..m][a].pass;
        assert plan[i] == plan[..last][i];
      } else {
        assert work[m..][a - m] == work[a];
      }
    }
  }

  lemma FollowedStep(work: seq<Work>, plan: seq<Step>, s: Step)
    requires Follows(work, plan) && s in plan
    ensures Reaches(work, s.pass, s.binds)
  {
    var i :| 0 <= i < |plan| && plan[i] == s;
    forall h <- s.binds ensures exists k :: 0 <= k < |work| && work[k].pass == s.pass && h in work[k].binds {
      FollowedBinds(work, plan, i, h);
    }
  }

  lemma CarryingInStage(setup: Setup, what: Carried, velocity: set<Hold>, src: Hold, dst: Hold, solids: Option<Solids>)
    ensures InStage(Carrying(setup, what, velocity, src, dst, Obstacle(solids, what)), if OnFaces(what) then 1 else 5)
    ensures !OnFaces(what) ==> InStage(CarryingScalar(setup, what, velocity, src, dst, solids), 5)
  {
  }

  lemma ForcesInStage(s: Moment, sources: Sources, setup: Setup)
    ensures InStage(Forces(s, sources, setup), 0)
  {
    assert InStage(Emitting(s, sources, setup), 0);
    assert InStage(Moving(s, sources, setup), 0);
  }

  lemma FacesInStage(setup: Setup, was: (Hold, Hold, Hold), now: (Hold, Hold, Hold), solids: Option<Solids>)
    ensures InStage(CarryingFaces(setup, was, now, solids), 1)
  {
    hide Carrying;
    CarryingInStage(setup, FaceX, Three(was), was.0, now.0, solids);
    CarryingInStage(setup, FaceY, Three(was), was.1, now.1, solids);
    CarryingInStage(setup, FaceZ, Three(was), was.2, now.2, solids);
  }

  lemma ScalarsInStage(setup: Setup, before: Moment, after: Moment, solids: Option<Solids>)
    ensures InStage(CarryingScalars(setup, before, after, solids), 5)
  {
    hide CarryingScalar;
    CarryingInStage(setup, Density, after.Faces(), before.density, after.density, solids);
    CarryingInStage(setup, Temperature, after.Faces(), before.temperature, after.temperature, solids);
    if before.fire.Some? && after.fire.Some? {
      CarryingInStage(setup, Fuel, after.Faces(), before.fire.value.fuel, after.fire.value.fuel, solids);
      CarryingInStage(setup, React, after.Faces(), before.fire.value.react, after.fire.value.react, solids);
    }
  }

  lemma WholeStaged(setup: Setup, sources: Sources, before: Moment, after: Moment, div: Hold)
    ensures Staged(Whole(setup, sources, before, after, div))
  {
    hide Forces; hide CarryingFaces; hide CarryingScalars; hide Solving; hide Moment.Faces; hide Walls; hide Stage;
    ForcesInStage(before, sources, setup);
    FacesInStage(setup, before.velocity, after.velocity, sources.solids);
    ScalarsInStage(setup, before, after, sources.solids);
    SolvingInStage(setup, before.pressure, div, sources.solids);
    EndsInStage();
  }

  lemma SolvingInStage(setup: Setup, p: Hold, div: Hold, solids: Option<Solids>)
    ensures InStage(Solving(setup, p, div, solids), 3)
  {
    hide Sweeping; hide Iterating; hide Stage;
    SweepsInStage(Asked(setup.pressure), p, div, setup.depth, Mask(solids));
  }

  lemma SweepsInStage(n: nat, p: Hold, div: Hold, depth: nat, mask: Option<Hold>)
    ensures InStage(Sweeping(n, p, div), 3) && InStage(Iterating(n, p, div), 3)
    ensures Stage(RemoveMean) == 3 && Stage(LevelsStep(depth, mask).pass) == 3
  {
  }

  lemma EndsInStage()
    ensures Stage(Divergence) == 2 && Stage(Gradient) == 4
  {
  }

  /** Whatever is switched on, a substep's work comes stage by stage: forces and
      fire, the faces carried, divergence, solve, gradient, the scalars carried
      through the velocity that leaves. */
  lemma StageByStage(setup: Setup, sources: Sources, before: Moment, after: Moment, held: set<Hold>, work: seq<Work>)
    requires Advances(setup, sources, before, after, held, work)
    ensures forall a, b :: 0 <= a < b < |work| ==> Stage(work[a].pass) <= Stage(work[b].pass)
  {
    hide Whole;
    var div :| div !in held && Follows(work, Whole(setup, sources, before, after, div));
    WholeStaged(setup, sources, before, after, div);
    forall a, b | 0 <= a < b < |work| ensures Stage(work[a].pass) <= Stage(work[b].pass) {
      FollowedStages(work, Whole(setup, sources, before, after, div), a, b);
    }
  }

  function Writing(what: Carried, velocity: set<Hold>, src: Hold, dst: Hold, solids: Option<Solids>): Step {
    Step(Carry(what), velocity + {src, dst} + Obstacle(solids, what))
  }

  lemma CarryingWrites(setup: Setup, what: Carried, velocity: set<Hold>, src: Hold, dst: Hold, solids: Option<Solids>)
    ensures Writing(what, velocity, src, dst, solids)
      in Carrying(setup, what, velocity, src, dst, Obstacle(solids, what))
    ensures Writing(what, velocity, src, dst, solids) in CarryingScalar(setup, what, velocity, src, dst, solids)
    ensures setup.conserveMass ==>
      Step(Correct(what), {dst}) in CarryingScalar(setup, what, velocity, src, dst, solids)
  {
  }

  lemma StepReached(work: seq<Work>, plan: seq<Step>, s: Step, binds: set<Hold>)
    requires Follows(work, plan) && s in plan && binds <= s.binds
    ensures Reaches(work, s.pass, binds)
  {
    hide Follows;
    FollowedStep(work, plan, s);
  }

  /** The faces a substep leaves were carried from those before. */
  lemma FacesAreCarried(setup: Setup, sources: Sources, before: Moment, after: Moment, div: Hold, work: seq<Work>)
    requires Follows(work, Whole(setup, sources, before, after, div))
    ensures Reaches(work, Carry(FaceX), before.Faces() + {after.velocity.0})
    ensures Reaches(work, Carry(FaceY), before.Faces() + {after.velocity.1})
    ensures Reaches(work, Carry(FaceZ), before.Faces() + {after.velocity.2})
  {
    hide Follows; hide Carrying; hide Forces; hide Projecting; hide CarryingScalars; hide Obstacle; hide Reaches;
    var plan, solids, was, now := Whole(setup, sources, before, after, div), sources.solids, before.velocity,
      after.velocity;
    CarryingWrites(setup, FaceX, Three(was), was.0, now.0, solids);
    CarryingWrites(setup, FaceY, Three(was), was.1, now.1, solids);
    CarryingWrites(setup, FaceZ, Three(was), was.2, now.2, solids);
    StepReached(work, plan, Writing(FaceX, Three(was), was.0, now.0, solids), before.Faces() + {now.0});
    StepReached(work, plan, Writing(FaceY, Three(was), was.1, now.1, solids), before.Faces() + {now.1});
    StepReached(work, plan, Writing(FaceZ, Three(was), was.2, now.2, solids), before.Faces() + {now.2});
  }

  /** The scalars a substep leaves were carried through the velocity it leaves. */
  lemma ScalarsAreCarried(setup: Setup, sources: Sources, before: Moment, after: Moment, div: Hold, work: seq<Work>)
    requires Follows(work, Whole(setup, sources, before, after, div))
    ensures Reaches(work, Carry(Density), after.Faces() + {before.density, after.density})
    ensures Reaches(work, Carry(Temperature), after.Faces() + {before.temperature, after.temperature})
    ensures setup.conserveMass ==>
      Reaches(work, Correct(Density), {after.density}) && Reaches(work, Correct(Temperature), {after.temperature})
  {
    hide Follows; hide CarryingScalar; hide Forces; hide Projecting; hide CarryingFaces; hide CarryingFire;
    hide Obstacle;
    hide Reaches;
    var plan, solids, v := Whole(setup, sources, before, after, div), sources.solids, after.Faces();
    CarryingWrites(setup, Density, v, before.density, after.density, solids);
    CarryingWrites(setup, Temperature, v, before.temperature, after.temperature, solids);
    var density := Writing(Density, v, before.density, after.density, solids);
    var temperature := Writing(Temperature, v, before.temperature, after.temperature, solids);
    StepReached(work, plan, density, v + {before.density, after.density});
    StepReached(work, plan, temperature, v + {before.temperature, after.temperature});
    if setup.conserveMass {
      StepReached(work, plan, Step(Correct(Density), {after.density}), {after.density});
      StepReached(work, plan, Step(Correct(Temperature), {after.temperature}), {after.temperature});
    }
  }

  lemma FireIsCarried(setup: Setup, sources: Sources, before: Moment, after: Moment, div: Hold, work: seq<Work>)
    requires Follows(work, Whole(setup, sources, before, after, div))
    requires setup.burns && before.fire.Some? && after.fire.Some?
    ensures Reaches(work, Carry(Fuel), after.Faces() + {before.fire.value.fuel, after.fire.value.fuel})
    ensures Reaches(work, Carry(React), after.Faces() + {before.fire.value.react, after.fire.value.react})
  {
    hide Follows; hide CarryingScalar; hide Forces; hide Projecting; hide CarryingFaces; hide CarryingSmoke;
    hide Obstacle; hide Reaches;
    var plan, solids, v := Whole(setup, sources, before, after, div), sources.solids, after.Faces();
    var was, now := before.fire.value, after.fire.value;
    CarryingWrites(setup, Fuel, v, was.fuel, now.fuel, solids);
    CarryingWrites(setup, React, v, was.react, now.react, solids);
    StepReached(work, plan, Writing(Fuel, v, was.fuel, now.fuel, solids), v + {was.fuel, now.fuel});
    StepReached(work, plan, Writing(React, v, was.react, now.react, solids), v + {was.react, now.react});
  }

  lemma SolvingSteps(setup: Setup, p: Hold, div: Hold, solids: Option<Solids>, i: nat)
    requires i < Asked(setup.pressure)
    ensures Step(Solve(i), if i > 0 && setup.pressure.Mgpcg? then {p} else {p, div}) in Solving(setup, p, div, solids)
  {
    var s := Step(Solve(i), if i > 0 && setup.pressure.Mgpcg? then {p} else {p, div});
    match setup.pressure
    case GaussSeidel(n) => assert Sweeping(n, p, div)[i] == s;
    case Multigrid(n) => assert Sweeping(n, p, div)[i] == s;
    case Mgpcg(n) => assert Iterating(n, p, div)[i] == s;
  }

  /** The velocity is projected: its divergence, every sweep, cycle or iteration
      asked for, and the gradient. */
  lemma VelocityIsProjected(setup: Setup, sources: Sources, before: Moment, after: Moment, div: Hold, work: seq<Work>)
    requires Follows(work, Whole(setup, sources, before, after, div))
    ensures Reaches(work, Divergence, after.Faces() + {div})
    ensures forall i: nat :: i < Asked(setup.pressure) ==> Reaches(work, Solve(i), {before.pressure})
    ensures Asked(setup.pressure) > 0 ==> Reaches(work, Solve(0), {before.pressure, div})
    ensures Reaches(work, Gradient, after.Faces() + {before.pressure} + Walls(sources.solids))
  {
    hide Follows; hide Forces; hide CarryingFaces; hide CarryingScalars; hide Walls; hide Reaches; hide Solving;
    var plan, p, solids := Whole(setup, sources, before, after, div), before.pressure, sources.solids;
    var v := after.Faces();
    StepReached(work, plan, Step(Divergence, v + {div}), v + {div});
    StepReached(work, plan, Step(Gradient, v + {p} + Walls(solids)), v + {p} + Walls(solids));
    forall i: nat | i < Asked(setup.pressure)
      ensures Reaches(work, Solve(i), {p}) && (i == 0 ==> Reaches(work, Solve(i), {p, div}))
    {
      SolvingSteps(setup, p, div, solids, i);
      var s := Step(Solve(i), if i > 0 && setup.pressure.Mgpcg? then {p} else {p, div});
      StepReached(work, plan, s, {p});
      if i == 0 { StepReached(work, plan, s, {p, div}); }
    }
  }

  /** What moves the smoke before it is carried. */
  lemma ForcesAct(setup: Setup, sources: Sources, before: Moment, after: Moment, div: Hold, work: seq<Work>)
    requires Follows(work, Whole(setup, sources, before, after, div))
    ensures Reaches(work, Emit(Density), {before.density, sources.density})
    ensures Reaches(work, Emit(Temperature), {before.temperature, sources.temperature})
    ensures Reaches(work, Buoyancy, {before.velocity.2, before.density, before.temperature} + One(Mask(sources.solids)))
    ensures setup.wind ==> Reaches(work, Wind, before.Faces() + One(Mask(sources.solids)))
    ensures setup.vorticity ==> Reaches(work, Curl, before.Faces()) && Reaches(work, Confine, before.Faces())
    ensures sources.emission.Some? ==>
      Reaches(work, Blend, before.Faces() + {sources.emission.value.weight} + Three(sources.emission.value.velocity))
  {
    hide Follows; hide Fire; hide CarryingFaces; hide Projecting; hide CarryingScalars; hide Reaches; hide Moment.Faces;
    var plan, mask, v := Whole(setup, sources, before, after, div), One(Mask(sources.solids)), before.Faces();
    var lift := {before.velocity.2, before.density, before.temperature} + mask;
    StepReached(work, plan, Step(Emit(Density), {before.density, sources.density}), {before.density, sources.density});
    StepReached(work, plan, Step(Emit(Temperature), {before.temperature, sources.temperature}),
      {before.temperature, sources.temperature});
    StepReached(work, plan, Step(Buoyancy, lift), lift);
    if setup.wind { StepReached(work, plan, Step(Wind, v + mask), v + mask); }
    if setup.vorticity {
      var fuel := if setup.burns && before.fire.Some? then {before.fire.value.fuel} else {};
      StepReached(work, plan, Step(Curl, v + mask), v);
      StepReached(work, plan, Step(Confine, v + fuel + mask), v);
    }
    if sources.emission.Some? {
      var e := sources.emission.value;
      StepReached(work, plan, Step(Blend, v + {e.weight} + Three(e.velocity) + mask),
        v + {e.weight} + Three(e.velocity));
    }
  }

  lemma FireBurns(setup: Setup, sources: Sources, before: Moment, after: Moment, div: Hold, work: seq<Work>)
    requires Follows(work, Whole(setup, sources, before, after, div)) && setup.burns && before.fire.Some?
    ensures var fire := {before.fire.value.fuel, before.fire.value.react};
      && Reaches(work, EmitFuel, fire + One(sources.fuel))
      && Reaches(work, Burn, fire + {before.density, before.temperature})
      && (sources.surface.Some? ==>
         && Reaches(work, EmitWood, fire)
         && Reaches(work, Ignite, {sources.surface.value, before.temperature} + One(before.surface)))
  {
    hide Follows; hide Moving; hide CarryingFaces; hide Projecting; hide CarryingScalars; hide Reaches;
    var plan, fire := Whole(setup, sources, before, after, div), {before.fire.value.fuel, before.fire.value.react};
    StepReached(work, plan, Step(EmitFuel, fire + One(sources.fuel)), fire + One(sources.fuel));
    var burn := fire + {before.density, before.temperature};
    StepReached(work, plan, Step(Burn, burn), burn);
    if sources.surface.Some? {
      var wood := Wood(before, sources);
      assert wood[0] in wood && wood[2] in wood;
      StepReached(work, plan, wood[0], {sources.surface.value, before.temperature} + One(before.surface));
      StepReached(work, plan, wood[2], fire);
    }
  }

  /** A closed domain's pressure loses its mean once the solve has run. */
  lemma MeanIsRemoved(setup: Setup, sources: Sources, before: Moment, after: Moment, div: Hold, work: seq<Work>)
    requires Follows(work, Whole(setup, sources, before, after, div)) && setup.closed && setup.pressure != Mgpcg(0)
    ensures Reaches(work, RemoveMean, {before.pressure})
  {
    hide Follows; hide Forces; hide CarryingFaces; hide CarryingScalars; hide Reaches;
    var s := Step(RemoveMean, {before.pressure});
    assert s in Solving(setup, before.pressure, div, sources.solids);
    StepReached(work, Whole(setup, sources, before, after, div), s, {before.pressure});
  }

  /** MacCormack traces every face there and back first, through the same velocity. */
  lemma FacesGoBack(setup: Setup, sources: Sources, before: Moment, after: Moment, div: Hold, work: seq<Work>)
    requires Follows(work, Whole(setup, sources, before, after, div)) && setup.maccormack
    ensures forall w <- [FaceX, FaceY, FaceZ] ::
      Reaches(work, Forward(w), before.Faces()) && Reaches(work, Backward(w), before.Faces())
  {
    hide Follows; hide Forces; hide Projecting; hide CarryingScalars; hide Reaches; hide Obstacle;
    var plan, v, solids := Whole(setup, sources, before, after, div), before.Faces(), sources.solids;
    var was, now := before.velocity, after.velocity;
    ThereAndBack(setup, FaceX, v, was.0, now.0, solids);
    ThereAndBack(setup, FaceY, v, was.1, now.1, solids);
    ThereAndBack(setup, FaceZ, v, was.2, now.2, solids);
    forall w <- [FaceX, FaceY, FaceZ]
      ensures Reaches(work, Forward(w), v) && Reaches(work, Backward(w), v)
    {
      var src := if w == FaceX then was.0 else if w == FaceY then was.1 else was.2;
      StepReached(work, plan, Step(Forward(w), v + {src} + Obstacle(solids, w)), v);
      StepReached(work, plan, Step(Backward(w), v + Obstacle(solids, w)), v);
    }
  }

  lemma ThereAndBack(setup: Setup, what: Carried, velocity: set<Hold>, src: Hold, dst: Hold, solids: Option<Solids>)
    requires setup.maccormack
    ensures var walls := Obstacle(solids, what);
      var carry, scalar := Carrying(setup, what, velocity, src, dst, walls),
        CarryingScalar(setup, what, velocity, src, dst, solids);
      && Step(Forward(what), velocity + {src} + walls) in carry && Step(Backward(what), velocity + walls) in carry
      && (forall s <- carry :: s in scalar)
  {
    hide Obstacle;
    var walls := Obstacle(solids, what);
    var carry := Carrying(setup, what, velocity, src, dst, walls);
    assert carry[0] == Step(Forward(what), velocity + {src} + walls);
    assert carry[1] == Step(Backward(what), velocity + walls);
  }

  // ------------------------------------------------------------ the passes by name

  /** The passes of a substep by name, for every way it can be set up. */
  function Passes(setup: Setup, sources: Sources): seq<Pass> {
    ([Emit(Density), Emit(Temperature)]
     + (if !setup.burns then []
        else if sources.surface.Some? then [EmitFuel, Ignite, Gather, EmitWood, Burn] else [EmitFuel, Burn])
     + (if sources.emission.Some? then [Blend] else []) + [Buoyancy]
     + (if setup.wind then [Wind] else []) + (if setup.vorticity then [Curl, Confine] else []))
    + Carries(setup.maccormack, false, [FaceX, FaceY, FaceZ])
    + ([Divergence] + (if setup.pressure.GaussSeidel? then [] else [Levels])
       + seq(Asked(setup.pressure), i requires 0 <= i < Asked(setup.pressure) => Solve(i))
       + (if setup.closed && setup.pressure != Mgpcg(0) then [RemoveMean] else []) + [Gradient])
    + Carries(setup.maccormack, setup.conserveMass,
        if setup.burns then [Density, Temperature, Fuel, React] else [Density, Temperature])
  }

  function Carries(maccormack: bool, corrected: bool, grids: seq<Carried>): seq<Pass> {
    if grids == [] then [] else
      Carries(maccormack, corrected, grids[..|grids| - 1])
      + OneGrid(maccormack, corrected, grids[|grids| - 1])
  }

  /** One grid's passes. */
  function OneGrid(maccormack: bool, corrected: bool, w: Carried): seq<Pass> {
    var trace := if maccormack then [Forward(w), Backward(w), Carry(w)] else [Carry(w)];
    if corrected then [Measure(w)] + trace + [Correct(w)] else trace
  }

  function Names(plan: seq<Step>): (r: seq<Pass>)
    ensures |r| == |plan| && forall i :: 0 <= i < |plan| ==> r[i] == plan[i].pass
  {
    seq(|plan|, i requires 0 <= i < |plan| => plan[i].pass)
  }

  /** Runs of dispatches, one run a pass, in this order and of no other pass. */
  ghost predicate InTurn(work: seq<Work>, passes: seq<Pass>)
    decreases |passes|
  {
    if passes == [] then work == [] else
      exists m: nat :: m <= |work| && InTurn(work[..m], passes[..|passes| - 1])
        && forall i :: m <= i < |work| ==> work[i].pass == passes[|passes| - 1]
  }

  lemma NamesJoin(a: seq<Step>, b: seq<Step>)
    ensures Names(a + b) == Names(a) + Names(b)
  {
  }

  lemma {:induction false} FollowedInTurn(work: seq<Work>, plan: seq<Step>)
    requires Follows(work, plan)
    ensures InTurn(work, Names(plan))
    decreases |plan|
  {
    if plan != [] {
      var last := |plan| - 1;
      var m: nat :| m <= |work| && Follows(work[..m], plan[..last]) && IsRun(work[m..], plan[last]);
      FollowedInTurn(work[..m], plan[..last]);
      assert Names(plan)[..last] == Names(plan[..last]);
      forall i | m <= i < |work| ensures work[i].pass == Names(plan)[last] {
        assert work[m..][i - m] == work[i];
      }
    }
  }

  lemma OneCarried(maccormack: bool, corrected: bool, grids: seq<Carried>, w: Carried)
    ensures Carries(maccormack, corrected, []) == []
    ensures Carries(maccormack, corrected, grids + [w])
      == Carries(maccormack, corrected, grids) + OneGrid(maccormack, corrected, w)
  {
    assert (grids + [w])[..|grids|] == grids;
  }

  lemma CarryingNamed(setup: Setup, what: Carried, velocity: set<Hold>, src: Hold, dst: Hold, solids: Option<Solids>)
    ensures Names(Carrying(setup, what, velocity, src, dst, Obstacle(solids, what)))
      == OneGrid(setup.maccormack, false, what)
    ensures Names(CarryingScalar(setup, what, velocity, src, dst, solids))
      == OneGrid(setup.maccormack, setup.conserveMass, what)
  {
    hide Obstacle;
  }

  lemma FacesNamed(setup: Setup, was: (Hold, Hold, Hold), now: (Hold, Hold, Hold), solids: Option<Solids>)
    ensures Names(CarryingFaces(setup, was, now, solids)) == Carries(setup.maccormack, false, [FaceX, FaceY, FaceZ])
  {
    hide Carrying; hide Carries; hide Names; hide Obstacle; hide OneGrid;
    var x := Carrying(setup, FaceX, Three(was), was.0, now.0, Obstacle(solids, FaceX));
    var y := Carrying(setup, FaceY, Three(was), was.1, now.1, Obstacle(solids, FaceY));
    var z := Carrying(setup, FaceZ, Three(was), was.2, now.2, Obstacle(solids, FaceZ));
    CarryingNamed(setup, FaceX, Three(was), was.0, now.0, solids);
    CarryingNamed(setup, FaceY, Three(was), was.1, now.1, solids);
    CarryingNamed(setup, FaceZ, Three(was), was.2, now.2, solids);
    NamesJoin(x + y, z);
    NamesJoin(x, y);
    OneCarried(setup.maccormack, false, [], FaceX);
    OneCarried(setup.maccormack, false, [FaceX], FaceY);
    OneCarried(setup.maccormack, false, [FaceX, FaceY], FaceZ);
    assert [] + [FaceX] == [FaceX] && [FaceX] + [FaceY] == [FaceX, FaceY];
    assert [FaceX, FaceY] + [FaceZ] == [FaceX, FaceY, FaceZ];
  }

  lemma SmokeNamed(setup: Setup, before: Moment, after: Moment, solids: Option<Solids>)
    ensures Names(CarryingSmoke(setup, before, after, solids))
      == Carries(setup.maccormack, setup.conserveMass, [Density, Temperature])
  {
    hide CarryingScalar; hide Carries; hide Names; hide OneGrid;
    var v := after.Faces();
    CarryingNamed(setup, Density, v, before.density, after.density, solids);
    CarryingNamed(setup, Temperature, v, before.temperature, after.temperature, solids);
    NamesJoin(CarryingScalar(setup, Density, v, before.density, after.density, solids),
      CarryingScalar(setup, Temperature, v, before.temperature, after.temperature, solids));
    OneCarried(setup.maccormack, setup.conserveMass, [], Density);
    OneCarried(setup.maccormack, setup.conserveMass, [Density], Temperature);
    assert [] + [Density] == [Density] && [Density] + [Temperature] == [Density, Temperature];
  }

  lemma FireNamed(setup: Setup, before: Moment, after: Moment, solids: Option<Solids>)
    requires before.fire.Some? && after.fire.Some?
    ensures Carries(setup.maccormack, setup.conserveMass, [Density, Temperature])
      + Names(CarryingFire(setup, before, after, solids))
      == Carries(setup.maccormack, setup.conserveMass, [Density, Temperature, Fuel, React])
  {
    hide CarryingScalar; hide Carries; hide Names; hide OneGrid;
    var v, was, now := after.Faces(), before.fire.value, after.fire.value;
    CarryingNamed(setup, Fuel, v, was.fuel, now.fuel, solids);
    CarryingNamed(setup, React, v, was.react, now.react, solids);
    NamesJoin(CarryingScalar(setup, Fuel, v, was.fuel, now.fuel, solids),
      CarryingScalar(setup, React, v, was.react, now.react, solids));
    OneCarried(setup.maccormack, setup.conserveMass, [Density, Temperature], Fuel);
    OneCarried(setup.maccormack, setup.conserveMass, [Density, Temperature, Fuel], React);
    assert [Density, Temperature] + [Fuel] == [Density, Temperature, Fuel];
    assert [Density, Temperature, Fuel] + [React] == [Density, Temperature, Fuel, React];
  }

  lemma ScalarsNamed(setup: Setup, before: Moment, after: Moment, solids: Option<Solids>)
    requires setup.burns ==> before.fire.Some? && after.fire.Some?
    ensures Names(CarryingScalars(setup, before, after, solids)) == Carries(setup.maccormack, setup.conserveMass,
      if setup.burns then [Density, Temperature, Fuel, React] else [Density, Temperature])
  {
    hide CarryingSmoke; hide CarryingFire; hide Carries; hide Names;
    SmokeNamed(setup, before, after, solids);
    var smoke := CarryingSmoke(setup, before, after, solids);
    if setup.burns {
      FireNamed(setup, before, after, solids);
      NamesJoin(smoke, CarryingFire(setup, before, after, solids));
    } else {
      assert smoke + [] == smoke;
    }
  }

  lemma ForcesNamed(s: Moment, sources: Sources, setup: Setup)
    requires setup.burns ==> s.fire.Some?
    ensures Names(Forces(s, sources, setup)) == [Emit(Density), Emit(Temperature)]
      + (if !setup.burns then []
         else if sources.surface.Some? then [EmitFuel, Ignite, Gather, EmitWood, Burn] else [EmitFuel, Burn])
      + (if sources.emission.Some? then [Blend] else []) + [Buoyancy]
      + (if setup.wind then [Wind] else []) + (if setup.vorticity then [Curl, Confine] else [])
  {
    hide Names;
    EmittingNamed(s, sources, setup);
    MovingNamed(s, sources, setup);
    hide Emitting; hide Moving;
    NamesJoin(Emitting(s, sources, setup), Moving(s, sources, setup));
  }

  lemma EmittingNamed(s: Moment, sources: Sources, setup: Setup)
    requires setup.burns ==> s.fire.Some?
    ensures Names(Emitting(s, sources, setup)) == [Emit(Density), Emit(Temperature)]
      + if !setup.burns then []
        else if sources.surface.Some? then [EmitFuel, Ignite, Gather, EmitWood, Burn] else [EmitFuel, Burn]
  {
  }

  lemma MovingNamed(s: Moment, sources: Sources, setup: Setup)
    ensures Names(Moving(s, sources, setup)) == (if sources.emission.Some? then [Blend] else []) + [Buoyancy]
      + (if setup.wind then [Wind] else []) + (if setup.vorticity then [Curl, Confine] else [])
  {
  }

  lemma ProjectingNamed(setup: Setup, faces: set<Hold>, p: Hold, div: Hold, solids: Option<Solids>)
    ensures Names(Projecting(setup, faces, p, div, solids))
      == [Divergence] + (if setup.pressure.GaussSeidel? then [] else [Levels])
        + seq(Asked(setup.pressure), i requires 0 <= i < Asked(setup.pressure) => Solve(i))
        + (if setup.closed && setup.pressure != Mgpcg(0) then [RemoveMean] else []) + [Gradient]
  {
    hide Walls; hide BuildingLevels;
    assert BuildingLevels(setup, solids).pass == Levels by { LevelsNamed(setup, solids); }
  }

  lemma LevelsNamed(setup: Setup, solids: Option<Solids>)
    ensures BuildingLevels(setup, solids).pass == Levels
  {
  }

  /** A substep's work is a run of each of these passes in turn, and nothing
      else: none is skipped, repeated, or out of place. */
  lemma PassByPass(setup: Setup, sources: Sources, before: Moment, after: Moment, held: set<Hold>, work: seq<Work>)
    requires Advances(setup, sources, before, after, held, work)
    ensures InTurn(work, Passes(setup, sources))
  {
    hide Forces; hide CarryingFaces; hide Projecting; hide CarryingScalars; hide Carries; hide Names; hide Follows;
    hide InTurn; hide Asked;
    var div :| div !in held && Follows(work, Whole(setup, sources, before, after, div));
    var forces, faces := Forces(before, sources, setup),
      CarryingFaces(setup, before.velocity, after.velocity, sources.solids);
    var project, scalars := Projecting(setup, after.Faces(), before.pressure, div, sources.solids),
      CarryingScalars(setup, before, after, sources.solids);
    ForcesNamed(before, sources, setup);
    FacesNamed(setup, before.velocity, after.velocity, sources.solids);
    ProjectingNamed(setup, after.Faces(), before.pressure, div, sources.solids);
    ScalarsNamed(setup, before, after, sources.solids);
    NamesJoin(forces, faces);
    NamesJoin(project, scalars);
    NamesJoin(forces + faces, project + scalars);
    FollowedInTurn(work, Whole(setup, sources, before, after, div));
    assert Names(forces) + Names(faces) + (Names(project) + Names(scalars))
      == Names(forces) + Names(faces) + Names(project) + Names(scalars) == Passes(setup, sources);
  }
}
