/** What an evaluation is, told without any evaluator (elements-core
    `graph/node.rs`, `graph/mod.rs`): what every node that ran was told, call by
    call, what it returned, and what the slots hold afterwards. */
module Transcripts {
  import opened Values
  import opened Graphs
  import opened Plans

  function InSlot(m: State, key: StateKey): Option<Value> {
    if key in m then Some(m[key]) else None
  }

  /** One node at one time, and the answers it has had so far. */
  datatype Talk = Talk(id: NodeId, node: Node, time: Time, dims: Dims, before: State, heard: seq<Reply>)
  {
    /** What it asked after its first `m` answers. */
    function Asked(m: nat): Action
      requires m <= |heard|
    {
      node.strategy(time, dims, heard[..m])
    }

    function Asks(): Action {
      Asked(|heard|)
    }

    function And(reply: Reply): Talk {
      this.(heard := heard + [reply])
    }

    /** Its first `m` answers. */
    function Until(m: nat): Talk
      requires m <= |heard|
    {
      this.(heard := heard[..m])
    }

    ghost predicate Took(i: nat) {
      exists j: nat :: j < |heard| && Asked(j) == TakeInput(i)
    }

    ghost predicate Touched(slot: string, j: nat)
      requires j <= |heard|
    {
      Asked(j) == TakeState(slot) || (Asked(j).PutState? && Asked(j).slot == slot)
    }

    /** The last call about `slot` is the `j`-th. */
    ghost predicate LastTouch(slot: string, j: nat) {
      j < |heard| && Touched(slot, j) && forall i: nat :: j < i < |heard| ==> !Touched(slot, i)
    }

    /** What `slot` holds now: what was last put there, nothing if it was last
        taken, and what it held before the frame if neither. */
    ghost predicate Holds(slot: string, v: Option<Value>) {
      if exists j: nat :: LastTouch(slot, j) then
        exists j: nat :: LastTouch(slot, j) && v == if Asked(j).PutState? then Some(Asked(j).stored) else None
      else
        v == InSlot(before, StateKey(id, slot))
    }

    /** A slot holds one thing. */
    lemma HoldsOne(slot: string, v: Option<Value>, w: Option<Value>)
      requires Holds(slot, v) && Holds(slot, w)
      ensures v == w
    {
    }

    lemma Sooner(reply: Reply)
      ensures And(reply).Until(|heard|) == this && |And(reply).heard| == |heard| + 1
      ensures forall j: nat :: j <= |heard| ==> And(reply).Asked(j) == Asked(j)
      ensures forall slot: string, j: nat :: j <= |heard| ==> And(reply).Touched(slot, j) == Touched(slot, j)
    {
      forall j: nat | j <= |heard| ensures And(reply).heard[..j] == heard[..j] {}
    }

    /** One more answer: a call about the slot decides what it holds. */
    lemma HoldsNext(reply: Reply, slot: string, v: Option<Value>)
      requires Holds(slot, v)
      ensures And(reply).Holds(slot,
        if Asks() == TakeState(slot) then None
        else if Asks().PutState? && Asks().slot == slot then Some(Asks().stored)
        else v)
    {
      Sooner(reply);
      var next, n := And(reply), |heard|;
      if Touched(slot, n) {
        assert next.LastTouch(slot, n);
      } else {
        assert forall j: nat :: next.LastTouch(slot, j) <==> LastTouch(slot, j);
      }
    }

    lemma TookNext(reply: Reply, i: nat)
      ensures And(reply).Took(i) <==> Took(i) || Asks() == TakeInput(i)
    {
      Sooner(reply);
      if Asks() == TakeInput(i) { assert And(reply).Asked(|heard|) == TakeInput(i); }
      if Took(i) {
        var j: nat :| j < |heard| && Asked(j) == TakeInput(i);
        assert And(reply).Asked(j) == TakeInput(i);
      }
    }

    lemma NothingHeard()
      requires heard == []
      ensures forall i: nat :: !Took(i)
      ensures forall slot: string :: Holds(slot, InSlot(before, StateKey(id, slot)))
    {
    }
  }

  /** An evaluation: the graph, the sockets asked for, and for every node that
      ran what it returned and what it was told. */
  datatype Account = Account(g: Dag, result: SocketId, extras: seq<SocketId>, time: Time, dims: Dims, before: State,
                             outputs: map<NodeId, seq<Value>>, heard: map<NodeId, seq<Reply>>)
  {
    ghost predicate Ran(id: NodeId) {
      id in outputs && id in heard && id < |g.nodes|
    }

    ghost function TalkOf(id: NodeId): Talk
      requires Ran(id)
    {
      Talk(id, g.nodes[id], time, dims, before, heard[id])
    }

    /** Socket `s` of a node that ran has this value. */
    ghost predicate Gives(s: SocketId, v: Value) {
      s.node in outputs && s.index < |outputs[s.node]| && v == outputs[s.node][s.index]
    }

    /** Some node that ran reads `s`. */
    ghost predicate Reads(s: SocketId) {
      exists to: SocketId :: to in g.edges && to.node in outputs && g.edges[to] == s
    }

    /** The answer a node gets, from what it asks and what happened before. */
    ghost predicate Fair(talk: Talk, reply: Reply) {
      match talk.Asks()
      case InputConnected(i) => reply == Flag(SocketId(talk.id, i) in g.edges)
      case Input(i) => !talk.Took(i) && Lends(talk.id, i, reply)
      case TakeInput(i) => !talk.Took(i) && Lends(talk.id, i, reply)
      case OutputWanted(i) =>
        var s := SocketId(talk.id, i);
        reply == Flag(s == result || s in extras || Reads(s))
      case TakeState(slot) =>
        && talk.node.stateful && reply.Slot? && talk.Holds(slot, reply.found)
        && (reply.found.Some? ==> reply.found.value.Fits(dims))
      case PutState(_, _) => talk.node.stateful && reply == Stored
      case Return(_) => false
      case Fail(_) => false
    }

    /** `reply` lends the value of the socket wired to input `i`. */
    ghost predicate Lends(id: NodeId, i: nat, reply: Reply) {
      var to := SocketId(id, i);
      to in g.edges && reply.Lent? && Gives(g.edges[to], reply.value)
    }

    /** What a call that gets no answer is refused with. */
    ghost predicate Refused(talk: Talk, e: NodeError) {
      match talk.Asks()
      case Input(i) => RefusesInput(talk, i, e)
      case TakeInput(i) => RefusesInput(talk, i, e)
      case TakeState(slot) =>
        if !talk.node.stateful then e == NotStateful(talk.id) else
        e == StateShape(talk.id, slot) && exists v: Value :: talk.Holds(slot, Some(v)) && !v.Fits(dims)
      case PutState(_, _) => !talk.node.stateful && e == NotStateful(talk.id)
      case Fail(reported) =>
        e == if reported.TypeMismatch? && reported.node == 0xFFFF_FFFF then
               TypeMismatch(talk.id, reported.index, reported.expected)
             else reported
      case _ => false
    }

    ghost predicate RefusesInput(talk: Talk, i: nat, e: NodeError) {
      if talk.Took(i) then e == InputAlreadyTaken(talk.id, i)
      else SocketId(talk.id, i) !in g.edges && e == MissingInput(talk.id, i)
    }

    ghost predicate AllFair(talk: Talk) {
      forall m: nat :: m < |talk.heard| ==> Fair(talk.Until(m), talk.heard[m])
    }

    /** Everything node `id` was told is so, and then it returned. */
    ghost predicate Honest(id: NodeId)
      requires Ran(id)
    {
      AllFair(TalkOf(id)) && TalkOf(id).Asks() == Return(outputs[id])
    }

    /** The evaluation yields these values, and leaves these slots. */
    ghost predicate Explains(value: Value, values: seq<Value>, after: State) {
      && heard.Keys == outputs.Keys && (forall id <- outputs.Keys :: Ran(id) && Honest(id))
      && Gives(result, value) && !Reads(result) && result !in extras
      && |values| == |extras| && (forall i :: 0 <= i < |extras| ==> Gives(extras[i], values[i]))
      && (forall id: NodeId, slot: string :: SlotEnds(after, id, slot))
    }

    ghost predicate SlotEnds(after: State, id: NodeId, slot: string) {
      var v := InSlot(after, StateKey(id, slot));
      if Ran(id) then TalkOf(id).Holds(slot, v) else v == InSlot(before, StateKey(id, slot))
    }
  }

  // ------------------------------------------------------------ one call

  /** The plain meaning's books while it talks to one node. */
  ghost predicate Tracks(talk: Talk, taken: set<nat>, slots: State) {
    && (forall i: nat :: i in taken <==> talk.Took(i))
    && (forall key <- slots :: key.node == talk.id)
    && (forall slot: string :: talk.Holds(slot, InSlot(slots, StateKey(talk.id, slot))))
  }

  /** The plain meaning's inputs are the values the account gives. */
  ghost predicate Fed(a: Account, id: NodeId, ins: seq<Option<Value>>) {
    forall i: nat ::
      if SocketId(id, i) in a.g.edges then
        i < |ins| && ins[i].Some? && a.Gives(a.g.edges[SocketId(id, i)], ins[i].value)
      else i < |ins| ==> ins[i].None?
  }

  ghost predicate Asking(p: Plan, f: Frame, a: Account, k: nat, talk: Talk) {
    && p.Valid() && k < |p.order| && talk.id == p.order[k] && talk.node == p.NodeAt(k)
    && talk.time == f.time == a.time && talk.dims == f.dims == a.dims && talk.before == f.state == a.before
    && a.g == p.g && a.result == p.result && a.extras == p.extras
    && (forall id: NodeId :: id in a.outputs <==> id in p.order)
  }

  lemma WantedIs(p: Plan, a: Account, s: SocketId)
    requires a.g == p.g && a.result == p.result && a.extras == p.extras
    requires forall id: NodeId :: id in a.outputs <==> id in p.order
    ensures p.Wanted(s) <==> s == a.result || s in a.extras || a.Reads(s)
    ensures p.Readers(s) == {} <==> !a.Reads(s)
  {
    if a.Reads(s) {
      var to :| to in a.g.edges && to.node in a.outputs && a.g.edges[to] == s;
      assert to in p.Readers(s);
    }
    if p.Readers(s) != {} { var to :| to in p.Readers(s); }
  }

  /** The books after an answer. */
  lemma TracksNext(talk: Talk, taken: set<nat>, slots: State, reply: Reply, taken': set<nat>, slots': State)
    requires Tracks(talk, taken, slots)
    requires taken' == if talk.Asks().TakeInput? then taken + {talk.Asks().index} else taken
    requires slots' ==
      match talk.Asks()
      case TakeState(slot) => slots - {StateKey(talk.id, slot)}
      case PutState(slot, v) => slots[StateKey(talk.id, slot) := v]
      case _ => slots
    ensures Tracks(talk.And(reply), taken', slots')
  {
    forall i: nat ensures i in taken' <==> talk.And(reply).Took(i) { talk.TookNext(reply, i); }
    forall slot: string ensures talk.And(reply).Holds(slot, InSlot(slots', StateKey(talk.id, slot))) {
      talk.HoldsNext(reply, slot, InSlot(slots, StateKey(talk.id, slot)));
    }
  }

  /** The plain meaning's answer is the fair one, and the only fair one. */
  lemma AnswerIsFair(p: Plan, f: Frame, a: Account, k: nat, talk: Talk, ins: seq<Option<Value>>, taken: set<nat>,
      slots: State)
    requires Asking(p, f, a, k, talk) && Tracks(talk, taken, slots) && Fed(a, talk.id, ins)
    ensures match p.Answer(k, f, ins, talk.heard, taken, slots)
      case Go(reply, taken', slots') =>
        && a.Fair(talk, reply) && (forall other: Reply :: a.Fair(talk, other) ==> other == reply)
        && Tracks(talk.And(reply), taken', slots')
      case Stop(Ok(done)) =>
        talk.Asks() == Return(done.0) && done.1 == slots && forall other: Reply :: !a.Fair(talk, other)
      case Stop(Err(e)) =>
        a.Refused(talk, e) && !talk.Asks().Return? && forall other: Reply :: !a.Fair(talk, other)
  {
    hide Plan.Valid;
    assert talk.heard[..|talk.heard|] == talk.heard;
    match talk.Asks()
    case TakeState(slot) => StateAnswer(p, f, a, k, talk, ins, taken, slots, slot);
    case PutState(slot, v) =>
      if talk.node.stateful {
        TracksNext(talk, taken, slots, Stored, taken, slots[StateKey(talk.id, slot) := v]);
      }
    case OutputWanted(i) =>
      WantedIs(p, a, SocketId(talk.id, i));
      TracksNext(talk, taken, slots, Flag(p.Wanted(SocketId(talk.id, i))), taken, slots);
    case InputConnected(i) => TracksNext(talk, taken, slots, Flag(SocketId(talk.id, i) in p.g.edges), taken, slots);
    case Input(i) => InputAnswer(p, f, a, k, talk, ins, taken, slots, i);
    case TakeInput(i) => InputAnswer(p, f, a, k, talk, ins, taken, slots, i);
    case _ =>
  }

  lemma StateAnswer(p: Plan, f: Frame, a: Account, k: nat, talk: Talk, ins: seq<Option<Value>>, taken: set<nat>,
      slots: State, slot: string)
    requires Asking(p, f, a, k, talk) && Tracks(talk, taken, slots) && talk.Asks() == TakeState(slot)
    ensures match p.Answer(k, f, ins, talk.heard, taken, slots)
      case Go(reply, taken', slots') =>
        && a.Fair(talk, reply) && (forall other: Reply :: a.Fair(talk, other) ==> other == reply)
        && Tracks(talk.And(reply), taken', slots')
      case Stop(Ok(_)) => false
      case Stop(Err(e)) => a.Refused(talk, e) && forall other: Reply :: !a.Fair(talk, other)
  {
    hide Plan.Valid;
    assert talk.heard[..|talk.heard|] == talk.heard;
    var key := StateKey(talk.id, slot);
    assert talk.Holds(slot, InSlot(slots, key));
    forall other: Reply | a.Fair(talk, other) ensures other == Slot(InSlot(slots, key)) {
      talk.HoldsOne(slot, other.found, InSlot(slots, key));
    }
    TracksNext(talk, taken, slots, Slot(InSlot(slots, key)), taken, slots - {key});
    assert key !in slots ==> slots - {key} == slots;
  }

  lemma InputAnswer(p: Plan, f: Frame, a: Account, k: nat, talk: Talk, ins: seq<Option<Value>>, taken: set<nat>,
      slots: State, i: nat)
    requires Asking(p, f, a, k, talk) && Tracks(talk, taken, slots) && Fed(a, talk.id, ins)
    requires talk.Asks() == Input(i) || talk.Asks() == TakeInput(i)
    ensures match p.Answer(k, f, ins, talk.heard, taken, slots)
      case Go(reply, taken', slots') =>
        && a.Fair(talk, reply) && (forall other: Reply :: a.Fair(talk, other) ==> other == reply)
        && Tracks(talk.And(reply), taken', slots')
      case Stop(Ok(_)) => false
      case Stop(Err(e)) => a.Refused(talk, e) && forall other: Reply :: !a.Fair(talk, other)
  {
    hide Plan.Valid;
    assert talk.heard[..|talk.heard|] == talk.heard;
    assert i in taken <==> talk.Took(i);
    if i !in taken && SocketId(talk.id, i) in a.g.edges {
      TracksNext(talk, taken, slots, Lent(ins[i].value), if talk.Asks().TakeInput? then taken + {i} else taken, slots);
    }
  }

  // ------------------------------------------------------------ one node

  ghost predicate AllSlots(talk: Talk, slots: State) {
    && (forall key <- slots :: key.node == talk.id)
    && forall slot: string :: talk.Holds(slot, InSlot(slots, StateKey(talk.id, slot)))
  }

  lemma FairNext(a: Account, talk: Talk, reply: Reply)
    requires a.AllFair(talk) && a.Fair(talk, reply)
    ensures a.AllFair(talk.And(reply))
  {
    var next, n := talk.And(reply), |talk.heard|;
    forall m: nat | m < |next.heard| ensures a.Fair(next.Until(m), next.heard[m]) {
      assert next.heard[..m] == talk.heard[..m];
      assert talk.heard[..n] == talk.heard;
    }
  }

  /** From any point of an `eval`: what is still said is fair, up to where the
      plain meaning returns or is refused. */
  lemma {:induction false} Conversation(p: Plan, f: Frame, a: Account, k: nat, talk: Talk, ins: seq<Option<Value>>,
      taken: set<nat>, slots: State)
    returns (end: Talk)
    requires Asking(p, f, a, k, talk) && Tracks(talk, taken, slots) && Fed(a, talk.id, ins) && a.AllFair(talk)
    ensures end == talk.(heard := end.heard) && talk.heard <= end.heard && a.AllFair(end)
    ensures match p.Conclude(k, f, ins, talk.heard, taken, slots)
      case Ok(done) => end.Asks() == Return(done.0) && AllSlots(end, done.1)
      case Err(e) => a.Refused(end, e) && !end.Asks().Return?
    decreases if |talk.heard| < p.NodeAt(k).limit then p.NodeAt(k).limit - |talk.heard| else 0
  {
    assert p.NodeAt(k).WellFormed();
    AnswerIsFair(p, f, a, k, talk, ins, taken, slots);
    assert talk.heard[..|talk.heard|] == talk.heard;
    match p.Answer(k, f, ins, talk.heard, taken, slots)
    case Stop(_) => end := talk;
    case Go(reply, taken', slots') =>
      FairNext(a, talk, reply);
      end := Conversation(p, f, a, k, talk.And(reply), ins, taken', slots');
  }

  /** Fair answers are the plain meaning's, so it ends where they do. */
  lemma {:induction false} Retold(p: Plan, f: Frame, a: Account, k: nat, end: Talk, m: nat, ins: seq<Option<Value>>,
      taken: set<nat>, slots: State)
    requires m <= |end.heard| && Asking(p, f, a, k, end.Until(m)) && Fed(a, end.id, ins) && a.AllFair(end)
    requires Tracks(end.Until(m), taken, slots) && end.Asks().Return?
    ensures var done := p.Conclude(k, f, ins, end.heard[..m], taken, slots);
      done.Ok? && end.Asks() == Return(done.value.0) && AllSlots(end, done.value.1)
    decreases |end.heard| - m
  {
    assert p.NodeAt(k).WellFormed();
    AnswerIsFair(p, f, a, k, end.Until(m), ins, taken, slots);
    assert end.heard[..m][..m] == end.heard[..m];
    if m == |end.heard| {
      assert end.heard[..m] == end.heard;
    } else {
      assert a.Fair(end.Until(m), end.heard[m]);
      assert end.heard[..m] + [end.heard[m]] == end.heard[..m + 1];
      match p.Answer(k, f, ins, end.heard[..m], taken, slots) {
        case Go(reply, taken', slots') => Retold(p, f, a, k, end, m + 1, ins, taken', slots');
        case Stop(_) =>
      }
    }
  }

  function Opening(p: Plan, f: Frame, k: nat): Talk
    requires k < |p.order| && p.order[k] < |p.g.nodes|
  {
    Talk(p.order[k], p.NodeAt(k), f.time, f.dims, f.state, [])
  }

  lemma OpeningTracks(p: Plan, f: Frame, k: nat)
    requires k < |p.order| && p.order[k] < |p.g.nodes|
    ensures Tracks(Opening(p, f, k), {}, Local(f.state, p.order[k]))
  {
    Opening(p, f, k).NothingHeard();
  }

  // ------------------------------------------------------------ a whole evaluation

  /** The account's nodes up to the `n`-th of the plan return what the plain
      meaning says. */
  ghost predicate Matches(p: Plan, f: Frame, a: Account, n: nat) {
    && p.Valid() && n <= |p.order| && p.AllFine(f, n)
    && a.g == p.g && a.result == p.result && a.extras == p.extras
    && a.time == f.time && a.dims == f.dims && a.before == f.state
    && (forall id: NodeId :: id in a.outputs <==> id in p.order)
    && (forall k: nat :: k < n ==> a.outputs[p.order[k]] == p.Denote(k, f).value.0)
  }

  lemma InputsAreFed(p: Plan, f: Frame, a: Account, k: nat)
    requires Matches(p, f, a, k) && k < |p.order|
    ensures p.Gather(k, f, |p.NodeAt(k).inputs|).Ok?
    ensures Fed(a, p.order[k], p.Gather(k, f, |p.NodeAt(k).inputs|).value)
  {
    var n, id := |p.NodeAt(k).inputs|, p.order[k];
    p.GatherFine(k, f, n);
    var ins := p.Gather(k, f, n).value;
    forall i: nat
      ensures if SocketId(id, i) in a.g.edges then
          i < |ins| && ins[i].Some? && a.Gives(a.g.edges[SocketId(id, i)], ins[i].value)
        else i < |ins| ==> ins[i].None?
    {
      var to := SocketId(id, i);
      if to in p.g.edges {
        assert i < n;
        SourceGives(p, f, a, k, to);
      }
    }
  }

  lemma SourceGives(p: Plan, f: Frame, a: Account, k: nat, to: SocketId)
    requires Matches(p, f, a, k) && k < |p.order| && to in p.g.edges && to.node == p.order[k]
    ensures p.g.edges[to].node in p.order && p.Denote(IndexOf(p.order, p.g.edges[to].node), f).Ok?
    ensures p.g.edges[to].index < |p.g.nodes[p.g.edges[to].node].outputs|
    ensures a.Gives(p.g.edges[to], p.Out(p.g.edges[to], f))
  {
    hide Plan.Denote;
    var src := p.g.edges[to];
    p.SourceBefore(k, to);
    var j := IndexOf(p.order, src.node);
    assert j < k && p.order[j] == src.node;
  }

  /** A node whose sources are fine: what it is told, and where that ends. */
  lemma NodeTold(p: Plan, f: Frame, a: Account, k: nat) returns (end: Talk)
    requires Matches(p, f, a, k) && k < |p.order|
    ensures end == Opening(p, f, k).(heard := end.heard) && a.AllFair(end)
    ensures match p.Denote(k, f)
      case Ok(done) => end.Asks() == Return(done.0) && AllSlots(end, done.1)
      case Err(e) => a.Refused(end, e) && !end.Asks().Return?
  {
    InputsAreFed(p, f, a, k);
    OpeningTracks(p, f, k);
    var ins := p.Gather(k, f, |p.NodeAt(k).inputs|).value;
    end := Conversation(p, f, a, k, Opening(p, f, k), ins, {}, Local(f.state, p.order[k]));
  }

  /** A node told fairly does what the plain meaning says. */
  lemma NodeRetold(p: Plan, f: Frame, a: Account, k: nat)
    requires Matches(p, f, a, k) && k < |p.order| && a.Ran(p.order[k]) && a.Honest(p.order[k])
    ensures p.Denote(k, f).Ok? && a.outputs[p.order[k]] == p.Denote(k, f).value.0
    ensures AllSlots(a.TalkOf(p.order[k]), p.Denote(k, f).value.1)
  {
    InputsAreFed(p, f, a, k);
    OpeningTracks(p, f, k);
    var ins, end := p.Gather(k, f, |p.NodeAt(k).inputs|).value, a.TalkOf(p.order[k]);
    assert end.heard[..0] == [];
    Retold(p, f, a, k, end, 0, ins, {}, Local(f.state, p.order[k]));
  }

  lemma {:induction false} AllRetold(p: Plan, f: Frame, a: Account, n: nat)
    requires Matches(p, f, a, 0) && n <= |p.order|
    requires forall id <- p.order :: a.Ran(id) && a.Honest(id)
    ensures Matches(p, f, a, n)
  {
    hide Plan.Denote; hide Plan.Valid;
    if n > 0 {
      AllRetold(p, f, a, n - 1);
      assert p.order[n - 1] in p.order;
      NodeRetold(p, f, a, n - 1);
    }
  }

  /** An account of what `p` asks for, from this frame. */
  ghost predicate About(p: Plan, f: Frame, a: Account) {
    && a.g == p.g && a.result == p.result && a.extras == p.extras
    && a.time == f.time && a.dims == f.dims && a.before == f.state
    && (forall id: NodeId :: id in a.outputs <==> id in p.order)
  }

  ghost predicate Explained(p: Plan, f: Frame, value: Value, values: seq<Value>, after: State) {
    exists a: Account :: About(p, f, a) && a.Explains(value, values, after)
  }

  lemma IndexOfOrder(p: Plan, k: nat)
    requires p.Valid() && k < |p.order|
    ensures IndexOf(p.order, p.order[k]) == k
  {
  }

  /** What every node returns. */
  ghost function Returned(p: Plan, f: Frame): (outputs: map<NodeId, seq<Value>>)
    requires p.Valid() && p.AllFine(f, |p.order|)
    ensures forall id: NodeId :: id in outputs <==> id in p.order
    ensures forall k: nat :: k < |p.order| ==> outputs[p.order[k]] == p.Denote(k, f).value.0
  {
    var outputs := map id | id in p.order :: p.Denote(IndexOf(p.order, id), f).value.0;
    assert forall k: nat {:trigger p.order[k]} :: k < |p.order| ==>
      outputs[p.order[k]] == p.Denote(k, f).value.0
    by {
      forall k: nat | k < |p.order| ensures outputs[p.order[k]] == p.Denote(k, f).value.0 {
        IndexOfOrder(p, k);
        assert p.order[k] in p.order;
      }
    }
    outputs
  }

  ghost predicate WellTold(p: Plan, f: Frame, a: Account, k: nat, heard: seq<Reply>)
    requires p.Valid() && k < |p.order| && p.AllFine(f, |p.order|)
  {
    var end := Opening(p, f, k).(heard := heard);
    a.AllFair(end) && end.Asks() == Return(p.Denote(k, f).value.0) && AllSlots(end, p.Denote(k, f).value.1)
  }

  lemma {:induction false} HearAll(p: Plan, f: Frame, a: Account, n: nat) returns (heard: map<NodeId, seq<Reply>>)
    requires Matches(p, f, a, |p.order|) && n <= |p.order|
    ensures forall id: NodeId :: id in heard <==> id in p.order[..n]
    ensures forall k: nat :: k < n ==> p.order[k] in heard && WellTold(p, f, a, k, heard[p.order[k]])
  {
    hide Plan.Denote; hide WellTold;
    if n == 0 {
      heard := map[];
    } else {
      var k := n - 1;
      heard := HearAll(p, f, a, k);
      var one := HearOne(p, f, a, k);
      assert p.order[..n] == p.order[..k] + [p.order[k]];
      assert forall j: nat :: j < k ==> p.order[j] != p.order[k];
      heard := heard[p.order[k] := one];
    }
  }

  lemma HearOne(p: Plan, f: Frame, a: Account, k: nat) returns (heard: seq<Reply>)
    requires Matches(p, f, a, |p.order|) && k < |p.order|
    ensures WellTold(p, f, a, k, heard)
  {
    hide Plan.Denote;
    assert Matches(p, f, a, k);
    var end := NodeTold(p, f, a, k);
    heard := end.heard;
  }

  lemma FairWhatever(a: Account, talk: Talk, heard: map<NodeId, seq<Reply>>)
    requires a.AllFair(talk)
    ensures a.(heard := heard).AllFair(talk)
  {
    var b := a.(heard := heard);
    forall m: nat | m < |talk.heard| ensures b.Fair(talk.Until(m), talk.heard[m]) {
      assert a.Fair(talk.Until(m), talk.heard[m]);
      assert forall s: SocketId :: a.Reads(s) == b.Reads(s);
    }
  }

  /** The slots after the frame, node by node. */
  lemma SlotsAfter(p: Plan, f: Frame, id: NodeId)
    requires p.Valid() && p.AllFine(f, |p.order|)
    ensures Local(p.StateAfter(f, |p.order|), id)
      == if id in p.order then p.Denote(IndexOf(p.order, id), f).value.1 else Local(f.state, id)
  {
    hide Plan.Denote; hide Plan.Valid;
    assert p.order[..|p.order|] == p.order;
    if id in p.order {
      LocalAfter(p, f, |p.order|, IndexOf(p.order, id));
    } else {
      p.StateUntouched(f, |p.order|, id);
    }
  }

  lemma KeptLocal(m: State, id: NodeId, slot: string)
    ensures InSlot(Local(m, id), StateKey(id, slot)) == InSlot(m, StateKey(id, slot))
  {
  }

  /** An account of a frame in which every node is fine. */
  lemma Telling(p: Plan, f: Frame) returns (a: Account)
    requires p.Valid() && p.AllFine(f, |p.order|)
    ensures About(p, f, a) && Matches(p, f, a, |p.order|) && a.heard.Keys == a.outputs.Keys
    ensures forall id <- a.outputs.Keys :: a.Ran(id) && a.Honest(id)
    ensures forall id: NodeId, slot: string :: a.SlotEnds(p.StateAfter(f, |p.order|), id, slot)
  {
    hide Plan.Denote; hide Plan.StateAfter; hide WellTold; hide Account.Honest; hide Account.SlotEnds; hide Plan.Valid;
    var blank := Account(p.g, p.result, p.extras, f.time, f.dims, f.state, Returned(p, f), map[]);
    var heard := HearAll(p, f, blank, |p.order|);
    assert p.order[..|p.order|] == p.order;
    a := blank.(heard := heard);
    forall id | id in p.order ensures a.Ran(id) && a.Honest(id) { HonestNode(p, f, blank, heard, id); }
    forall id: NodeId, slot: string ensures a.SlotEnds(p.StateAfter(f, |p.order|), id, slot) {
      EndsSo(p, f, blank, heard, id, slot);
    }
  }

  /** What the plain meaning yields has an account. */
  lemma ExpectedIsExplained(p: Plan, f: Frame)
    requires p.Valid() && p.Expected(f).Ok?
    ensures var r := p.Expected(f).value; Explained(p, f, r.0, r.1, r.2)
  {
    hide Plan.Denote; hide Plan.StateAfter; hide Account.Honest; hide Account.SlotEnds; hide Plan.Valid;
    hide Plan.Readers; hide Account.Gives; hide Account.Reads; hide Plan.Out; hide Account.TalkOf; hide Account.Ran;
    NamedInOrder(p);
    var a := Telling(p, f);
    WantedIs(p, a, p.result);
    GivesOut(p, f, a, p.result);
    forall i | 0 <= i < |p.extras| ensures a.Gives(p.extras[i], p.Out(p.extras[i], f)) {
      GivesOut(p, f, a, p.extras[i]);
    }
    assert a.Explains(p.Out(p.result, f), p.Outs(f, |p.extras|), p.StateAfter(f, |p.order|));
  }

  lemma NamedInOrder(p: Plan)
    requires p.Valid()
    ensures p.result.node in p.order
    ensures forall s <- p.extras :: s.node in p.order && s.node < |p.g.nodes| && s.index < |p.g.nodes[s.node].outputs|
    ensures forall k :: 0 <= k < |p.order| ==> p.order[k] < |p.g.nodes|
  {
  }

  lemma GivesOut(p: Plan, f: Frame, a: Account, s: SocketId)
    requires Matches(p, f, a, |p.order|) && s.node in p.order && s.index < |p.g.nodes[s.node].outputs|
    ensures a.Gives(s, p.Out(s, f))
  {
    hide Plan.Denote;
    assert p.order[IndexOf(p.order, s.node)] == s.node;
  }

  lemma HonestNode(p: Plan, f: Frame, blank: Account, heard: map<NodeId, seq<Reply>>, id: NodeId)
    requires Matches(p, f, blank, |p.order|) && id in p.order
    requires id in heard && WellTold(p, f, blank, IndexOf(p.order, id), heard[id])
    ensures var a := blank.(heard := heard); a.Ran(id) && a.Honest(id)
  {
    hide Plan.Denote;
    FairWhatever(blank, Opening(p, f, IndexOf(p.order, id)).(heard := heard[id]), heard);
  }

  lemma EndsSo(p: Plan, f: Frame, blank: Account, heard: map<NodeId, seq<Reply>>, id: NodeId, slot: string)
    requires Matches(p, f, blank, |p.order|) && (id in p.order <==> id in heard)
    requires id in p.order ==> WellTold(p, f, blank, IndexOf(p.order, id), heard[id])
    ensures blank.(heard := heard).SlotEnds(p.StateAfter(f, |p.order|), id, slot)
  {
    hide Plan.Denote; hide Plan.StateAfter;
    SlotsAfter(p, f, id);
    KeptLocal(p.StateAfter(f, |p.order|), id, slot);
    KeptLocal(f.state, id, slot);
  }

  /** What has an account is what the plain meaning yields. */
  lemma ExplainedIsExpected(p: Plan, f: Frame, a: Account, value: Value, values: seq<Value>, after: State)
    requires p.Valid() && About(p, f, a) && a.Explains(value, values, after)
    ensures p.Expected(f) == Ok((value, values, after))
  {
    hide Plan.Denote; hide Plan.StateAfter; hide Account.Honest; hide Account.SlotEnds; hide Plan.Readers;
    hide Account.Gives; hide Account.Reads; hide Plan.Out; hide Plan.Valid;
    NamedInOrder(p);
    AllRetold(p, f, a, |p.order|);
    WantedIs(p, a, p.result);
    GivesOnly(p, f, a, p.result, value);
    assert p.ResultUnread();
    assert p.Expected(f).Ok?;
    forall i | 0 <= i < |p.extras| ensures values[i] == p.Out(p.extras[i], f) {
      GivesOnly(p, f, a, p.extras[i], values[i]);
    }
    assert values == p.Outs(f, |p.extras|);
    forall key: StateKey ensures InSlot(after, key) == InSlot(p.StateAfter(f, |p.order|), key) {
      EndsOnlySo(p, f, a, after, key.node, key.slot);
    }
    KeptDecides(after, p.StateAfter(f, |p.order|));
  }

  lemma GivesOnly(p: Plan, f: Frame, a: Account, s: SocketId, v: Value)
    requires Matches(p, f, a, |p.order|) && a.Gives(s, v)
    ensures s.node in p.order && s.index < |p.g.nodes[s.node].outputs| && v == p.Out(s, f)
  {
    hide Plan.Denote;
    assert p.order[IndexOf(p.order, s.node)] == s.node;
  }

  lemma EndsOnlySo(p: Plan, f: Frame, a: Account, after: State, id: NodeId, slot: string)
    requires Matches(p, f, a, |p.order|) && a.SlotEnds(after, id, slot)
    requires forall id <- p.order :: a.Ran(id) && a.Honest(id)
    ensures InSlot(after, StateKey(id, slot)) == InSlot(p.StateAfter(f, |p.order|), StateKey(id, slot))
  {
    hide Plan.Denote; hide Plan.StateAfter; hide Talk.Holds;
    SlotsAfter(p, f, id);
    KeptLocal(p.StateAfter(f, |p.order|), id, slot);
    KeptLocal(f.state, id, slot);
    if id in p.order {
      var k := IndexOf(p.order, id);
      assert Matches(p, f, a, k);
      NodeRetold(p, f, a, k);
      var key := StateKey(id, slot);
      a.TalkOf(id).HoldsOne(slot, InSlot(after, key), InSlot(p.Denote(k, f).value.1, key));
    }
  }

  lemma KeptDecides(a: State, b: State)
    requires forall key: StateKey :: InSlot(a, key) == InSlot(b, key)
    ensures a == b
  {
    forall key: StateKey
      ensures key in a <==> key in b
      ensures key in a ==> a[key] == b[key]
    {
      assert InSlot(a, key) == InSlot(b, key);
    }
  }

  /** The plain meaning, without its own words: it yields these values and
      these slots exactly when every node that ran can have been told the truth,
      call by call, and ended so. */
  lemma ExpectedExactly(p: Plan, f: Frame, value: Value, values: seq<Value>, after: State)
    requires p.Valid()
    ensures p.Expected(f) == Ok((value, values, after)) <==> Explained(p, f, value, values, after)
  {
    hide Plan.Expected; hide Plan.Valid;
    if p.Expected(f) == Ok((value, values, after)) { ExpectedIsExplained(p, f); }
    if Explained(p, f, value, values, after) {
      var a: Account :| About(p, f, a) && a.Explains(value, values, after);
      ExplainedIsExpected(p, f, a, value, values, after);
    }
  }

  /** A node that fails is refused a call, or reports the failure itself. */
  lemma FailureIsRefusal(p: Plan, f: Frame, a: Account, k: nat)
    requires Matches(p, f, a, k) && k < |p.order| && p.Denote(k, f).Err?
    ensures exists end: Talk ::
      end == Opening(p, f, k).(heard := end.heard) && a.AllFair(end) && a.Refused(end, p.Denote(k, f).error)
  {
    var end := NodeTold(p, f, a, k);
  }
}
