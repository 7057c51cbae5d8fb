/** What one evaluation means: each needed node's outputs, by recursion on the
    graph, with no sharing, no use counts and no textures. */
module Plans {
  import opened Values
  import opened Graphs

  function IndexOf<T(==)>(s: seq<T>, x: T): (i: nat)
    requires x in s
    ensures i < |s| && s[i] == x
  {
    if s[0] == x then 0 else 1 + IndexOf(s[1..], x)
  }

  /** The part of a state that belongs to one node. */
  function Local(m: State, id: NodeId): State {
    map key | key in m && key.node == id :: m[key]
  }

  /** The part that does not. */
  function Others(m: State, id: NodeId): State {
    map key | key in m && key.node != id :: m[key]
  }

  function Replace(m: State, id: NodeId, local: State): State {
    Others(m, id) + local
  }

  lemma ReplaceElsewhere(m: State, id: NodeId, local: State, other: NodeId)
    requires other != id && forall key :: key in local ==> key.node == id
    ensures Local(Replace(m, id, local), other) == Local(m, other)
  {
  }

  /** An error raised where no position was known names the node being
      evaluated instead. */
  function WithEvaluatingNode(e: NodeError, id: NodeId): NodeError {
    if e.TypeMismatch? && e.node == 0xFFFF_FFFF then TypeMismatch(id, e.index, e.expected) else e
  }

  /** A call that ends an `eval`, or its answer and what it changes. */
  datatype Next = Stop(result: Result<(seq<Value>, State), NodeError>) | Go(reply: Reply, taken: set<nat>, slots: State)

  datatype Frame = Frame(time: Time, dims: Dims, state: State)

  /** A graph, the nodes that will run in dependency order, the result socket
      and the extra sockets to hand back. */
  datatype Plan = Plan(g: Dag, order: seq<NodeId>, result: SocketId, extras: seq<SocketId>) {

    ghost predicate Valid() {
      && g.Wired()
      && (forall id :: 0 <= id < |g.nodes| ==> g.nodes[id].WellFormed())
      && (forall k :: 0 <= k < |order| ==> order[k] < |g.nodes|)
      && g.SourcesFirst(order)
      && result.node in order
      && (forall i, j :: 0 <= i < j < |extras| ==> extras[i] != extras[j])
      && (forall s <- extras :: s.node in order && s.index < |g.nodes[s.node].outputs|)
    }

    /** The input sockets of needed nodes that read `s`. */
    function Readers(s: SocketId): set<SocketId> {
      set to | to in g.edges && to.node in order && g.edges[to] == s
    }

    /** Whether anything will use output `s`: a reader, an extra, the result. */
    predicate Wanted(s: SocketId) {
      s == result || s in extras || Readers(s) != {}
    }

    function NodeAt(k: nat): Node
      requires k < |order| && order[k] < |g.nodes|
    {
      g.nodes[order[k]]
    }

    /** How the call node `k` makes after hearing `h` is answered, given its
        inputs, the inputs it already took, and its own state slots. */
    function Answer(k: nat, f: Frame, ins: seq<Option<Value>>, h: seq<Reply>, taken: set<nat>, slots: State): Next
      requires k < |order| && order[k] < |g.nodes|
    {
      var id, n := order[k], NodeAt(k);
      match n.strategy(f.time, f.dims, h)
      case Return(outputs) => Stop(Ok((outputs, slots)))
      case Fail(e) => Stop(Err(WithEvaluatingNode(e, id)))
      case InputConnected(i) => Go(Flag(SocketId(id, i) in g.edges), taken, slots)
      case Input(i) =>
        if i in taken then Stop(Err(InputAlreadyTaken(id, i)))
        else if i < |ins| && ins[i].Some? then Go(Lent(ins[i].value), taken, slots)
        else Stop(Err(MissingInput(id, i)))
      case TakeInput(i) =>
        if i in taken then Stop(Err(InputAlreadyTaken(id, i)))
        else if i < |ins| && ins[i].Some? then Go(Lent(ins[i].value), taken + {i}, slots)
        else Stop(Err(MissingInput(id, i)))
      case OutputWanted(i) => Go(Flag(Wanted(SocketId(id, i))), taken, slots)
      case TakeState(slot) =>
        var key := StateKey(id, slot);
        if !n.stateful then Stop(Err(NotStateful(id)))
        else if key !in slots then Go(Slot(None), taken, slots)
        else if !slots[key].Fits(f.dims) then Stop(Err(StateShape(id, slot)))
        else Go(Slot(Some(slots[key])), taken, slots - {key})
      case PutState(slot, v) =>
        if !n.stateful then Stop(Err(NotStateful(id)))
        else Go(Stored, taken, slots[StateKey(id, slot) := v])
    }

    /** Node `k`'s `eval` from the point where it has heard `h`. */
    ghost function Conclude(k: nat, f: Frame, ins: seq<Option<Value>>, h: seq<Reply>, taken: set<nat>, slots: State)
      : (r: Result<(seq<Value>, State), NodeError>)
      requires Valid() && k < |order|
      ensures r.Ok? ==> |r.value.0| == |NodeAt(k).outputs|
      decreases if |h| < NodeAt(k).limit then NodeAt(k).limit - |h| else 0
    {
      assert NodeAt(k).WellFormed();
      match Answer(k, f, ins, h, taken, slots)
      case Stop(r) => r
      case Go(reply, taken', slots') => Conclude(k, f, ins, h + [reply], taken', slots')
    }

    /** What node `order[k]` computes for this frame: its outputs and its state
        afterwards, or the error that stops it or one of its sources. */
    ghost function Denote(k: nat, f: Frame): (r: Result<(seq<Value>, State), NodeError>)
      requires Valid() && k < |order|
      ensures r.Ok? ==> |r.value.0| == |NodeAt(k).outputs|
      decreases k, 1, 0
    {
      var ins := Gather(k, f, |NodeAt(k).inputs|);
      if ins.Err? then Err(ins.error) else Conclude(k, f, ins.value, [], {}, Local(f.state, order[k]))
    }

    /** The first `n` inputs of node `order[k]`. */
    ghost function Gather(k: nat, f: Frame, n: nat): (r: Result<seq<Option<Value>>, NodeError>)
      requires Valid() && k < |order| && n <= |NodeAt(k).inputs|
      ensures r.Ok? ==> |r.value| == n
      decreases k, 0, n
    {
      if n == 0 then Ok([]) else
        var rest := Gather(k, f, n - 1);
        var to := SocketId(order[k], n - 1);
        if rest.Err? then rest
        else if to !in g.edges then Ok(rest.value + [None])
        else
          var src := g.edges[to];
          assert g.Feeds(src.node, order[k]);
          var d := Denote(IndexOf(order[..k], src.node), f);
          if d.Err? then Err(d.error) else Ok(rest.value + [Some(d.value.0[src.index])])
    }

    /** The first `n` nodes all compute without error. */
    ghost predicate AllFine(f: Frame, n: nat)
      requires Valid() && n <= |order|
    {
      forall k :: 0 <= k < n ==> Denote(k, f).Ok?
    }

    /** The value of output socket `s`. */
    ghost function Out(s: SocketId, f: Frame): Value
      requires Valid() && s.node in order && s.index < |g.nodes[s.node].outputs|
      requires Denote(IndexOf(order, s.node), f).Ok?
    {
      Denote(IndexOf(order, s.node), f).value.0[s.index]
    }

    /** The state once the first `n` nodes have run: each node replaces its own
        slots and touches no other. */
    ghost function StateAfter(f: Frame, n: nat): State
      requires Valid() && n <= |order| && AllFine(f, n)
    {
      if n == 0 then f.state
      else Replace(StateAfter(f, n - 1), order[n - 1], Denote(n - 1, f).value.1)
    }

    lemma {:induction false} StateUntouched(f: Frame, n: nat, id: NodeId)
      requires Valid() && n <= |order| && AllFine(f, n)
      requires id !in order[..n]
      ensures Local(StateAfter(f, n), id) == Local(f.state, id)
    {
      hide Plan.Valid; hide Plan.Denote; hide Replace; hide Local;
      if n > 0 {
        assert order[..n] == order[..n - 1] + [order[n - 1]];
        StateUntouched(f, n - 1, id);
        OwnSlots(n - 1, f);
        ReplaceElsewhere(StateAfter(f, n - 1), order[n - 1], Denote(n - 1, f).value.1, id);
      }
    }

    /** A node's slots stay its own. */
    lemma OwnSlots(k: nat, f: Frame)
      requires Valid() && k < |order| && Denote(k, f).Ok?
      ensures forall key :: key in Denote(k, f).value.1 ==> key.node == order[k]
    {
      var ins := Gather(k, f, |NodeAt(k).inputs|);
      OwnSlotsFrom(k, f, ins.value, [], {}, Local(f.state, order[k]));
    }

    lemma {:induction false} OwnSlotsFrom(k: nat, f: Frame, ins: seq<Option<Value>>, h: seq<Reply>, taken: set<nat>,
        slots: State)
      requires Valid() && k < |order| && Conclude(k, f, ins, h, taken, slots).Ok?
      requires forall key :: key in slots ==> key.node == order[k]
      ensures forall key :: key in Conclude(k, f, ins, h, taken, slots).value.1 ==> key.node == order[k]
      decreases if |h| < NodeAt(k).limit then NodeAt(k).limit - |h| else 0
    {
      assert NodeAt(k).WellFormed();
      match Answer(k, f, ins, h, taken, slots)
      case Stop(_) =>
      case Go(reply, taken', slots') => OwnSlotsFrom(k, f, ins, h + [reply], taken', slots');
    }

    lemma SourceBefore(k: nat, to: SocketId)
      requires Valid() && k < |order| && to in g.edges && to.node == order[k]
      ensures g.edges[to].node in order[..k]
      ensures IndexOf(order[..k], g.edges[to].node) == IndexOf(order, g.edges[to].node)
    {
      var src := g.edges[to].node;
      assert g.Feeds(src, order[k]);
      assert order[IndexOf(order[..k], src)] == src;
    }

    /** With the sources fine, an input is its source's output. */
    lemma {:induction false} GatherFine(k: nat, f: Frame, n: nat)
      requires Valid() && k < |order| && n <= |NodeAt(k).inputs| && AllFine(f, k)
      ensures Gather(k, f, n).Ok?
      ensures forall i {:trigger SocketId(order[k], i)} :: 0 <= i < n ==>
        var to := SocketId(order[k], i);
        var v := Gather(k, f, n).value[i];
        if to in g.edges then
          g.edges[to].node in order && Denote(IndexOf(order, g.edges[to].node), f).Ok? && v == Some(Out(g.edges[to], f))
        else v == None
    {
      hide Plan.Valid; hide Plan.Denote; hide Plan.Out; hide Plan.AllFine;
      if n > 0 {
        GatherFine(k, f, n - 1);
        GatherLast(k, f, n);
        hide Plan.Gather;
      }
    }

    lemma GatherLast(k: nat, f: Frame, n: nat)
      requires Valid() && k < |order| && 0 < n <= |NodeAt(k).inputs| && AllFine(f, k) && Gather(k, f, n - 1).Ok?
      ensures Gather(k, f, n).Ok? && Gather(k, f, n).value[..n - 1] == Gather(k, f, n - 1).value
      ensures var to, v := SocketId(order[k], n - 1), Gather(k, f, n).value[n - 1];
        if to in g.edges then
          g.edges[to].node in order && Denote(IndexOf(order, g.edges[to].node), f).Ok? && v == Some(Out(g.edges[to], f))
        else v == None
    {
      hide Plan.Denote;
      var to := SocketId(order[k], n - 1);
      if to in g.edges {
        SourceBefore(k, to);
        assert Denote(IndexOf(order, g.edges[to].node), f).Ok?;
      }
    }

    /** The error of the earliest of the first `n` nodes that fails. */
    ghost function FirstError(f: Frame, n: nat): (e: Option<NodeError>)
      requires Valid() && n <= |order|
      ensures e.None? <==> AllFine(f, n)
    {
      if n == 0 then None
      else if FirstError(f, n - 1).Some? then FirstError(f, n - 1)
      else if Denote(n - 1, f).Err? then Some(Denote(n - 1, f).error)
      else None
    }

    lemma {:induction false} FirstErrorStays(f: Frame, k: nat, n: nat)
      requires Valid() && k < n <= |order| && AllFine(f, k) && Denote(k, f).Err?
      ensures FirstError(f, n) == Some(Denote(k, f).error)
    {
      if k + 1 < n { FirstErrorStays(f, k, n - 1); }
    }

    /** Nothing that runs reads the result, and the caller does not also ask
        for it as an extra. */
    predicate ResultUnread() {
      Readers(result) == {} && result !in extras
    }

    /** What evaluating one frame yields when no GPU call fails: the result, the
        extras, and the state afterwards. */
    ghost function Expected(f: Frame): (r: Result<(Value, seq<Value>, State), NodeError>)
      requires Valid()
      ensures r.Ok? <==> AllFine(f, |order|) && ResultUnread() && result.index < |g.nodes[result.node].outputs|
    {
      var e := FirstError(f, |order|);
      if e.Some? then Err(e.value)
      else if result.index >= |g.nodes[result.node].outputs| then Err(UnknownNode(result.node))
      else if result in extras then Err(BadExtraOutput(result.node, result.index))
      else if Readers(result) != {} then Err(UnknownNode(result.node))
      else Ok((Out(result, f), Outs(f, |extras|), StateAfter(f, |order|)))
    }

    /** The plain meaning has no GPU to fail. */
    lemma NeverGpu(f: Frame)
      requires Valid()
      ensures Expected(f) != Err(Gpu)
    {
      FirstNeverGpu(f, |order|);
    }

    lemma {:induction false} FirstNeverGpu(f: Frame, n: nat)
      requires Valid() && n <= |order|
      ensures FirstError(f, n) != Some(Gpu)
    {
      if n > 0 {
        FirstNeverGpu(f, n - 1);
        NodeNeverGpu(f, n - 1);
      }
    }

    lemma {:induction false} NodeNeverGpu(f: Frame, k: nat)
      requires Valid() && k < |order|
      ensures Denote(k, f) != Err(Gpu)
      decreases k, 1, 0
    {
      var n := |NodeAt(k).inputs|;
      InputsNeverGpu(f, k, n);
      if Gather(k, f, n).Ok? { ConclusionNeverGpu(k, f, Gather(k, f, n).value, [], {}, Local(f.state, order[k])); }
    }

    lemma {:induction false} InputsNeverGpu(f: Frame, k: nat, n: nat)
      requires Valid() && k < |order| && n <= |NodeAt(k).inputs|
      ensures Gather(k, f, n) != Err(Gpu)
      decreases k, 0, n
    {
      if n > 0 {
        InputsNeverGpu(f, k, n - 1);
        var to := SocketId(order[k], n - 1);
        if to in g.edges {
          SourceBefore(k, to);
          NodeNeverGpu(f, IndexOf(order[..k], g.edges[to].node));
        }
      }
    }

    lemma {:induction false} ConclusionNeverGpu(k: nat, f: Frame, ins: seq<Option<Value>>, h: seq<Reply>,
        taken: set<nat>, slots: State)
      requires Valid() && k < |order|
      ensures Conclude(k, f, ins, h, taken, slots) != Err(Gpu)
      decreases if |h| < NodeAt(k).limit then NodeAt(k).limit - |h| else 0
    {
      assert NodeAt(k).WellFormed();
      match Answer(k, f, ins, h, taken, slots)
      case Stop(_) =>
      case Go(reply, taken', slots') => ConclusionNeverGpu(k, f, ins, h + [reply], taken', slots');
    }

    /** The values of the first `n` extras. */
    ghost function Outs(f: Frame, n: nat): (r: seq<Value>)
      requires Valid() && AllFine(f, |order|) && n <= |extras|
      ensures |r| == n && forall i :: 0 <= i < n ==> r[i] == Out(extras[i], f)
    {
      if n == 0 then [] else Outs(f, n - 1) + [Out(extras[n - 1], f)]
    }

    /** With no stateful node, the state makes no difference to the outcome. */
    lemma StatelessSame(f: Frame, state: State)
      requires Valid() && forall i :: 0 <= i < |g.nodes| ==> !g.nodes[i].stateful
      ensures var a, b := Expected(f), Expected(f.(state := state));
        && (a.Ok? <==> b.Ok?)
        && (a.Ok? ==> a.value.0 == b.value.0 && a.value.1 == b.value.1)
    {
      var f' := f.(state := state);
      forall k | 0 <= k < |order| ensures Denote(k, f).Ok? <==> Denote(k, f').Ok?
                                  ensures Denote(k, f).Ok? ==> Denote(k, f).value.0 == Denote(k, f').value.0
      {
        StatelessNode(f, f', k);
      }
      if Expected(f).Ok? { assert Outs(f, |extras|) == Outs(f', |extras|); }
    }

    lemma {:induction false} StatelessNode(f: Frame, f': Frame, k: nat)
      requires Valid() && k < |order| && f'.time == f.time && f'.dims == f.dims
      requires forall i :: 0 <= i < |g.nodes| ==> !g.nodes[i].stateful
      ensures Denote(k, f).Ok? <==> Denote(k, f').Ok?
      ensures Denote(k, f).Ok? ==> Denote(k, f).value.0 == Denote(k, f').value.0
      decreases k, 1, 0
    {
      var n := |NodeAt(k).inputs|;
      StatelessInputs(f, f', k, n);
      if Gather(k, f, n).Ok? {
        StatelessConclusion(f, f', k, Gather(k, f, n).value, [], {}, Local(f.state, order[k]),
          Local(f'.state, order[k]));
      }
    }

    lemma {:induction false} StatelessInputs(f: Frame, f': Frame, k: nat, n: nat)
      requires Valid() && k < |order| && n <= |NodeAt(k).inputs| && f'.time == f.time && f'.dims == f.dims
      requires forall i :: 0 <= i < |g.nodes| ==> !g.nodes[i].stateful
      ensures Gather(k, f, n).Ok? <==> Gather(k, f', n).Ok?
      ensures Gather(k, f, n).Ok? ==> Gather(k, f, n) == Gather(k, f', n)
      decreases k, 0, n
    {
      if n > 0 {
        StatelessInputs(f, f', k, n - 1);
        var to := SocketId(order[k], n - 1);
        if to in g.edges {
          SourceBefore(k, to);
          StatelessNode(f, f', IndexOf(order[..k], g.edges[to].node));
        }
      }
    }

    lemma {:induction false} StatelessConclusion(f: Frame, f': Frame, k: nat, ins: seq<Option<Value>>, h: seq<Reply>,
        taken: set<nat>, slots: State, slots': State)
      requires Valid() && k < |order| && f'.time == f.time && f'.dims == f.dims && !NodeAt(k).stateful
      ensures var a, b := Conclude(k, f, ins, h, taken, slots), Conclude(k, f', ins, h, taken, slots');
        && (a.Ok? <==> b.Ok?) && (a.Ok? ==> a.value.0 == b.value.0)
      decreases if |h| < NodeAt(k).limit then NodeAt(k).limit - |h| else 0
    {
      assert NodeAt(k).WellFormed();
      match Answer(k, f, ins, h, taken, slots)
      case Stop(_) =>
      case Go(reply, taken', _) => StatelessConclusion(f, f', k, ins, h + [reply], taken', slots, slots');
    }

    /** Another plan for the same graph and request, in another order. */
    ghost predicate Agrees(q: Plan) {
      && Valid() && q.Valid()
      && q.g == g && q.result == result && q.extras == extras
      && forall id: NodeId :: id in q.order <==> id in order
    }

    /** The dependency order makes no difference to what a node computes. */
    lemma {:induction false} SameMeaning(q: Plan, f: Frame, k: nat)
      requires Agrees(q) && k < |order|
      ensures Denote(k, f) == q.Denote(IndexOf(q.order, order[k]), f)
      decreases k, 1, 0
    {
      var j := IndexOf(q.order, order[k]);
      SameInputs(q, f, k, |NodeAt(k).inputs|);
      var ins := Gather(k, f, |NodeAt(k).inputs|);
      if ins.Ok? { SameConclusion(q, f, k, ins.value, [], {}, Local(f.state, order[k])); }
    }

    lemma {:induction false} SameInputs(q: Plan, f: Frame, k: nat, n: nat)
      requires Agrees(q) && k < |order| && n <= |NodeAt(k).inputs|
      ensures Gather(k, f, n) == q.Gather(IndexOf(q.order, order[k]), f, n)
      decreases k, 0, n
    {
      hide Plan.Valid; hide Plan.Denote; hide Plan.NodeAt;
      if n > 0 {
        SameInputs(q, f, k, n - 1);
        var to := SocketId(order[k], n - 1);
        if to in g.edges {
          SourceBefore(k, to);
          q.SourceBefore(IndexOf(q.order, order[k]), to);
          SameMeaning(q, f, IndexOf(order[..k], g.edges[to].node));
        }
      }
    }

    lemma {:induction false} SameConclusion(q: Plan, f: Frame, k: nat, ins: seq<Option<Value>>, h: seq<Reply>,
        taken: set<nat>, slots: State)
      requires Agrees(q) && k < |order|
      ensures Conclude(k, f, ins, h, taken, slots) == q.Conclude(IndexOf(q.order, order[k]), f, ins, h, taken, slots)
      decreases if |h| < NodeAt(k).limit then NodeAt(k).limit - |h| else 0
    {
      assert NodeAt(k).WellFormed();
      var j := IndexOf(q.order, order[k]);
      forall s: SocketId ensures Wanted(s) == q.Wanted(s) {
        assert Readers(s) == q.Readers(s);
      }
      assert Answer(k, f, ins, h, taken, slots) == q.Answer(j, f, ins, h, taken, slots);
      match Answer(k, f, ins, h, taken, slots)
      case Stop(_) =>
      case Go(reply, taken', slots') => SameConclusion(q, f, k, ins, h + [reply], taken', slots');
    }
  }

  lemma LocalReplace(m: State, id: NodeId, local: State, other: NodeId)
    requires forall key :: key in local ==> key.node == id
    ensures Local(Replace(m, id, local), other) == if other == id then local else Local(m, other)
  {
  }

  lemma {:induction false} LocalAfter(p: Plan, f: Frame, n: nat, k: nat)
    requires p.Valid() && k < n <= |p.order| && p.AllFine(f, n)
    ensures Local(p.StateAfter(f, n), p.order[k]) == p.Denote(k, f).value.1
  {
    p.OwnSlots(n - 1, f);
    LocalReplace(p.StateAfter(f, n - 1), p.order[n - 1], p.Denote(n - 1, f).value.1, p.order[k]);
    if k < n - 1 { LocalAfter(p, f, n - 1, k); }
  }

  lemma LocalsDecide(a: State, b: State)
    requires forall id: NodeId :: Local(a, id) == Local(b, id)
    ensures a == b
  {
    forall key: StateKey
      ensures key in a <==> key in b
      ensures key in a ==> a[key] == b[key]
    {
      assert Local(a, key.node) == Local(b, key.node);
      assert key in a <==> key in Local(a, key.node);
      assert key in b <==> key in Local(b, key.node);
    }
  }

  lemma SameState(p: Plan, q: Plan, f: Frame)
    requires p.Agrees(q) && p.AllFine(f, |p.order|) && q.AllFine(f, |q.order|)
    ensures p.StateAfter(f, |p.order|) == q.StateAfter(f, |q.order|)
  {
    forall id: NodeId ensures Local(p.StateAfter(f, |p.order|), id) == Local(q.StateAfter(f, |q.order|), id) {
      if id in p.order {
        p.SameMeaning(q, f, IndexOf(p.order, id));
        LocalAfter(p, f, |p.order|, IndexOf(p.order, id));
        LocalAfter(q, f, |q.order|, IndexOf(q.order, id));
      } else {
        p.StateUntouched(f, |p.order|, id);
        q.StateUntouched(f, |q.order|, id);
      }
    }
    LocalsDecide(p.StateAfter(f, |p.order|), q.StateAfter(f, |q.order|));
  }

  lemma SameFine(p: Plan, q: Plan, f: Frame)
    requires p.Agrees(q) && p.AllFine(f, |p.order|)
    ensures q.AllFine(f, |q.order|)
  {
    assert q.Agrees(p);
    forall k | 0 <= k < |q.order| ensures q.Denote(k, f).Ok? { q.SameMeaning(p, f, k); }
  }

  lemma SameOut(p: Plan, q: Plan, f: Frame, s: SocketId)
    requires p.Agrees(q) && p.AllFine(f, |p.order|) && q.AllFine(f, |q.order|)
    requires s.node in p.order && s.index < |p.g.nodes[s.node].outputs|
    ensures p.Out(s, f) == q.Out(s, f)
  {
    p.SameMeaning(q, f, IndexOf(p.order, s.node));
  }

  /** What a frame yields does not depend on the order its nodes ran in; only
      which of several failures is reported does. */
  lemma OrderIndependent(p: Plan, q: Plan, f: Frame)
    requires p.Agrees(q)
    ensures p.Expected(f).Ok? <==> q.Expected(f).Ok?
    ensures p.Expected(f).Ok? ==> p.Expected(f) == q.Expected(f)
  {
    assert q.Agrees(p);
    assert p.Readers(p.result) == q.Readers(p.result);
    if p.AllFine(f, |p.order|) { SameFine(p, q, f); }
    if q.AllFine(f, |q.order|) { SameFine(q, p, f); }
    if p.Expected(f).Ok? {
      SameState(p, q, f);
      SameOut(p, q, f, p.result);
      forall i | 0 <= i < |p.extras| ensures p.Out(p.extras[i], f) == q.Out(p.extras[i], f) {
        SameOut(p, q, f, p.extras[i]);
      }
      assert p.Outs(f, |p.extras|) == q.Outs(f, |q.extras|);
    }
  }
}
