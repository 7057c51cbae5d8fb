/** The node graph's wiring and its two orders (elements-core `graph/mod.rs`). */
module Graphs {
  import opened Values

  /** Nodes, and for each connected input socket the output socket feeding it. */
  datatype Dag = Dag(nodes: seq<Node>, edges: map<SocketId, SocketId>) {

    ghost predicate Wired() {
      forall to <- edges ::
        && to.node < |nodes| && to.index < |nodes[to.node].inputs|
        && edges[to].node < |nodes| && edges[to].index < |nodes[edges[to].node].outputs|
    }

    /** Some input of `v` reads an output of `u`. */
    ghost predicate Feeds(u: NodeId, v: NodeId) {
      exists to :: to in edges && to.node == v && edges[to].node == u
    }

    /** The nodes feeding the first `n` inputs of `v`, in input order. */
    function Sources(v: NodeId, n: nat): (r: seq<NodeId>)
      ensures Wired() ==> forall u <- r :: u < |nodes| && Feeds(u, v)
    {
      if n == 0 then []
      else if SocketId(v, n - 1) in edges then Sources(v, n - 1) + [edges[SocketId(v, n - 1)].node]
      else Sources(v, n - 1)
    }

    /** A walk upstream: each node is followed by one that feeds it. */
    ghost predicate Walk(p: seq<NodeId>) {
      && |p| > 0
      && (forall i :: 0 <= i < |p| ==> p[i] < |nodes|)
      && (forall i :: 0 < i < |p| ==> Feeds(p[i], p[i - 1]))
    }

    ghost predicate OnCycle(id: NodeId) {
      exists p :: Walk(p) && |p| > 1 && p[0] == id && p[|p| - 1] == id
    }

    /** `id` is one of `roots`, or feeds one of them through some walk. */
    ghost predicate Upstream(roots: seq<NodeId>, id: NodeId) {
      exists p :: Walk(p) && p[0] in roots && p[|p| - 1] == id
    }

    /** No repeats, and every node's sources come before it. */
    ghost predicate SourcesFirst(order: seq<NodeId>) {
      && (forall i, j :: 0 <= i < j < |order| ==> order[i] != order[j])
      && (forall i, u :: 0 <= i < |order| && Feeds(u, order[i]) ==> u in order[..i])
    }

    lemma SourcesExact(u: NodeId, v: NodeId, n: nat)
      requires forall i: nat :: SocketId(v, i) in edges ==> i < n
      requires Feeds(u, v)
      ensures u in Sources(v, n)
    {
      var to :| to in edges && to.node == v && edges[to].node == u;
      SourcesHave(v, n, to.index);
    }

    lemma {:induction false} SourcesHave(v: NodeId, n: nat, i: nat)
      requires i < n && SocketId(v, i) in edges
      ensures edges[SocketId(v, i)].node in Sources(v, n)
    {
      if i < n - 1 { SourcesHave(v, n - 1, i); }
    }

    /** Along a walk inside a sources-first order, positions only go down. */
    lemma {:induction false} WalkDescends(order: seq<NodeId>, p: seq<NodeId>, i: nat)
      requires SourcesFirst(order) && Walk(p)
      requires i < |order| && p[0] == order[i]
      ensures p[|p| - 1] in order[..i + 1]
      ensures |p| > 1 ==> p[|p| - 1] in order[..i]
      decreases |p|
    {
      if |p| > 1 {
        assert Feeds(p[1], p[0]);
        var j :| 0 <= j < i && order[j] == p[1];
        assert Walk(p[1..]) by {
          forall k | 0 < k < |p[1..]| ensures Feeds(p[1..][k], p[1..][k - 1]) { assert Feeds(p[k + 1], p[k]); }
        }
        WalkDescends(order, p[1..], j);
      }
    }

    /** A sources-first order of every node leaves no room for a cycle. */
    lemma OrderedIsAcyclic(order: seq<NodeId>, id: NodeId)
      requires SourcesFirst(order) && id in order
      ensures !OnCycle(id)
    {
      if OnCycle(id) {
        var p :| Walk(p) && |p| > 1 && p[0] == id && p[|p| - 1] == id;
        var i :| 0 <= i < |order| && order[i] == id;
        WalkDescends(order, p, i);
        assert false;
      }
    }

    /** A set of nodes that holds the roots and every source of its members
        holds everything upstream. */
    lemma {:induction false} ClosedHoldsWalk(closed: set<NodeId>, p: seq<NodeId>)
      requires Walk(p) && p[0] in closed
      requires forall u, v :: v in closed && Feeds(u, v) ==> u in closed
      ensures p[|p| - 1] in closed
      decreases |p|
    {
      if |p| > 1 {
        assert Feeds(p[1], p[0]);
        assert Walk(p[1..]) by {
          forall k | 0 < k < |p[1..]| ensures Feeds(p[1..][k], p[1..][k - 1]) { assert Feeds(p[k + 1], p[k]); }
        }
        ClosedHoldsWalk(closed, p[1..]);
      }
    }

    lemma UpstreamStep(roots: seq<NodeId>, v: NodeId, u: NodeId)
      requires Wired() && Upstream(roots, v) && Feeds(u, v)
      ensures Upstream(roots, u)
    {
      var p :| Walk(p) && p[0] in roots && p[|p| - 1] == v;
      var q := p + [u];
      assert Walk(q);
      assert q[0] in roots && q[|q| - 1] == u;
    }
  }

  datatype Mark = Unvisited | InProgress | Done

  /** A pending visit, or, with `done`, the mark that closes one. */
  datatype Visit = Visit(id: NodeId, done: bool)

  /** The innermost open node below stack position `k`, or -1. */
  ghost function Parent(stack: seq<Visit>, k: nat): (r: int)
    requires k <= |stack|
    ensures -1 <= r < k
    ensures r >= 0 ==> stack[r].done
    ensures forall j :: r < j < k ==> !stack[j].done
  {
    if k == 0 then -1 else if stack[k - 1].done then k - 1 else Parent(stack, k - 1)
  }

  lemma {:induction false} ParentPrefix(stack: seq<Visit>, more: seq<Visit>, k: nat)
    requires k <= |stack| <= |more| && stack == more[..|stack|]
    ensures Parent(stack, k) == Parent(more, k)
  {
    if k > 0 && !stack[k - 1].done { ParentPrefix(stack, more, k - 1); }
  }

  /** What the search keeps between stack operations. */
  ghost predicate Searching(g: Dag, marks: seq<Mark>, order: seq<NodeId>, stack: seq<Visit>) {
    && |marks| == |g.nodes|
    && (forall id <- order :: id < |marks| && marks[id] == Done)
    && (forall id :: 0 <= id < |marks| && marks[id] == Done ==> id in order)
    && g.SourcesFirst(order)
    && (forall e <- stack :: e.id < |marks|)
    // Open nodes are exactly those with a closing entry, and nothing above
    // that entry is a visit of the same node.
    && (forall id :: 0 <= id < |marks| ==> (marks[id] == InProgress <==> Visit(id, true) in stack))
    && (forall j, k :: 0 <= j < k < |stack| && stack[j].done ==> stack[k].id != stack[j].id)
    // Each entry was pushed for the innermost open node below it.
    && (forall k {:trigger Parent(stack, k)} :: 0 < k < |stack| ==>
          Parent(stack, k) >= 0 && g.Feeds(stack[k].id, stack[Parent(stack, k)].id))
  }

  /** Every source of an open node is closed or still above it on the stack. */
  ghost predicate Covered(g: Dag, marks: seq<Mark>, stack: seq<Visit>, t: nat)
    requires t < |stack| && |marks| == |g.nodes|
  {
    forall u :: 0 <= u < |marks| && g.Feeds(u, stack[t].id) ==>
      marks[u] == Done || exists k :: t < k < |stack| && stack[k].id == u
  }

  ghost predicate AllCovered(g: Dag, marks: seq<Mark>, stack: seq<Visit>)
    requires |marks| == |g.nodes|
  {
    forall t :: 0 <= t < |stack| && stack[t].done ==> Covered(g, marks, stack, t)
  }

  /** Open nodes lower on the stack are downstream of those above them. */
  lemma {:induction false} OpenChain(g: Dag, marks: seq<Mark>, order: seq<NodeId>, stack: seq<Visit>, a: nat, b: nat)
    returns (p: seq<NodeId>)
    requires Searching(g, marks, order, stack)
    requires a <= b < |stack| && stack[a].done
    ensures g.Walk(p) && p[0] == stack[a].id && p[|p| - 1] == stack[b].id
    decreases b
  {
    if a == b {
      p := [stack[a].id];
      assert g.Walk(p);
    } else {
      var t := Parent(stack, b);
      var q := OpenChain(g, marks, order, stack, a, t);
      p := q + [stack[b].id];
    }
  }

  /** A node goes after all that feed it. */
  lemma SourcesFirstNext(g: Dag, order: seq<NodeId>, id: NodeId)
    requires g.SourcesFirst(order) && id !in order && forall u :: g.Feeds(u, id) ==> u in order
    ensures g.SourcesFirst(order + [id])
  {
    forall i, u | 0 <= i < |order + [id]| && g.Feeds(u, (order + [id])[i])
      ensures u in (order + [id])[..i]
    {
      if i < |order| {
        assert (order + [id])[..i] == order[..i];
      } else {
        assert (order + [id])[..i] == order;
      }
    }
  }

  /** Closing the top of the stack leaves an open node below it covered. */
  lemma CoveredBelow(g: Dag, marks: seq<Mark>, stack: seq<Visit>, t: nat)
    requires |marks| == |g.nodes| && t < |stack| - 1 && Covered(g, marks, stack, t)
    requires stack[|stack| - 1].id < |marks|
    ensures Covered(g, marks[stack[|stack| - 1].id := Done], stack[..|stack| - 1], t)
  {
    var top := |stack| - 1;
    var id := stack[top].id;
    forall u | 0 <= u < |marks| && u != id && g.Feeds(u, stack[t].id) && marks[u] != Done
      ensures exists k :: t < k < top && stack[..top][k].id == u
    {
      var k :| t < k < |stack| && stack[k].id == u;
      assert stack[..top][k].id == u;
    }
  }

  lemma CloseTop(g: Dag, marks: seq<Mark>, order: seq<NodeId>, stack: seq<Visit>)
    requires Searching(g, marks, order, stack) && AllCovered(g, marks, stack)
    requires g.Wired() && stack != [] && stack[|stack| - 1].done
    ensures var id := stack[|stack| - 1].id;
            id < |marks|
            && Searching(g, marks[id := Done], order + [id], stack[..|stack| - 1])
            && AllCovered(g, marks[id := Done], stack[..|stack| - 1])
  {
    hide Dag.SourcesFirst;
    var top := |stack| - 1;
    var id := stack[top].id;
    var rest := stack[..top];
    assert Visit(id, true) in stack;
    assert Covered(g, marks, stack, top);
    assert forall u :: g.Feeds(u, id) ==> u in order;
    SourcesFirstNext(g, order, id);
    forall k | 0 < k < |rest| ensures Parent(rest, k) == Parent(stack, k) { ParentPrefix(rest, stack, k); }
    forall v | 0 <= v < |marks| && v != id ensures Visit(v, true) in stack <==> Visit(v, true) in rest {
      assert stack == rest + [stack[top]];
    }
    forall t | 0 <= t < |rest| && rest[t].done ensures Covered(g, marks[id := Done], rest, t) {
      CoveredBelow(g, marks, stack, t);
    }
  }

  lemma SkipTop(g: Dag, marks: seq<Mark>, order: seq<NodeId>, stack: seq<Visit>)
    requires Searching(g, marks, order, stack) && AllCovered(g, marks, stack)
    requires stack != [] && !stack[|stack| - 1].done && marks[stack[|stack| - 1].id] == Done
    ensures Searching(g, marks, order, stack[..|stack| - 1]) && AllCovered(g, marks, stack[..|stack| - 1])
  {
    var top := |stack| - 1;
    var rest := stack[..top];
    forall k | 0 < k < |rest| ensures Parent(rest, k) == Parent(stack, k) { ParentPrefix(rest, stack, k); }
    assert stack == rest + [stack[top]];
    forall t | 0 <= t < |rest| && rest[t].done ensures Covered(g, marks, rest, t) {
      assert Covered(g, marks, stack, t);
    }
  }

  lemma OpenTop(g: Dag, marks: seq<Mark>, order: seq<NodeId>, stack: seq<Visit>)
    requires Searching(g, marks, order, stack) && AllCovered(g, marks, stack)
    requires stack != [] && !stack[|stack| - 1].done && marks[stack[|stack| - 1].id] == Unvisited
    ensures var top := |stack| - 1;
            var id := stack[top].id;
            var openedStack := stack[top := Visit(id, true)];
            Searching(g, marks[id := InProgress], order, openedStack)
            && forall t :: 0 <= t < top && openedStack[t].done ==> Covered(g, marks[id := InProgress], openedStack, t)
  {
    var top := |stack| - 1;
    var id := stack[top].id;
    var openedStack := stack[top := Visit(id, true)];
    forall k | 0 < k < |openedStack| ensures Parent(openedStack, k) == Parent(stack, k) {
      ParentPrefix(stack[..top], openedStack, k);
      ParentPrefix(stack[..top], stack, k);
    }
    forall v | 0 <= v < |marks| && v != id ensures Visit(v, true) in stack <==> Visit(v, true) in openedStack {
      if Visit(v, true) in stack {
        var k :| 0 <= k < |stack| && stack[k] == Visit(v, true);
        assert openedStack[k] == stack[k];
      }
    }
    assert openedStack[top] == Visit(id, true);
    forall t | 0 <= t < top && openedStack[t].done ensures Covered(g, marks[id := InProgress], openedStack, t) {
      assert Covered(g, marks, stack, t);
      forall u | 0 <= u < |marks| && g.Feeds(u, openedStack[t].id) && marks[u] != Done
        ensures exists k :: t < k < |openedStack| && openedStack[k].id == u
      {
        var k :| t < k < |stack| && stack[k].id == u;
        assert openedStack[k].id == u;
      }
    }
  }

  /** Pushing a visit of one of the open node's sources. `base` is the open
      node's position; everything above it is unvisited sources. */
  lemma PushSource(g: Dag, marks: seq<Mark>, order: seq<NodeId>, stack: seq<Visit>, base: nat, s: NodeId)
    requires Searching(g, marks, order, stack) && base < |stack| && stack[base].done
    requires forall k :: base < k < |stack| ==> !stack[k].done
    requires s < |marks| && marks[s] == Unvisited && g.Feeds(s, stack[base].id)
    ensures Searching(g, marks, order, stack + [Visit(s, false)])
  {
    var more := stack + [Visit(s, false)];
    assert s < |marks| == |g.nodes|;
    hide Dag.Feeds;
    forall k | 0 < k < |stack| ensures Parent(more, k) == Parent(stack, k) { ParentPrefix(stack, more, k); }
    ParentPrefix(stack, more, |stack|);
    assert Parent(more, |stack|) == base;
    forall j | 0 <= j < |stack| && stack[j].done ensures s != stack[j].id { assert stack[j] in stack; }
  }

  /** An open source closes a walk along the stack. */
  lemma ClosesCycle(g: Dag, marks: seq<Mark>, order: seq<NodeId>, stack: seq<Visit>, base: nat, s: NodeId)
    requires Searching(g, marks, order, stack) && base < |stack| && stack[base].done
    requires forall k :: base < k < |stack| ==> !stack[k].done
    requires s < |marks| && marks[s] == InProgress && g.Feeds(s, stack[base].id)
    ensures g.OnCycle(s)
  {
    var a :| 0 <= a < |stack| && stack[a] == Visit(s, true);
    var chain := OpenChain(g, marks, order, stack, a, base);
    var p := chain + [s];
    assert g.Walk(p);
    assert p[0] == s && p[|p| - 1] == s && |p| > 1;
  }

  ghost function UnvisitedIn(marks: seq<Mark>): set<NodeId> {
    set id: NodeId | id < |marks| && marks[id] == Unvisited
  }

  lemma StillUnvisited(marks: seq<Mark>, id: NodeId, mark: Mark)
    requires id < |marks| && mark != Unvisited
    ensures UnvisitedIn(marks[id := mark]) == UnvisitedIn(marks) - {id}
  {
  }

  ghost function Unneeded(needed: seq<bool>): set<NodeId> {
    set id: NodeId | id < |needed| && !needed[id]
  }

  lemma UnneededShrinks(needed: seq<bool>, id: NodeId)
    requires id < |needed| && !needed[id]
    ensures Unneeded(needed[id := true]) == Unneeded(needed) - {id}
    ensures id in Unneeded(needed)
  {
  }

  /** What the backward worklist keeps: marks are justified, and nothing a
      marked node or a root needs is forgotten. */
  ghost predicate Spreading(g: Dag, roots: seq<NodeId>, needed: seq<bool>, stack: seq<NodeId>) {
    && |needed| == |g.nodes|
    && (forall id <- stack :: id < |needed| && g.Upstream(roots, id))
    && (forall id: NodeId :: id < |needed| && needed[id] ==> g.Upstream(roots, id))
    && (forall id <- roots :: id < |needed| && (needed[id] || id in stack))
    && (forall u: NodeId, v: NodeId ::
       v < |needed| && needed[v] && g.Feeds(u, v) ==> u < |needed| && (needed[u] || u in stack))
  }

  lemma SpreadBegins(g: Dag, roots: seq<NodeId>, needed: seq<bool>)
    requires |needed| == |g.nodes| && (forall id <- roots :: id < |needed|) && forall id: NodeId ::
      id < |needed| ==> !needed[id]
    ensures Spreading(g, roots, needed, roots)
  {
    forall r <- roots ensures g.Upstream(roots, r) {
      assert g.Walk([r]) && [r][0] in roots && [r][|[r]| - 1] == r;
    }
  }

  lemma SpreadTop(g: Dag, roots: seq<NodeId>, needed: seq<bool>, rest: seq<NodeId>, id: NodeId)
    requires Spreading(g, roots, needed, rest + [id])
    ensures id < |needed|
  {
    assert id in rest + [id];
  }

  lemma SpreadSeen(g: Dag, roots: seq<NodeId>, needed: seq<bool>, rest: seq<NodeId>, id: NodeId)
    requires Spreading(g, roots, needed, rest + [id]) && id < |needed| && needed[id]
    ensures Spreading(g, roots, needed, rest)
  {
    forall v <- rest ensures v < |needed| && g.Upstream(roots, v) { assert v in rest + [id]; }
  }

  lemma SpreadNew(g: Dag, roots: seq<NodeId>, needed: seq<bool>, rest: seq<NodeId>, id: NodeId, sources: seq<NodeId>)
    requires g.Wired() && Spreading(g, roots, needed, rest + [id]) && id < |needed|
    requires forall u: NodeId :: u in sources <==> g.Feeds(u, id)
    ensures Spreading(g, roots, needed[id := true], rest + sources)
  {
    assert id in rest + [id];
    forall v | v in rest + sources ensures v < |needed| && g.Upstream(roots, v) {
      if v in rest { assert v in rest + [id]; } else { g.UpstreamStep(roots, id, v); }
    }
    assert forall v :: v in rest + [id] <==> v in rest || v == id;
    assert forall v :: v in rest + sources <==> v in rest || v in sources;
  }

  /** When the worklist is empty, exactly the upstream nodes are marked. */
  lemma SpreadDone(g: Dag, roots: seq<NodeId>, needed: seq<bool>)
    requires Spreading(g, roots, needed, [])
    ensures forall id: NodeId :: g.Upstream(roots, id) <==> id < |needed| && needed[id]
  {
    var closed := set id: NodeId | id < |needed| && needed[id];
    forall id: NodeId | g.Upstream(roots, id) ensures id in closed {
      var p :| g.Walk(p) && p[0] in roots && p[|p| - 1] == id;
      g.ClosedHoldsWalk(closed, p);
    }
  }

  class Graph {
    var nodes: seq<Node>
    var edges: map<SocketId, SocketId>
    var output: Option<NodeId>
    var extraOutputs: seq<SocketId>

    function View(): Dag
      reads this
    {
      Dag(nodes, edges)
    }

    ghost predicate Valid()
      reads this
    {
      && View().Wired()
      && (forall n <- nodes :: n.WellFormed())
      && (forall i, j :: 0 <= i < j < |extraOutputs| ==> extraOutputs[i] != extraOutputs[j])
      && (forall s <- extraOutputs :: s.node < |nodes| && s.index < |nodes[s.node].outputs|)
    }

    constructor ()
      ensures Valid() && nodes == [] && edges == map[] && output == None && extraOutputs == []
    {
      nodes, edges, output, extraOutputs := [], map[], None, [];
    }

    method AddNode(node: Node) returns (id: NodeId)
      requires Valid() && node.WellFormed()
      modifies `nodes
      ensures Valid() && id == |old(nodes)| && nodes == old(nodes) + [node]
    {
      id := |nodes|;
      nodes := nodes + [node];
    }

    /** An edge between two sockets that exist, agree in type and leave the input unshared. */
    method Connect(from: SocketId, to: SocketId) returns (r: Result<(), NodeError>)
      requires Valid()
      modifies `edges
      ensures Valid()
      ensures r.Ok? <==>
        && from.node < |nodes| && to.node < |nodes|
        && from.index < |nodes[from.node].outputs| && to.index < |nodes[to.node].inputs|
        && nodes[from.node].outputs[from.index] == nodes[to.node].inputs[to.index]
        && to !in old(edges)
      ensures edges == if r.Ok? then old(edges)[to := from] else old(edges)
    {
      if from.node >= |nodes| { return Err(UnknownNode(from.node)); }
      if to.node >= |nodes| { return Err(UnknownNode(to.node)); }
      var fromSpec, toSpec := nodes[from.node], nodes[to.node];
      if from.index >= |fromSpec.outputs| { return Err(MissingInput(from.node, from.index)); }
      if to.index >= |toSpec.inputs| { return Err(MissingInput(to.node, to.index)); }
      if fromSpec.outputs[from.index] != toSpec.inputs[to.index] {
        return Err(TypeMismatch(to.node, to.index, toSpec.inputs[to.index]));
      }
      if to in edges { return Err(InputAlreadyConnected(to.node, to.index)); }
      edges := edges[to := from];
      return Ok(());
    }

    method SetOutput(node: NodeId)
      modifies `output
      ensures output == Some(node) && (old(Valid()) ==> Valid())
    {
      output := Some(node);
    }

    predicate Exportable(s: SocketId)
      reads this
    {
      && s.node < |nodes| && s.index < |nodes[s.node].outputs|
      && nodes[s.node].outputs[s.index] in {FieldSocket, VectorSocket}
      && !(output == Some(s.node) && s.index == 0)
    }

    /** Name the extra sockets `EvalFrame` hands back. A rejected call keeps
        the old list. */
    method SetExtraOutputs(sockets: seq<SocketId>) returns (r: Result<(), NodeError>)
      requires Valid()
      modifies `extraOutputs
      ensures Valid()
      ensures r.Ok? <==> (forall s <- sockets :: Exportable(s))
                         && forall i, j :: 0 <= i < j < |sockets| ==> sockets[i] != sockets[j]
      ensures extraOutputs == if r.Ok? then sockets else old(extraOutputs)
    {
      for i := 0 to |sockets|
        invariant forall j :: 0 <= j < i ==> Exportable(sockets[j])
        invariant forall j, k :: 0 <= j < k < i ==> sockets[j] != sockets[k]
      {
        var s := sockets[i];
        assert s in sockets;
        if s.node >= |nodes| { return Err(UnknownNode(s.node)); }
        if s.index >= |nodes[s.node].outputs| { return Err(BadExtraOutput(s.node, s.index)); }
        if nodes[s.node].outputs[s.index] !in {FieldSocket, VectorSocket} {
          return Err(BadExtraOutput(s.node, s.index));
        }
        if s in sockets[..i] { return Err(BadExtraOutput(s.node, s.index)); }
        if output == Some(s.node) && s.index == 0 { return Err(BadExtraOutput(s.node, s.index)); }
      }
      extraOutputs := sockets;
      return Ok(());
    }

    function SourcesOf(id: NodeId): (r: seq<NodeId>)
      requires id < |nodes|
      reads this
    {
      View().Sources(id, |nodes[id].inputs|)
    }

    lemma SourcesOfExact(id: NodeId, u: NodeId)
      requires View().Wired() && id < |nodes|
      ensures u in SourcesOf(id) <==> View().Feeds(u, id)
    {
      if View().Feeds(u, id) { View().SourcesExact(u, id, |nodes[id].inputs|); }
    }

    /** Push a visit of each unvisited source of the node opened at `base`, the
        top of the stack; an open source closes a cycle. */
    method PushSources(marks: seq<Mark>, ghost order: seq<NodeId>, before: seq<Visit>, ghost base: nat)
      returns (stack: seq<Visit>, cycle: Option<NodeId>)
      requires View().Wired() && Searching(View(), marks, order, before)
      requires |before| == base + 1 && before[base].done
      requires forall t :: 0 <= t < base && before[t].done ==> Covered(View(), marks, before, t)
      ensures cycle.Some? ==> View().OnCycle(cycle.value)
      ensures cycle.None? ==> Searching(View(), marks, order, stack) && AllCovered(View(), marks, stack)
      ensures before <= stack
    {
      ghost var g := View();
      var id := before[|before| - 1].id;
      assert before[base] in before;
      var sources := SourcesOf(id);
      stack, cycle := before, None;
      for i := 0 to |sources|
        invariant Searching(g, marks, order, stack)
        invariant before <= stack
        invariant forall k :: base < k < |stack| ==> !stack[k].done
        invariant forall s :: s in sources[..i] ==>
          s < |marks| && (marks[s] == Done || exists k :: base < k < |stack| && stack[k].id == s)
      {
        var s := sources[i];
        assert sources[..i + 1] == sources[..i] + [s];
        SourcesOfExact(id, s);
        if marks[s] == InProgress {
          ClosesCycle(g, marks, order, stack, base, s);
          return stack, Some(s);
        }
        if marks[s] == Unvisited {
          ghost var lower := stack;
          PushSource(g, marks, order, stack, base, s);
          stack := stack + [Visit(s, false)];
          assert stack[|lower|].id == s;
          assert forall k :: 0 <= k < |lower| ==> stack[k] == lower[k];
        }
      }
      forall t | 0 <= t < |stack| && stack[t].done ensures Covered(g, marks, stack, t) {
        if t < base {
          assert Covered(g, marks, before, t);
          assert forall k :: 0 <= k < |before| ==> stack[k] == before[k];
        } else {
          assert sources[..|sources|] == sources;
          forall u | 0 <= u < |marks| && g.Feeds(u, id) ensures u in sources { SourcesOfExact(id, u); }
        }
      }
    }

    /** One depth-first search: closes `start` and everything upstream of it. */
    method Explore(marks0: seq<Mark>, order0: seq<NodeId>, start: NodeId)
      returns (marks: seq<Mark>, order: seq<NodeId>, cycle: Option<NodeId>)
      requires View().Wired() && Searching(View(), marks0, order0, [])
      requires start < |marks0| && marks0[start] == Unvisited
      ensures cycle.Some? ==> View().OnCycle(cycle.value)
      ensures cycle.None? ==> Searching(View(), marks, order, []) && marks[start] == Done
      ensures cycle.None? ==> forall id :: 0 <= id < |marks0| && marks0[id] == Done ==> marks[id] == Done
    {
      ghost var g := View();
      marks, order := marks0, order0;
      var stack := [Visit(start, false)];
      while stack != []
        invariant Searching(g, marks, order, stack) && AllCovered(g, marks, stack)
        invariant forall id :: 0 <= id < |marks0| && marks0[id] == Done ==> marks[id] == Done
        invariant if stack == [] then marks[start] == Done else stack[0].id == start
        decreases UnvisitedIn(marks), |stack|
      {
        var top := stack[|stack| - 1];
        assert top in stack;
        if top.done {
          CloseTop(g, marks, order, stack);
          StillUnvisited(marks, top.id, Done);
          stack := stack[..|stack| - 1];
          marks := marks[top.id := Done];
          order := order + [top.id];
        } else if marks[top.id] == Done {
          SkipTop(g, marks, order, stack);
          stack := stack[..|stack| - 1];
        } else {
          // A visit of an open node cannot be on top: its closing entry
          // would lie below, and nothing above that repeats the node.
          assert marks[top.id] == Unvisited;
          OpenTop(g, marks, order, stack);
          StillUnvisited(marks, top.id, InProgress);
          marks := marks[top.id := InProgress];
          stack := stack[|stack| - 1 := Visit(top.id, true)];
          stack, cycle := PushSources(marks, order, stack, |stack| - 1);
          if cycle.Some? { return; }
        }
      }
      cycle := None;
    }

    /** Every node once, sources first; or a node that lies on a cycle. */
    method TopologicalOrder() returns (r: Result<seq<NodeId>, NodeError>)
      requires View().Wired()
      ensures r.Ok? <==> !exists id :: View().OnCycle(id)
      ensures r.Ok? ==> View().SourcesFirst(r.value) && forall id :: id in r.value <==> 0 <= id < |nodes|
      ensures r.Err? ==> r.error.Cycle? && View().OnCycle(r.error.node)
    {
      var marks := seq(|nodes|, _ => Unvisited);
      var order: seq<NodeId> := [];
      for start := 0 to |nodes|
        invariant Searching(View(), marks, order, [])
        invariant forall id :: 0 <= id < start ==> marks[id] == Done
      {
        if marks[start] == Unvisited {
          var cycle;
          marks, order, cycle := Explore(marks, order, start);
          if cycle.Some? { return Err(Cycle(cycle.value)); }
        }
      }
      forall id: NodeId | View().OnCycle(id) ensures false {
        assert id < |nodes|;
        View().OrderedIsAcyclic(order, id);
      }
      return Ok(order);
    }

    /** The nodes the output and the extras depend on, in dependency order. */
    method EvaluationOrder() returns (r: Result<seq<NodeId>, NodeError>)
      requires Valid()
      ensures r.Ok? <==> output.Some? && output.value < |nodes| && !exists id :: View().OnCycle(id)
      ensures output == None ==> r == Err(NoOutput)
      ensures r.Ok? ==>
        && View().SourcesFirst(r.value)
        && forall id: NodeId :: id in r.value <==> View().Upstream(Roots(), id)
      ensures r.Err? && output.Some? ==>
        if output.value < |nodes| then r.error.Cycle? else r.error == UnknownNode(output.value)
      ensures r.Err? && r.error.Cycle? ==> View().OnCycle(r.error.node)
    {
      if output.None? { return Err(NoOutput); }
      if output.value >= |nodes| { return Err(UnknownNode(output.value)); }
      var full := TopologicalOrder();
      if full.Err? { return full; }
      var needed := Needed();
      var order: seq<NodeId> := [];
      for i := 0 to |full.value|
        invariant forall id :: id in order <==> id in full.value[..i] && id < |needed| && needed[id]
        invariant forall j, k :: 0 <= j < k < |order| ==> order[j] != order[k]
        invariant forall j, u :: 0 <= j < |order| && View().Feeds(u, order[j]) ==> u in order[..j]
      {
        var id := full.value[i];
        assert id in full.value;
        assert full.value[..i + 1] == full.value[..i] + [id];
        if needed[id] {
          ghost var shorter := order;
          forall u | View().Feeds(u, id) ensures u in shorter {
            assert u in full.value[..i];
            View().UpstreamStep(Roots(), id, u);
          }
          order := order + [id];
          forall j, u | 0 <= j < |order| && View().Feeds(u, order[j]) ensures u in order[..j] {
            assert order[..j] == shorter[..j];
            if j == |shorter| { assert shorter[..j] == shorter; }
          }
        }
      }
      assert full.value[..|full.value|] == full.value;
      return Ok(order);
    }

    /** The output, then the nodes of the extras. */
    function Roots(): seq<NodeId>
      requires output.Some?
      reads this
    {
      [output.value] + seq(|extraOutputs|, i requires 0 <= i < |extraOutputs| reads this => extraOutputs[i].node)
    }

    /** Which nodes are upstream of the roots: a worklist over `SourcesOf`. */
    method Needed() returns (needed: seq<bool>)
      requires Valid() && output.Some? && output.value < |nodes|
      ensures |needed| == |nodes|
      ensures forall id: NodeId :: View().Upstream(Roots(), id) <==> id < |nodes| && needed[id]
    {
      hide Spreading; hide Dag.Upstream;
      needed := seq(|nodes|, _ => false);
      var stack := Roots();
      ghost var roots := Roots();
      SpreadBegins(View(), roots, needed);
      while stack != []
        invariant Spreading(View(), roots, needed, stack) && |needed| == |nodes|
        decreases Unneeded(needed), |stack|
      {
        var id, rest := stack[|stack| - 1], stack[..|stack| - 1];
        assert stack == rest + [id];
        SpreadTop(View(), roots, needed, rest, id);
        if needed[id] {
          SpreadSeen(View(), roots, needed, rest, id);
          stack := rest;
        } else {
          forall u: NodeId ensures u in SourcesOf(id) <==> View().Feeds(u, id) { SourcesOfExact(id, u); }
          SpreadNew(View(), roots, needed, rest, id, SourcesOf(id));
          UnneededShrinks(needed, id);
          needed := needed[id := true];
          stack := rest + SourcesOf(id);
        }
      }
      SpreadDone(View(), roots, needed);
    }
  }
}
