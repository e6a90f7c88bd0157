/** The invoke graph between plugin actions, and the search that keeps it free of cycles. */
module InvokeGraph {
  import opened Wrappers

  /** A plugin and one of its actions, as an invoke step names them. */
  datatype NodeRef = NodeRef(plugin: string, action: string)

  datatype InvokeEdge = InvokeEdge(from: NodeRef, to: NodeRef)

  ghost predicate IsWalk(edges: seq<InvokeEdge>, p: seq<NodeRef>)
  {
    forall k | 0 < k < |p| :: InvokeEdge(p[k - 1], p[k]) in edges
  }

  /** A closed walk: the last node is the first again. */
  ghost predicate IsCycle(edges: seq<InvokeEdge>, p: seq<NodeRef>)
  {
    |p| >= 2 && p[0] == p[|p| - 1] && IsWalk(edges, p)
  }

  /** A cycle that repeats no node except the one that closes it. */
  ghost predicate IsSimpleCycle(edges: seq<InvokeEdge>, p: seq<NodeRef>)
  {
    IsCycle(edges, p) && forall a, b | 0 <= a < b < |p| - 1 :: p[a] != p[b]
  }

  ghost predicate Acyclic(edges: seq<InvokeEdge>)
  {
    forall p :: !IsCycle(edges, p)
  }

  /** Dropping or reordering edges cannot create a cycle. */
  lemma {:induction false} FewerEdgesStayAcyclic(edges: seq<InvokeEdge>, fewer: seq<InvokeEdge>)
    requires Acyclic(edges) && forall e | e in fewer :: e in edges
    ensures Acyclic(fewer)
  {
    forall p
      ensures !IsCycle(fewer, p)
    {
      assert !IsCycle(edges, p);
    }
  }

  // ------------------------------------------------------------ adjacency

  type Adjacency = map<NodeRef, seq<NodeRef>>

  /** The recorded targets of `n`; a node that invokes nothing has none. */
  function Next(adj: Adjacency, n: NodeRef): seq<NodeRef>
  {
    if n in adj then adj[n] else []
  }

  /** `adj` records exactly these edges. */
  ghost predicate Records(adj: Adjacency, edges: seq<InvokeEdge>)
  {
    && (forall a, b :: b in Next(adj, a) <==> InvokeEdge(a, b) in edges)
    && forall a | a in adj :: adj[a] != []
  }

  method RecordEdges(edges: seq<InvokeEdge>) returns (adj: Adjacency)
    ensures Records(adj, edges)
  {
    adj := map[];
    for k := 0 to |edges|
      invariant Records(adj, edges[..k])
    {
      var edge := edges[k];
      ghost var before := adj;
      adj := adj[edge.from := Next(adj, edge.from) + [edge.to]];
      RecordsOneMore(before, edges[..k], edge, adj);
      assert edges[..k + 1] == edges[..k] + [edge];
    }
    assert edges[..|edges|] == edges;
  }

  lemma {:induction false} RecordsOneMore(before: Adjacency, edges: seq<InvokeEdge>, edge: InvokeEdge, after: Adjacency)
    requires Records(before, edges) && after == before[edge.from := Next(before, edge.from) + [edge.to]]
    ensures Records(after, edges + [edge])
  {
    forall a, b
      ensures b in Next(after, a) <==> InvokeEdge(a, b) in edges + [edge]
    {
      assert b in Next(before, a) <==> InvokeEdge(a, b) in edges;
      assert InvokeEdge(a, b) == edge <==> a == edge.from && b == edge.to;
    }
  }

  // ------------------------------------------------------------ the search

  datatype Color = Gray | Black

  /** A node on the current path and the index of its next neighbour to visit. */
  type Frame = (NodeRef, nat)

  predicate OnStack(stack: seq<Frame>, n: NodeRef)
  {
    exists k | 0 <= k < |stack| :: stack[k].0 == n
  }

  /** The gray nodes are exactly those on the stack, each there once. */
  ghost predicate GrayIsStack(stack: seq<Frame>, color: map<NodeRef, Color>)
  {
    && (forall n :: n in color && color[n] == Gray <==> OnStack(stack, n))
    && forall a, b | 0 <= a < b < |stack| :: stack[a].0 != stack[b].0
  }

  /** Each stack node was reached over the last visited neighbour of the one below. */
  ghost predicate IsPath(adj: Adjacency, stack: seq<Frame>)
  {
    && (forall k | 0 <= k < |stack| :: stack[k].1 <= |Next(adj, stack[k].0)|)
    && forall k | 0 < k < |stack| :: StepsTo(adj, stack[k - 1], stack[k].0)
  }

  ghost predicate StepsTo(adj: Adjacency, frame: Frame, n: NodeRef)
  {
    0 < frame.1 <= |Next(adj, frame.0)| && Next(adj, frame.0)[frame.1 - 1] == n
  }

  /** The first `upTo` neighbours of `n` are all finished. */
  ghost predicate Explored(adj: Adjacency, n: NodeRef, upTo: int, done: seq<NodeRef>)
  {
    upTo <= |Next(adj, n)| && forall j | 0 <= j < upTo :: Next(adj, n)[j] in done
  }

  /** How many neighbours of the frame at `k` are finished: all it visited, but for the one that is the frame above. */
  function FinishedAt(stack: seq<Frame>, k: nat): int
    requires k < |stack|
  {
    var visited: int := stack[k].1;
    if k == |stack| - 1 then visited else visited - 1
  }

  /** Below the top, the last visited neighbour is the frame above; all earlier ones are finished. */
  ghost predicate Visited(adj: Adjacency, stack: seq<Frame>, done: seq<NodeRef>)
  {
    forall k | 0 <= k < |stack| :: Explored(adj, stack[k].0, FinishedAt(stack, k), done)
  }

  /** Every neighbour of a finished node finished before it. */
  ghost predicate Ordered(adj: Adjacency, done: seq<NodeRef>)
  {
    forall k | 0 <= k < |done| :: AllIn(Next(adj, done[k]), done[..k])
  }

  ghost predicate AllIn(nodes: seq<NodeRef>, done: seq<NodeRef>)
  {
    forall n | n in nodes :: n in done
  }

  ghost predicate BlackIsDone(color: map<NodeRef, Color>, done: seq<NodeRef>)
  {
    forall n :: n in color && color[n] == Black <==> n in done
  }

  /** What the search keeps true. `done` lists the black nodes in the order they finished. */
  ghost predicate Searching(adj: Adjacency, stack: seq<Frame>, color: map<NodeRef, Color>, done: seq<NodeRef>)
  {
    && GrayIsStack(stack, color)
    && IsPath(adj, stack)
    && Visited(adj, stack, done)
    && BlackIsDone(color, done)
    && Ordered(adj, done)
  }

  /** Finishing order is a ranking of the edges, so no walk among finished nodes returns. */
  lemma {:induction false} RankFalls(adj: Adjacency, edges: seq<InvokeEdge>, done: seq<NodeRef>, p: seq<NodeRef>,
                                     k: nat, r: nat) returns (rank: nat)
    requires Records(adj, edges) && Ordered(adj, done) && IsWalk(edges, p)
    requires k < |p| && r < |done| && p[0] == done[r]
    ensures rank < |done| && p[k] == done[rank] && (if k == 0 then rank == r else rank < r)
  {
    hide Ordered;
    if k == 0 {
      return r;
    }
    var before := RankFalls(adj, edges, done, p, k - 1, r);
    assert InvokeEdge(p[k - 1], p[k]) in edges;
    assert p[k] in Next(adj, p[k - 1]);
    rank := Earlier(adj, done, before, p[k]);
  }

  lemma {:induction false} Earlier(adj: Adjacency, done: seq<NodeRef>, k: nat, n: NodeRef) returns (rank: nat)
    requires Ordered(adj, done) && k < |done| && n in Next(adj, done[k])
    ensures rank < k && done[rank] == n
  {
    assert AllIn(Next(adj, done[k]), done[..k]);
    rank :| rank < k && done[rank] == n;
  }

  /** Where a node first occurs. */
  lemma {:induction false} First(done: seq<NodeRef>, n: NodeRef) returns (k: nat)
    requires n in done
    ensures k < |done| && done[k] == n && forall j | 0 <= j < k :: done[j] != n
    decreases |done|
  {
    var last := |done| - 1;
    if n in done[..last] {
      k := First(done[..last], n);
      assert forall j | 0 <= j < k :: done[..last][j] == done[j];
    } else {
      assert forall j | 0 <= j < last :: done[j] in done[..last];
      k := last;
    }
  }

  /** When every source of an edge has finished, there is no cycle. */
  lemma {:induction false} FinishedIsAcyclic(adj: Adjacency, edges: seq<InvokeEdge>, done: seq<NodeRef>)
    requires Records(adj, edges) && Ordered(adj, done) && forall n | n in adj :: n in done
    ensures Acyclic(edges)
  {
    hide Ordered;
    forall p
      ensures !IsCycle(edges, p)
    {
      if IsCycle(edges, p) {
        assert InvokeEdge(p[0], p[1]) in edges;
        assert p[1] in Next(adj, p[0]);
        var r := First(done, p[0]);
        var rank := RankFalls(adj, edges, done, p, |p| - 1, r);
      }
    }
  }

  // ------------------------------------------------------------ steps of the search

  /** The stack from the back edge's target up, closed on that target. */
  function Closed(stack: seq<Frame>, from: nat): (cycle: seq<NodeRef>)
    requires from < |stack|
    ensures |cycle| == |stack| - from + 1 && cycle[|cycle| - 1] == stack[from].0
    ensures forall k | 0 <= k < |stack| - from :: cycle[k] == stack[from + k].0
  {
    seq(|stack| - from, k requires 0 <= k < |stack| - from => stack[from + k].0) + [stack[from].0]
  }

  lemma {:induction false} BackEdge(adj: Adjacency, edges: seq<InvokeEdge>, stack: seq<Frame>,
                                    color: map<NodeRef, Color>, from: nat)
    requires Records(adj, edges) && GrayIsStack(stack, color) && IsPath(adj, stack)
    requires from < |stack| && stack[from].0 in Next(adj, stack[|stack| - 1].0)
    ensures IsSimpleCycle(edges, Closed(stack, from))
  {
    var cycle := Closed(stack, from);
    forall k | 0 < k < |cycle|
      ensures InvokeEdge(cycle[k - 1], cycle[k]) in edges
    {
      if k < |cycle| - 1 {
        var below := stack[from + k - 1];
        assert StepsTo(adj, below, stack[from + k].0);
        assert stack[from + k].0 in Next(adj, below.0);
      }
    }
  }

  lemma {:induction false} Finishes(adj: Adjacency, stack: seq<Frame>, color: map<NodeRef, Color>, done: seq<NodeRef>)
    requires Searching(adj, stack, color, done) && stack != []
    requires stack[|stack| - 1].1 >= |Next(adj, stack[|stack| - 1].0)|
    ensures var n := stack[|stack| - 1].0;
      Searching(adj, stack[..|stack| - 1], color[n := Black], done + [n])
  {
    var top := |stack| - 1;
    var n, rest := stack[top].0, stack[..top];
    StackLosesTop(stack, color);
    StillExplored(adj, stack, done);
    assert AllIn(Next(adj, n), done) by {
      assert Explored(adj, n, stack[top].1, done);
    }
    OrderedSnoc(adj, done, n);
    assert IsPath(adj, rest);
  }

  lemma {:induction false} StackLosesTop(stack: seq<Frame>, color: map<NodeRef, Color>)
    requires GrayIsStack(stack, color) && stack != []
    ensures GrayIsStack(stack[..|stack| - 1], color[stack[|stack| - 1].0 := Black])
  {
    var top := |stack| - 1;
    forall m
      ensures OnStack(stack[..top], m) <==> OnStack(stack, m) && m != stack[top].0
    {
      if OnStack(stack[..top], m) {
        var k :| 0 <= k < top && stack[..top][k].0 == m;
        assert stack[k].0 == m;
      }
      if OnStack(stack, m) && m != stack[top].0 {
        var k :| 0 <= k < |stack| && stack[k].0 == m;
        assert stack[..top][k].0 == m;
      }
    }
  }

  lemma {:induction false} StillExplored(adj: Adjacency, stack: seq<Frame>, done: seq<NodeRef>)
    requires Visited(adj, stack, done) && IsPath(adj, stack) && stack != []
    ensures Visited(adj, stack[..|stack| - 1], done + [stack[|stack| - 1].0])
  {
    var top := |stack| - 1;
    forall k | 0 <= k < top
      ensures Explored(adj, stack[k].0, FinishedAt(stack[..top], k), done + [stack[top].0])
    {
      assert Explored(adj, stack[k].0, FinishedAt(stack, k), done);
      assert StepsTo(adj, stack[k], stack[k + 1].0);
    }
  }

  lemma {:induction false} OrderedSnoc(adj: Adjacency, done: seq<NodeRef>, n: NodeRef)
    requires Ordered(adj, done) && AllIn(Next(adj, n), done)
    ensures Ordered(adj, done + [n])
  {
    var more := done + [n];
    forall k | 0 <= k < |more|
      ensures AllIn(Next(adj, more[k]), more[..k])
    {
      assert more[..k] == if k < |done| then done[..k] else done;
    }
  }

  /** The parent's index moves on. */
  function Advance(stack: seq<Frame>): seq<Frame>
    requires stack != []
  {
    var top := |stack| - 1;
    stack[top := (stack[top].0, stack[top].1 + 1)]
  }

  lemma {:induction false} AdvanceKeepsNodes(stack: seq<Frame>, color: map<NodeRef, Color>)
    requires stack != [] && GrayIsStack(stack, color)
    ensures GrayIsStack(Advance(stack), color)
  {
    var now := Advance(stack);
    forall n
      ensures OnStack(now, n) <==> OnStack(stack, n)
    {
      if OnStack(stack, n) {
        var k :| 0 <= k < |stack| && stack[k].0 == n;
        assert now[k].0 == n;
      }
      if OnStack(now, n) {
        var k :| 0 <= k < |now| && now[k].0 == n;
        assert stack[k].0 == n;
      }
    }
  }

  lemma {:induction false} AdvanceKeepsPath(adj: Adjacency, stack: seq<Frame>)
    requires stack != [] && IsPath(adj, stack) && stack[|stack| - 1].1 < |Next(adj, stack[|stack| - 1].0)|
    ensures IsPath(adj, Advance(stack))
  {
    var now := Advance(stack);
    forall k | 0 < k < |now|
      ensures StepsTo(adj, now[k - 1], now[k].0)
    {
      assert StepsTo(adj, stack[k - 1], stack[k].0);
    }
  }

  /** A finished neighbour is skipped. */
  lemma {:induction false} Skips(adj: Adjacency, stack: seq<Frame>, color: map<NodeRef, Color>, done: seq<NodeRef>)
    requires Searching(adj, stack, color, done) && stack != []
    requires stack[|stack| - 1].1 < |Next(adj, stack[|stack| - 1].0)|
    requires Next(adj, stack[|stack| - 1].0)[stack[|stack| - 1].1] in done
    ensures Searching(adj, Advance(stack), color, done)
  {
    hide Ordered, GrayIsStack, IsPath;
    AdvanceKeepsNodes(stack, color);
    AdvanceKeepsPath(adj, stack);
    var now := Advance(stack);
    forall k | 0 <= k < |now|
      ensures Explored(adj, now[k].0, FinishedAt(now, k), done)
    {
      assert Explored(adj, stack[k].0, FinishedAt(stack, k), done);
    }
  }

  /** An unseen neighbour is pushed. */
  lemma {:induction false} Pushes(adj: Adjacency, stack: seq<Frame>, color: map<NodeRef, Color>, done: seq<NodeRef>,
                                  next: NodeRef)
    requires Searching(adj, stack, color, done) && stack != [] && next !in color
    requires stack[|stack| - 1].1 < |Next(adj, stack[|stack| - 1].0)|
    requires Next(adj, stack[|stack| - 1].0)[stack[|stack| - 1].1] == next
    ensures Searching(adj, Advance(stack) + [(next, 0)], color[next := Gray], done)
  {
    hide Ordered;
    AdvanceKeepsNodes(stack, color);
    AdvanceKeepsPath(adj, stack);
    var now := Advance(stack);
    StackGains(now, color, next);
    var more := now + [(next, 0)];
    forall k | 0 < k < |more|
      ensures StepsTo(adj, more[k - 1], more[k].0)
    {
      assert k < |now| ==> StepsTo(adj, now[k - 1], now[k].0);
    }
    forall k | 0 <= k < |more|
      ensures Explored(adj, more[k].0, FinishedAt(more, k), done)
    {
      assert k < |now| ==> Explored(adj, stack[k].0, FinishedAt(stack, k), done);
    }
  }

  lemma {:induction false} StackGains(stack: seq<Frame>, color: map<NodeRef, Color>, n: NodeRef)
    requires GrayIsStack(stack, color) && n !in color
    ensures GrayIsStack(stack + [(n, 0)], color[n := Gray])
  {
    var more := stack + [(n, 0)];
    forall m
      ensures OnStack(more, m) <==> OnStack(stack, m) || m == n
    {
      if OnStack(stack, m) {
        var k :| 0 <= k < |stack| && stack[k].0 == m;
        assert more[k].0 == m;
      }
      if m == n {
        assert more[|stack|].0 == m;
      }
    }
    forall a, b | 0 <= a < b < |more|
      ensures more[a].0 != more[b].0
    {
      assert OnStack(stack, stack[a].0);
    }
  }

  // ------------------------------------------------------------ termination

  /** Every node of the graph. */
  function Nodes(edges: seq<InvokeEdge>): set<NodeRef>
  {
    (set e | e in edges :: e.from) + (set e | e in edges :: e.to)
  }

  lemma {:induction false} ColoringShrinks(nodes: set<NodeRef>, color: map<NodeRef, Color>, n: NodeRef)
    requires n in nodes && n !in color
    ensures |nodes - color[n := Gray].Keys| < |nodes - color.Keys|
  {
    assert nodes - color.Keys == (nodes - color[n := Gray].Keys) + {n};
  }

  lemma {:induction false} RecoloringKeeps(nodes: set<NodeRef>, color: map<NodeRef, Color>, n: NodeRef)
    requires n in color
    ensures nodes - color[n := Black].Keys == nodes - color.Keys
  {
    assert color[n := Black].Keys == color.Keys;
  }

  /** How many neighbours of the top are still to visit. */
  function Unvisited(adj: Adjacency, stack: seq<Frame>): int
  {
    if stack == [] then 0 else |Next(adj, stack[|stack| - 1].0)| - stack[|stack| - 1].1
  }

  lemma {:induction false} AdvanceVisits(adj: Adjacency, stack: seq<Frame>)
    requires stack != [] && stack[|stack| - 1].1 < |Next(adj, stack[|stack| - 1].0)|
    ensures |Advance(stack)| == |stack| && 0 <= Unvisited(adj, Advance(stack)) < Unvisited(adj, stack)
  {
  }

  // ------------------------------------------------------------ the methods

  /** The first stack position of a node known to be there. */
  method Position(stack: seq<Frame>, n: NodeRef) returns (k: nat)
    requires OnStack(stack, n)
    ensures k < |stack| && stack[k].0 == n && forall j | 0 <= j < k :: stack[j].0 != n
  {
    k := 0;
    while stack[k].0 != n
      invariant k < |stack| && forall j | 0 <= j < k :: stack[j].0 != n
      decreases |stack| - k
    {
      k := k + 1;
    }
  }

  /**
   * Depth-first search from an uncoloured node. Either a simple cycle closed on its first node, or every
   * node it coloured is finished.
   */
  method DfsFindCycle(start: NodeRef, adj: Adjacency, color: map<NodeRef, Color>, ghost edges: seq<InvokeEdge>,
                      ghost done: seq<NodeRef>)
    returns (cycle: Option<seq<NodeRef>>, color': map<NodeRef, Color>, ghost done': seq<NodeRef>)
    requires Records(adj, edges) && start !in color && start in Nodes(edges)
    requires Searching(adj, [], color, done)
    ensures cycle.Some? ==> IsSimpleCycle(edges, cycle.value)
    ensures cycle.None? ==> Searching(adj, [], color', done') && start in color' && color.Keys <= color'.Keys
  {
    hide Searching, Records, IsSimpleCycle, Nodes, GrayIsStack, IsPath, Unvisited, Advance, OnStack;
    var stack: seq<Frame> := [(start, 0)];
    color', done' := color[start := Gray], done;
    SearchStarts(adj, color, done, start);
    while stack != []
      invariant Searching(adj, stack, color', done')
      invariant color.Keys + {start} <= color'.Keys
      decreases |Nodes(edges) - color'.Keys|, |stack|, Unvisited(adj, stack)
    {
      var (node, nextIdx) := stack[|stack| - 1];
      var neighbours := Next(adj, node);
      StackIsGray(adj, stack, color', done', |stack| - 1);
      if nextIdx >= |neighbours| {
        Finishes(adj, stack, color', done');
        RecoloringKeeps(Nodes(edges), color', node);
        color', done' := color'[node := Black], done' + [node];
        stack := stack[..|stack| - 1];
        continue;
      }
      var next := neighbours[nextIdx];
      if next !in color' {
        Pushes(adj, stack, color', done', next);
        TargetIsNode(adj, edges, node, next);
        ColoringShrinks(Nodes(edges), color', next);
        stack := Advance(stack) + [(next, 0)];
        color' := color'[next := Gray];
      } else if color'[next] == Gray {
        GrayOnStack(adj, stack, color', done', next);
        var from := Position(stack, next);
        BackEdge(adj, edges, stack, color', from);
        return Some(Closed(stack, from)), color', done';
      } else {
        BlackDone(adj, stack, color', done', next);
        Skips(adj, stack, color', done');
        AdvanceVisits(adj, stack);
        stack := Advance(stack);
      }
    }
    return None, color', done';
  }

  lemma {:induction false} SearchStarts(adj: Adjacency, color: map<NodeRef, Color>, done: seq<NodeRef>, start: NodeRef)
    requires Searching(adj, [], color, done) && start !in color
    ensures Searching(adj, [(start, 0)], color[start := Gray], done)
  {
    hide Ordered, GrayIsStack;
    StackGains([], color, start);
    var stack: seq<Frame> := [(start, 0)];
    assert [] + stack == stack;
    assert Explored(adj, stack[0].0, FinishedAt(stack, 0), done);
  }

  lemma {:induction false} StackIsGray(adj: Adjacency, stack: seq<Frame>, color: map<NodeRef, Color>,
                                       done: seq<NodeRef>, k: nat)
    requires Searching(adj, stack, color, done) && k < |stack|
    ensures stack[k].0 in color && stack[k].1 <= |Next(adj, stack[k].0)|
  {
    assert OnStack(stack, stack[k].0);
  }

  /** A gray node is on the stack: the lookup that closes a cycle cannot fail. */
  lemma {:induction false} GrayOnStack(adj: Adjacency, stack: seq<Frame>, color: map<NodeRef, Color>,
                                       done: seq<NodeRef>, n: NodeRef)
    requires Searching(adj, stack, color, done) && n in color && color[n] == Gray
    ensures OnStack(stack, n) && GrayIsStack(stack, color) && IsPath(adj, stack)
  {
  }

  lemma {:induction false} BlackDone(adj: Adjacency, stack: seq<Frame>, color: map<NodeRef, Color>, done: seq<NodeRef>,
                                     n: NodeRef)
    requires Searching(adj, stack, color, done) && n in color && color[n] == Black
    ensures n in done
  {
  }

  lemma {:induction false} TargetIsNode(adj: Adjacency, edges: seq<InvokeEdge>, n: NodeRef, next: NodeRef)
    requires Records(adj, edges) && next in Next(adj, n)
    ensures next in Nodes(edges)
  {
    assert InvokeEdge(n, next) in edges;
  }

  lemma {:induction false} SourceIsNode(adj: Adjacency, edges: seq<InvokeEdge>, n: NodeRef)
    requires Records(adj, edges) && n in adj
    ensures n in Nodes(edges)
  {
    assert Next(adj, n)[0] in Next(adj, n);
    assert InvokeEdge(n, Next(adj, n)[0]) in edges;
  }

  /** All edges recorded so far and those a registration would add: accepted exactly when they form no cycle. */
  method CheckAcyclic(existing: seq<InvokeEdge>, newEdges: seq<InvokeEdge>) returns (r: Result<(), seq<NodeRef>>)
    ensures r.Ok? <==> Acyclic(existing + newEdges)
    ensures r.Err? ==> IsSimpleCycle(existing + newEdges, r.error)
  {
    hide Searching, Records, Ordered, Nodes;
    var edges := existing + newEdges;
    var adj := RecordEdges(edges);
    var color: map<NodeRef, Color> := map[];
    ghost var done: seq<NodeRef> := [];
    NothingSearched(adj);
    var todo := adj.Keys;
    while todo != {}
      invariant todo <= adj.Keys && Searching(adj, [], color, done)
      invariant forall n | n in adj && n !in todo :: n in color
      decreases |todo|
    {
      var start :| start in todo;
      todo := todo - {start};
      if start !in color {
        SourceIsNode(adj, edges, start);
        var cycle;
        cycle, color, done := DfsFindCycle(start, adj, color, edges, done);
        if cycle.Some? {
          return Err(cycle.value);
        }
      }
    }
    AllFinished(adj, color, done);
    FinishedIsAcyclic(adj, edges, done);
    return Ok(());
  }

  lemma {:induction false} AllFinished(adj: Adjacency, color: map<NodeRef, Color>, done: seq<NodeRef>)
    requires Searching(adj, [], color, done)
    ensures Ordered(adj, done) && forall n | n in color :: n in done
  {
    forall n | n in color
      ensures n in done
    {
      assert !OnStack([], n);
    }
  }

  lemma {:induction false} NothingSearched(adj: Adjacency)
    ensures Searching(adj, [], map[], [])
  {
  }
}
