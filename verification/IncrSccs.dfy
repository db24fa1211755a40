/**
 The pass itself: the recursive numbering procedure and the driver that runs it
 over a list of subgoals, with the node table, the stack and the counters updated
 in place.
 */
module IncrSccs {
  import opened Hiding
  import opened Reachability
  import opened SccState

  // ----- what a call adds -----

  /** A call started at `from` only adds nodes it reaches and leaves older ones alone. */
  ghost predicate Grown(g: Graph, s: Pass, s': Pass, from: nat) {
    && |s'.nodes| == |s.nodes| == |g| && s'.dfn >= s.dfn && s'.component >= s.component
    && (forall u: nat :: Visited(s, u) ==> s'.nodes[u] == s.nodes[u])
    && |s.stk| <= |s'.stk| && s'.stk[..|s.stk|] == s.stk
    && (forall u: nat :: Visited(s', u) && !Visited(s, u) ==> Reach(g, from, u) && s'.nodes[u].dfn >= s.dfn)
  }

  /** As LowBound, for the first k edges of v and all edges of the nodes above it. */
  ghost predicate PartialLowBound(g: Graph, s: Pass, v: nat, k: nat)
    requires Live(s, v) && v < |g| && k <= |g[v]|
  {
    forall y: nat, w: nat ::
      (Live(s, y) && s.nodes[y].dfn >= s.nodes[v].dfn && Edge(g, y, w) && Live(s, w) && (y == v ==> w in g[v][..k]))
      ==> s.nodes[v].low <= s.nodes[w].dfn
  }

  /** What a finished call tells its caller about its node. */
  ghost predicate Returned(g: Graph, s: Pass, s': Pass, c: nat) {
    && Visited(s', c)
    && (Live(s', c) ==> s'.nodes[c].low < s'.nodes[c].dfn && LowBound(g, s', c))
    && (!Live(s', c) ==>
          && s'.nodes[c].low == s'.nodes[c].dfn
          && (forall u: nat :: Live(s', u) ==> Live(s, u)))
    && s'.nodes[c].dfn == s.dfn
  }

  ghost function Unvisited(s: Pass): set<nat> {
    set v: nat | v < |s.nodes| && !Visited(s, v) :: v
  }

  lemma GrownChild(g: Graph, s: Pass, s1: Pass, s2: Pass, v: nat, c: nat)
    requires Grown(g, s, s1, v) && Grown(g, s1, s2, c) && Edge(g, v, c) && Counters(g, s1)
    ensures Grown(g, s, s2, v)
  {
    forall u: nat | Visited(s, u)
      ensures s2.nodes[u] == s.nodes[u]
    {
      assert Visited(s1, u);
    }
    assert s2.stk[..|s.stk|] == s1.stk[..|s.stk|] by {
      assert s2.stk[..|s1.stk|][..|s.stk|] == s2.stk[..|s.stk|];
    }
    forall u: nat | Visited(s2, u) && !Visited(s, u)
      ensures Reach(g, v, u) && s2.nodes[u].dfn >= s.dfn
    {
      if !Visited(s1, u) {
        ReachEdge(g, v, c);
        ReachTrans(g, v, c, u);
      }
    }
  }

  lemma GrownLower(g: Graph, s: Pass, s1: Pass, v: nat, w: nat)
    requires Grown(g, s, s1, v) && v < |g| && w < |g| && !Visited(s, v) && Visited(s1, v)
    ensures Grown(g, s, LowerTo(s1, v, w), v)
  {
    var s2 := LowerTo(s1, v, w);
    forall u: nat | Visited(s2, u) && !Visited(s, u)
      ensures Reach(g, v, u) && s2.nodes[u].dfn >= s.dfn
    {
      assert Visited(s1, u);
    }
  }

  lemma GrownClose(g: Graph, s: Pass, s1: Pass, v: nat)
    requires Counters(g, s) && Counters(g, s1) && StackShape(g, s1)
    requires Grown(g, s, s1, v) && Live(s1, v) && s1.nodes[v].dfn == s.dfn && s1.nodes[v].stack == |s.stk|
    ensures Grown(g, s, CloseRoot(s1, v), v)
    ensures forall u: nat :: Live(CloseRoot(s1, v), u) ==> Live(s, u)
  {
    var s2 := CloseRoot(s1, v);
    CloseEffect(g, s1, v);
    forall u: nat | Visited(s, u)
      ensures s2.nodes[u] == s.nodes[u]
    {
      assert s1.nodes[u] == s.nodes[u];
      SegmentIs(g, s1, v, u);
    }
    forall u: nat | Live(s2, u)
      ensures Live(s, u)
    {
      assert Live(s1, u) && s1.nodes[u].dfn < s.dfn;
      assert Visited(s, u);
    }
  }

  /** The caller's bound survives a child call, once the child's `low` has been taken over. */
  lemma BoundAfterChild(g: Graph, s1: Pass, s2: Pass, path: seq<nat>, v: nat, k: nat)
    requires Counters(g, s1) && Counters(g, s2) && CallPath(s1, path + [v]) && FinishedClosed(g, s1, path + [v])
    requires Live(s1, v) && k < |g[v]| && WellFormed(g)
    requires forall j :: 0 <= j < k ==> Visited(s1, g[v][j])
    requires PartialLowBound(g, s1, v, k) && s1.nodes[v].low <= s1.nodes[v].dfn
    requires var c := g[v][k]; !Visited(s1, c) && Grown(g, s1, s2, c) && Returned(g, s1, s2, c)
    requires Live(s2, v)
    ensures var c := g[v][k];
      if s2.nodes[c].low < s2.nodes[v].low
      then Live(s2, c) && PartialLowBound(g, LowerTo(s2, v, c), v, k + 1)
      else PartialLowBound(g, s2, v, k + 1)
  {
    var c := g[v][k];
    RetirePath(s1, path, v);
    assert Visited(s1, v);
    assert s2.nodes[v] == s1.nodes[v];
    var low := if s2.nodes[c].low < s2.nodes[v].low then s2.nodes[c].low else s2.nodes[v].low;
    if !Live(s2, c) { VisitedBefore(g, s1, v); }
    forall y: nat, w: nat | Live(s2, y) && s2.nodes[y].dfn >= s2.nodes[v].dfn && Edge(g, y, w) && Live(s2, w) &&
      (y == v ==> w in g[v][..k + 1])
      ensures low <= s2.nodes[w].dfn
    {
      if Visited(s1, y) {
        if y == v {
          var j :| 0 <= j < k + 1 && g[v][j] == w;
          if j == k {
          } else {
            assert Visited(s1, g[v][j]) && w in g[v][..k] by { assert g[v][..k][j] == w; }
            assert Live(s1, w);
          }
        } else {
          assert y !in path + [v];
          assert Visited(s1, w);
          assert Live(s1, y) && Live(s1, w);
        }
      } else {
        assert s2.nodes[y].dfn >= s2.nodes[c].dfn;
      }
    }
    if s2.nodes[c].low < s2.nodes[v].low {
      BoundTransfer(g, s2, v, c, k + 1, low);
    }
  }

  lemma VisitedBefore(g: Graph, s: Pass, v: nat)
    requires Counters(g, s) && Visited(s, v)
    ensures s.nodes[v].dfn < s.dfn
  {
  }

  lemma BoundTransfer(g: Graph, s: Pass, v: nat, c: nat, k: nat, low: int)
    requires Live(s, v) && Live(s, c) && v < |g| && k <= |g[v]| && low == s.nodes[c].low
    requires forall y: nat, w: nat ::
      (Live(s, y) && s.nodes[y].dfn >= s.nodes[v].dfn && Edge(g, y, w) && Live(s, w) && (y == v ==> w in g[v][..k]))
      ==> low <= s.nodes[w].dfn
    ensures PartialLowBound(g, LowerTo(s, v, c), v, k)
  {
    var s' := LowerTo(s, v, c);
    forall y: nat, w: nat | Live(s', y) && s'.nodes[y].dfn >= s'.nodes[v].dfn && Edge(g, y, w) && Live(s', w) &&
      (y == v ==> w in g[v][..k])
      ensures s'.nodes[v].low <= s'.nodes[w].dfn
    {
      assert Live(s, y) && Live(s, w);
    }
  }

  /** The same when the edge leads to a node visited earlier. */
  lemma BoundAfterEdge(g: Graph, s: Pass, v: nat, k: nat)
    requires Counters(g, s) && LowSound(g, s)
    requires Live(s, v) && k < |g[v]| && PartialLowBound(g, s, v, k)
    requires Visited(s, g[v][k])
    ensures var c := g[v][k];
      if s.nodes[c].dfn < s.nodes[v].dfn && s.nodes[c].component == 0 && s.nodes[c].low < s.nodes[v].low
      then PartialLowBound(g, LowerTo(s, v, c), v, k + 1)
      else PartialLowBound(g, s, v, k + 1)
  {
    var c := g[v][k];
    var lowers := s.nodes[c].dfn < s.nodes[v].dfn && s.nodes[c].component == 0 && s.nodes[c].low < s.nodes[v].low;
    var low := if lowers then s.nodes[c].low else s.nodes[v].low;
    assert LowRight(g, s, v);
    if Live(s, c) { assert LowRight(g, s, c); }
    forall y: nat, w: nat |
      Live(s, y) && s.nodes[y].dfn >= s.nodes[v].dfn && Edge(g, y, w) && Live(s, w) && (y == v ==> w in g[v][..k + 1])
      ensures low <= s.nodes[w].dfn
    {
      if y == v {
        var j :| 0 <= j < k + 1 && g[v][j] == w;
        if j < k { assert g[v][..k][j] == w; }
      }
    }
    if lowers {
      BoundTransfer(g, s, v, c, k + 1, low);
    }
  }

  lemma GrownEnter(g: Graph, s: Pass, v: nat)
    requires Counters(g, s) && v < |g| && !Visited(s, v)
    ensures Grown(g, s, Enter(s, v), v) && PartialLowBound(g, Enter(s, v), v, 0)
  {
    ReachRefl(g, v);
    var s' := Enter(s, v);
    forall y: nat | Live(s', y) && s'.nodes[y].dfn >= s'.nodes[v].dfn
      ensures y == v
    {
      if y != v { VisitedBefore(g, s, y); }
    }
  }

  lemma GrownSink(g: Graph, s: Pass, v: nat)
    requires Counters(g, s) && v < |g| && !Visited(s, v)
    ensures Grown(g, s, EnterSink(s, v), v) && Returned(g, s, EnterSink(s, v), v)
  {
    ReachRefl(g, v);
  }

  lemma BoundComplete(g: Graph, s: Pass, v: nat)
    requires Counters(g, s) && Live(s, v) && WellFormed(g) && PartialLowBound(g, s, v, |g[v]|)
    requires forall j :: 0 <= j < |g[v]| ==> Visited(s, g[v][j])
    ensures LowBound(g, s, v) && SuccessorsVisited(g, s, v)
  {
    assert g[v][..|g[v]|] == g[v];
    forall w: nat | Edge(g, v, w)
      ensures Visited(s, w)
    {
      var j :| 0 <= j < |g[v]| && g[v][j] == w;
    }
    forall y: nat, w: nat | Live(s, y) && s.nodes[y].dfn >= s.nodes[v].dfn && Edge(g, y, w) && Live(s, w)
      ensures s.nodes[v].low <= s.nodes[w].dfn
    {
      assert y == v ==> w in g[v][..|g[v]|];
    }
  }

  /** The loop over the out-edges of v: k of them followed, the call having begun in s. */
  ghost predicate Scanning(g: Graph, s: Pass, s1: Pass, path: seq<nat>, alone: set<nat>, v: nat, k: nat)
    requires v < |g| && k <= |g[v]|
  {
    && Inv(g, s1, path + [v], alone)
    && Counters(g, s) && !Visited(s, v)
    && Grown(g, s, s1, v)
    && Live(s1, v) && s1.nodes[v].dfn == s.dfn && s1.nodes[v].stack == |s.stk|
    && (forall j :: 0 <= j < k ==> Visited(s1, g[v][j]))
    && PartialLowBound(g, s1, v, k)
  }

  lemma ScanStart(g: Graph, s: Pass, path: seq<nat>, alone: set<nat>, v: nat)
    requires Inv(g, s, path, alone)
    requires v < |g| && !Visited(s, v) && !Sink(g, v)
    requires path != [] ==> Reach(g, path[|path| - 1], v)
    ensures Scanning(g, s, Enter(s, v), path, alone, v, 0) && Unvisited(Enter(s, v)) < Unvisited(s)
  {
    EnterKeeps(g, s, path, alone, v);
    GrownEnter(g, s, v);
    UnvisitedShrinks(g, s, Enter(s, v), v);
  }

  lemma ScanEdge(g: Graph, s: Pass, s1: Pass, path: seq<nat>, alone: set<nat>, v: nat, k: nat)
    requires v < |g| && k < |g[v]| && Scanning(g, s, s1, path, alone, v, k)
    ensures Edge(g, v, g[v][k]) && (path + [v])[|path + [v]| - 1] == v && Reach(g, v, g[v][k])
    ensures s1.nodes[v].low <= s1.nodes[v].dfn
  {
    ReachEdge(g, v, g[v][k]);
    assert LowRight(g, s1, v);
  }

  lemma ScanChild(g: Graph, s: Pass, s1: Pass, s2: Pass, path: seq<nat>, alone: set<nat>, v: nat, k: nat)
    requires v < |g| && k < |g[v]| && Scanning(g, s, s1, path, alone, v, k)
    requires !Visited(s1, g[v][k]) && Grown(g, s1, s2, g[v][k]) && Returned(g, s1, s2, g[v][k])
    requires Inv(g, s2, path + [v], alone)
    ensures var c := g[v][k];
      if s2.nodes[c].low < s2.nodes[v].low
      then Scanning(g, s, LowerTo(s2, v, c), path, alone, v, k + 1)
      else Scanning(g, s, s2, path, alone, v, k + 1)
  {
    var c := g[v][k];
    ScanEdge(g, s, s1, path, alone, v, k);
    assert Visited(s1, v);
    GrownChild(g, s, s1, s2, v, c);
    BoundAfterChild(g, s1, s2, path, v, k);
    forall j | 0 <= j < k + 1
      ensures Visited(s2, g[v][j])
    {
      assert j < k ==> Visited(s1, g[v][j]);
    }
    if s2.nodes[c].low < s2.nodes[v].low {
      ScanLower(g, s, s2, path, alone, v, c, k + 1);
    }
  }

  lemma ScanLower(g: Graph, s: Pass, s1: Pass, path: seq<nat>, alone: set<nat>, v: nat, c: nat, k: nat)
    requires v < |g| && k <= |g[v]| && Inv(g, s1, path + [v], alone)
    requires Counters(g, s) && !Visited(s, v) && Grown(g, s, s1, v)
    requires Live(s1, v) && s1.nodes[v].dfn == s.dfn && s1.nodes[v].stack == |s.stk|
    requires forall j :: 0 <= j < k ==> Visited(s1, g[v][j])
    requires Live(s1, c) && Reach(g, v, c) && s1.nodes[c].low < s1.nodes[v].low
    requires PartialLowBound(g, LowerTo(s1, v, c), v, k)
    ensures Scanning(g, s, LowerTo(s1, v, c), path, alone, v, k)
  {
    LowerKeeps(g, s1, path + [v], alone, v, c);
    GrownLower(g, s, s1, v, c);
    forall j | 0 <= j < k
      ensures Visited(LowerTo(s1, v, c), g[v][j])
    {
      assert Visited(s1, g[v][j]);
    }
  }

  lemma ScanSeen(g: Graph, s: Pass, s1: Pass, path: seq<nat>, alone: set<nat>, v: nat, k: nat)
    requires v < |g| && k < |g[v]| && Scanning(g, s, s1, path, alone, v, k)
    requires Visited(s1, g[v][k])
    ensures var c := g[v][k];
      if s1.nodes[c].dfn < s1.nodes[v].dfn && s1.nodes[c].component == 0 && s1.nodes[c].low < s1.nodes[v].low
      then Scanning(g, s, LowerTo(s1, v, c), path, alone, v, k + 1)
      else Scanning(g, s, s1, path, alone, v, k + 1)
  {
    var c := g[v][k];
    ScanEdge(g, s, s1, path, alone, v, k);
    BoundAfterEdge(g, s1, v, k);
    if s1.nodes[c].dfn < s1.nodes[v].dfn && s1.nodes[c].component == 0 && s1.nodes[c].low < s1.nodes[v].low {
      ScanLower(g, s, s1, path, alone, v, c, k + 1);
    }
  }

  lemma ScanComplete(g: Graph, s: Pass, s1: Pass, path: seq<nat>, alone: set<nat>, v: nat)
    requires v < |g| && Scanning(g, s, s1, path, alone, v, |g[v]|) && StackShape(g, s)
    ensures (path + [v])[|path|] == v && SuccessorsVisited(g, s1, v) && LowBound(g, s1, v)
    ensures s1.nodes[v].low <= s1.nodes[v].dfn
    ensures if s1.nodes[v].low == s1.nodes[v].dfn
      then Inv(g, CloseRoot(s1, v), path, alone) && Grown(g, s, CloseRoot(s1, v), v) && Returned(g, s, CloseRoot(s1, v), v)
      else Inv(g, s1, path, alone) && Returned(g, s, s1, v)
  {
    assert LowRight(g, s1, v);
    BoundComplete(g, s1, v);
    if s1.nodes[v].low == s1.nodes[v].dfn {
      CloseKeeps(g, s1, path, alone, v);
      GrownClose(g, s, s1, v);
      CloseEffect(g, s1, v);
      assert v in SettledBy(s1, v);
    } else {
      RetireKeeps(g, s1, path, alone, v);
    }
  }

  lemma UnvisitedShrinks(g: Graph, s: Pass, s1: Pass, v: nat)
    requires Grown(g, s, s1, v) && !Visited(s, v) && Visited(s1, v)
    ensures Unvisited(s1) < Unvisited(s)
  {
    assert forall u: nat :: Visited(s, u) ==> Visited(s1, u);
    assert v in Unvisited(s) && v !in Unvisited(s1);
  }

  lemma StackHasRoom(g: Graph, s: Pass, v: nat)
    requires Counters(g, s) && StackShape(g, s) && v < |g| && !Visited(s, v)
    ensures |s.stk| < |g|
  {
    var t: seq<int> := s.stk + [v];
    forall i | 0 <= i < |t|
      ensures 0 <= t[i] < |g|
    {
      if i < |s.stk| { assert Visited(s, s.stk[i]); }
    }
    forall i, j | 0 <= i < j < |t|
      ensures t[i] != t[j]
    {
      assert Visited(s, s.stk[i]);
      if j < |s.stk| { StackOrder(g, s, i, j); }
    }
    PigeonHole(t, |g|);
  }

  // ----- the pass -----

  class SccPass {
    /** The listed subgoals, and for each the subgoals its out-edges lead to, in iteration order. */
    const goals: seq<int>
    const outGoals: seq<seq<int>>
    /** Subgoal to list position; position 0 reads as the null pointer. */
    const index: map<int, nat>

    const nodes: array<SccNode>
    const dfnStack: array<nat>
    var dfnTop: nat
    var dfn: int
    var component: int

    ghost const g: Graph

    ghost predicate Wired()
    {
      && WellFormed(g) && |g| == |outGoals| == |goals| == nodes.Length == dfnStack.Length
      && (forall v :: 0 <= v < |g| ==> g[v] == Targets(index, outGoals[v]))
    }

    ghost function State(): Pass
      requires dfnTop <= dfnStack.Length
      reads this, nodes, dfnStack
    {
      Pass(nodes[..], dfnStack[..dfnTop], dfn, component)
    }

    /** Gives the current component to every node on the stack from position `bottom` up. */
    method AssignAbove(bottom: nat)
      requires bottom <= dfnTop <= dfnStack.Length
      requires forall i :: 0 <= i < dfnTop ==> dfnStack[i] < nodes.Length
      modifies nodes
      ensures nodes[..] == Assigned(old(nodes[..]), dfnStack[bottom..dfnTop], component)
    {
      ghost var was := nodes[..];
      var j := dfnTop - 1;
      while j >= bottom
        invariant bottom - 1 <= j < dfnTop
        invariant forall u :: 0 <= u < nodes.Length ==>
          nodes[u] == if u in dfnStack[j + 1..dfnTop] then was[u].(component := component) else was[u]
      {
        var u := dfnStack[j];
        assert dfnStack[j..dfnTop] == [u] + dfnStack[j + 1..dfnTop];
        nodes[u] := nodes[u].(component := component);
        j := j - 1;
      }
      assert j + 1 == bottom;
    }

    /** Pops everything down to `from` into the current component. */
    method CloseComponent(from: nat)
      requires Wired() && dfnTop <= dfnStack.Length
      requires Counters(g, State()) && StackShape(g, State()) && Live(State(), from)
      modifies this`dfnTop, this`component, nodes
      ensures dfnTop <= dfnStack.Length && State() == CloseRoot(old(State()), from)
    {
      ghost var s := State();
      var bottom := nodes[from].stack;
      assert s.nodes[from] == nodes[from] && s.stk[bottom] == from;
      forall i | 0 <= i < dfnTop ensures dfnStack[i] < nodes.Length { assert Visited(s, s.stk[i]); }
      AssignAbove(bottom);
      component := component + 1;
      dfnTop := bottom;
      assert old(dfnStack[bottom..dfnTop]) == s.stk[bottom..];
      assert dfnStack[..dfnTop] == s.stk[..bottom];
    }

    /** Numbers `from` and puts it on the stack. */
    method EnterNode(from: nat)
      requires Wired() && dfnTop < dfnStack.Length && from < |g|
      modifies this`dfnTop, this`dfn, nodes, dfnStack
      ensures dfnTop <= dfnStack.Length && State() == Enter(old(State()), from)
    {
      ghost var s := State();
      nodes[from] := nodes[from].(dfn := dfn, low := dfn);
      dfn := dfn + 1;
      dfnStack[dfnTop] := from;
      nodes[from] := nodes[from].(stack := dfnTop);
      dfnTop := dfnTop + 1;
      assert dfnStack[..dfnTop] == s.stk + [from];
      assert nodes[..] == Enter(s, from).nodes;
    }

    method LowerNode(from: nat, to: nat)
      requires Wired() && dfnTop <= dfnStack.Length && from < |g| && to < |g|
      modifies nodes
      ensures State() == LowerTo(old(State()), from, to)
    {
      nodes[from] := nodes[from].(low := nodes[to].low);
      assert nodes[..] == LowerTo(old(State()), from, to).nodes;
    }

    method CloseLeaf(from: nat)
      requires Wired() && dfnTop <= dfnStack.Length && from < |g|
      modifies this`component, nodes
      ensures State() == CloseSink(old(State()), from)
    {
      nodes[from] := nodes[from].(component := component);
      component := component + 1;
      assert nodes[..] == CloseSink(old(State()), from).nodes;
    }

    /** The edge to a node not visited before: recurse, then take over its `low` if smaller. */
    method FollowTreeEdge(from: nat, to: nat, k: nat, ghost s: Pass, ghost path: seq<nat>, ghost alone: set<nat>)
      requires Wired() && dfnTop <= dfnStack.Length && from < |g| && k < |g[from]| && to == g[from][k]
      requires Scanning(g, s, State(), path, alone, from, k) && !Visited(State(), to)
      modifies this`dfnTop, this`dfn, this`component, nodes, dfnStack
      ensures dfnTop <= dfnStack.Length && Scanning(g, s, State(), path, alone, from, k + 1)
      decreases Unvisited(State()), 2, 0
    {
      ghost var s1 := State();
      ScanEdge(g, s, s1, path, alone, from, k);
      ComputeScc(to, path + [from], alone);
      ScanChild(g, s, s1, State(), path, alone, from, k);
      if nodes[to].low < nodes[from].low {
        LowerNode(from, to);
      }
    }

    /** The edge to a visited node: take over its `low` if it is older and on the stack. */
    method FollowSeenEdge(from: nat, to: nat, k: nat, ghost s: Pass, ghost path: seq<nat>, ghost alone: set<nat>)
      requires Wired() && dfnTop <= dfnStack.Length && from < |g| && k < |g[from]| && to == g[from][k]
      requires Scanning(g, s, State(), path, alone, from, k) && Visited(State(), to)
      modifies nodes
      ensures Scanning(g, s, State(), path, alone, from, k + 1)
    {
      ScanSeen(g, s, State(), path, alone, from, k);
      if nodes[to].dfn < nodes[from].dfn && nodes[to].component == 0 && nodes[to].low < nodes[from].low {
        LowerNode(from, to);
      }
    }

    /** The loop over the out-edges of `from`, whose call began in state s. */
    method FollowEdges(from: nat, ghost s: Pass, ghost path: seq<nat>, ghost alone: set<nat>)
      requires Wired() && dfnTop <= dfnStack.Length && from < |g|
      requires Scanning(g, s, State(), path, alone, from, 0)
      modifies this`dfnTop, this`dfn, this`component, nodes, dfnStack
      ensures dfnTop <= dfnStack.Length && Scanning(g, s, State(), path, alone, from, |g[from]|)
      decreases Unvisited(s), 0, 1
    {
      var k := 0;
      while k < |outGoals[from]|
        invariant 0 <= k <= |outGoals[from]| && dfnTop <= dfnStack.Length
        invariant Scanning(g, s, State(), path, alone, from, k)
      {
        FollowEdge(from, k, s, path, alone);
        k := k + 1;
      }
    }

    method FollowEdge(from: nat, k: nat, ghost s: Pass, ghost path: seq<nat>, ghost alone: set<nat>)
      requires Wired() && dfnTop <= dfnStack.Length && from < |g| && k < |g[from]|
      requires Scanning(g, s, State(), path, alone, from, k)
      modifies this`dfnTop, this`dfn, this`component, nodes, dfnStack
      ensures dfnTop <= dfnStack.Length && Scanning(g, s, State(), path, alone, from, k + 1)
      decreases Unvisited(s), 0, 0
    {
      var to := Lookup(index, outGoals[from][k]);
      assert to == g[from][k] && Edge(g, from, to);
      UnvisitedShrinks(g, s, State(), from);
      if nodes[to].dfn == 0 {
        FollowTreeEdge(from, to, k, s, path, alone);
      } else {
        FollowSeenEdge(from, to, k, s, path, alone);
      }
    }

    /**
     The recursive procedure. `path` is the chain of callers, `alone` the sinks
     started from the driver so far.
     */
    method ComputeScc(from: nat, ghost path: seq<nat>, ghost alone: set<nat>)
      requires Wired() && dfnTop <= dfnStack.Length
      requires Inv(g, State(), path, alone)
      requires from < |g| && !Visited(State(), from)
      requires path != [] ==> Reach(g, path[|path| - 1], from)
      modifies this`dfnTop, this`dfn, this`component, nodes, dfnStack
      ensures dfnTop <= dfnStack.Length
      ensures Inv(g, State(), path, if path == [] && Sink(g, from) then alone + {from} else alone)
      ensures Grown(g, old(State()), State(), from) && Returned(g, old(State()), State(), from)
      decreases Unvisited(State()), 1, 0
    {
      ghost var s := State();
      StackHasRoom(g, s, from);
      EnterNode(from);
      if |outGoals[from]| > 0 {
        ScanStart(g, s, path, alone, from);
        FollowEdges(from, s, path, alone);
        ScanComplete(g, s, State(), path, alone, from);
        if nodes[from].low == nodes[from].dfn {
          CloseComponent(from);
        }
      } else {
        CloseLeaf(from);
        SinkKeeps(g, s, path, alone, from);
        GrownSink(g, s, from);
      }
    }

    constructor (goals: seq<int>, outGoals: seq<seq<int>>, index: map<int, nat>)
      requires |outGoals| == |goals|
      requires forall x :: x in index ==> index[x] < |goals|
      requires |goals| > 0
      ensures this.goals == goals && this.outGoals == outGoals && this.index == index
      ensures g == seq(|goals|, i requires 0 <= i < |goals| => Targets(index, outGoals[i]))
      ensures Wired() && dfnTop == 0 && dfn == 1 && component == 1
      ensures forall v :: 0 <= v < |g| ==> nodes[v] == FRESH_NODE
      ensures fresh(nodes) && fresh(dfnStack)
    {
      this.goals, this.outGoals, this.index := goals, outGoals, index;
      nodes := new SccNode[|goals|](_ => FRESH_NODE);
      dfnStack := new nat[|goals|](_ => 0);
      dfnTop, dfn, component := 0, 1, 1;
      g := seq(|goals|, i requires 0 <= i < |goals| => Targets(index, outGoals[i]));
    }

    /** The outermost loop: start a call at every listed subgoal not visited yet. */
    method Run() returns (components: seq<int>)
      requires Wired() && dfnTop == 0 && dfn == 1 && component == 1
      requires forall v :: 0 <= v < |g| ==> nodes[v] == FRESH_NODE
      modifies this`dfnTop, this`dfn, this`component, nodes, dfnStack
      ensures ComponentsOf(g, components) && CallersLater(g, components)
    {
      ghost var alone: set<nat> := {};
      var i := 0;
      InitialInv(g, State());
      while i < nodes.Length
        invariant 0 <= i <= nodes.Length && dfnTop <= dfnStack.Length
        invariant Inv(g, State(), [], alone)
        invariant VisitedUpTo(g, State(), i) && AloneUpTo(g, i, alone)
      {
        ghost var s, alone0 := State(), alone;
        if nodes[i].dfn == 0 {
          ComputeScc(i, [], alone);
          if Sink(g, i) { alone := alone + {i}; }
        }
        RootAdvances(g, s, State(), i, alone0, alone);
        i := i + 1;
      }
      components := seq(nodes.Length, v requires 0 <= v < nodes.Length reads this, nodes => nodes[v].component);
      PassComplete(g, State(), alone, components);
    }
  }

  /** Resolving neighbours through the index; an absent one reads as position 0. */
  function Lookup(index: map<int, nat>, goal: int): nat {
    if goal in index then index[goal] else 0
  }

  function Targets(index: map<int, nat>, out: seq<int>): (r: seq<nat>)
    ensures |r| == |out|
  {
    seq(|out|, k requires 0 <= k < |out| => Lookup(index, out[k]))
  }

  // ----- what the pass computes -----

  /** Some node listed before position i reaches u. */
  ghost predicate ReachedBefore(g: Graph, i: nat, u: nat) {
    exists j: nat :: j < i && j < |g| && Reach(g, j, u)
  }

  /**
   Two nodes with out-edges share a number exactly when they reach each other. A
   sink listed before every other node that reaches it has a number of its own;
   any other sink shares the number of a node that reaches it.
   */
  ghost predicate ComponentsOf(g: Graph, components: seq<int>) {
    && |components| == |g|
    && (forall u: nat, v: nat :: u < |g| && v < |g| && !Sink(g, u) && !Sink(g, v) ==>
          (components[u] == components[v] <==> Mutual(g, u, v)))
    && (forall t: nat, x: nat :: t < |g| && x < |g| && t != x && Sink(g, t) && !ReachedBefore(g, t, t) ==>
          components[t] != components[x])
    && (forall t: nat :: t < |g| && Sink(g, t) && ReachedBefore(g, t, t) ==>
          SharesNumber(g, components, t))
  }

  /** The numbers are positive, and a component's is greater than those of the components it calls; sinks apart. */
  ghost predicate CallersLater(g: Graph, components: seq<int>) {
    && |components| == |g| && (forall v :: 0 <= v < |g| ==> components[v] > 0)
    && forall u: nat, v: nat {:trigger Reach(g, u, v)} :: u < |g| && v < |g| && !Sink(g, v) && Reach(g, u, v) ==> components[v] <= components[u]
  }

  lemma {:induction false} LaterAlong(g: Graph, s: Pass, p: seq<nat>)
    requires |s.nodes| == |g| && CalleesFirst(g, s) && (forall u: nat :: u < |g| ==> Done(s, u)) && IsPath(g, p) && !Sink(g, p[|p| - 1])
    ensures s.nodes[p[|p| - 1]].component <= s.nodes[p[0]].component
  {
    if |p| > 1 {
      PathTail(g, p);
      LaterAlong(g, s, p[1..]);
      assert Open(0);
      assert Edge(g, p[0], p[1]);
      assert !Sink(g, p[1]) by {
        if |p| > 2 { assert Edge(g, p[1], p[2]); }
      }
    }
  }

  ghost predicate SharesNumber(g: Graph, components: seq<int>, t: nat)
    requires |components| == |g| && t < |g|
  {
    exists x: nat :: x < |g| && !Sink(g, x) && Reach(g, x, t) && components[x] == components[t]
  }

  lemma InitialInv(g: Graph, s: Pass)
    requires WellFormed(g) && |s.nodes| == |g| && s.stk == [] && s.dfn == 1 && s.component == 1
    requires forall v :: 0 <= v < |g| ==> s.nodes[v] == FRESH_NODE
    ensures Inv(g, s, [], {})
  {
    assert forall v: nat :: !Visited(s, v);
  }

  lemma NoneLive(g: Graph, s: Pass, alone: set<nat>, u: nat)
    requires Inv(g, s, [], alone) && Visited(s, u)
    ensures Done(s, u)
  {
    assert !Live(s, u) || ReachesPath(g, s, [], u);
  }

  /** Hidden by Open: the visited nodes are those reached from the first i. */
  ghost predicate VisitedUpTo(g: Graph, s: Pass, i: nat) {
    forall k {:trigger Open(k)} :: Open(k) ==> forall u: nat :: u < |g| ==> (Visited(s, u) <==> ReachedBefore(g, i, u))
  }

  /** Hidden by Open: the sinks met first by the outermost loop, among the first i. */
  ghost predicate AloneUpTo(g: Graph, i: nat, alone: set<nat>) {
    forall k {:trigger Open(k)} :: Open(k) ==> forall t: nat :: t in alone <==> t < i && Sink(g, t) && !ReachedBefore(g, t, t)
  }

  lemma ReachedNext(g: Graph, i: nat, u: nat)
    requires i < |g|
    ensures ReachedBefore(g, i + 1, u) <==> ReachedBefore(g, i, u) || Reach(g, i, u)
  {
    if ReachedBefore(g, i + 1, u) {
      var j: nat :| j < i + 1 && Reach(g, j, u);
      assert j < i || j == i;
    }
  }

  /** New nodes are reached from i and the visited nodes stay closed, so i is accounted for. */
  lemma VisitsNext(g: Graph, s: Pass, s': Pass, i: nat, u: nat)
    requires i < |g| && u < |g| && Visited(s', i)
    requires Closed(g, set z: nat | z < |g| && Visited(s', z) :: z)
    requires Visited(s, u) <==> ReachedBefore(g, i, u)
    requires Visited(s, u) ==> Visited(s', u)
    requires Visited(s', u) && !Visited(s, u) ==> Reach(g, i, u)
    ensures Visited(s', u) <==> ReachedBefore(g, i + 1, u)
  {
    ReachedNext(g, i, u);
    if Reach(g, i, u) {
      ClosedUnderReach(g, set z: nat | z < |g| && Visited(s', z) :: z, i, u);
    }
  }

  /** A turn that starts a call at i. */
  lemma RootVisits(g: Graph, s: Pass, s': Pass, i: nat)
    requires i < |g| && VisitedUpTo(g, s, i)
    requires Closed(g, set z: nat | z < |g| && Visited(s', z) :: z)
    requires Grown(g, s, s', i) && Visited(s', i)
    ensures VisitedUpTo(g, s', i + 1)
  {
    assert Open(0);
    forall u: nat | u < |g|
      ensures Visited(s', u) <==> ReachedBefore(g, i + 1, u)
    {
      VisitsNext(g, s, s', i, u);
    }
  }

  /** A turn that finds i visited. */
  lemma RootSeen(g: Graph, s: Pass, i: nat)
    requires i < |g| && VisitedUpTo(g, s, i) && Visited(s, i)
    requires Closed(g, set z: nat | z < |g| && Visited(s, z) :: z)
    ensures VisitedUpTo(g, s, i + 1)
  {
    assert Open(0);
    forall u: nat | u < |g|
      ensures Visited(s, u) <==> ReachedBefore(g, i + 1, u)
    {
      VisitsNext(g, s, s, i, u);
    }
  }

  lemma RootAlone(g: Graph, s: Pass, i: nat, alone: set<nat>)
    requires i < |g| && VisitedUpTo(g, s, i) && AloneUpTo(g, i, alone)
    ensures AloneUpTo(g, i + 1, if Sink(g, i) && !Visited(s, i) then alone + {i} else alone)
  {
    assert Open(0);
    assert Visited(s, i) <==> ReachedBefore(g, i, i);
  }

  /** After the turn for position i, the visited nodes are those reached from 0..i. */
  lemma RootAdvances(g: Graph, s: Pass, s': Pass, i: nat, alone: set<nat>, alone': set<nat>)
    requires Inv(g, s', [], alone') && i < |g|
    requires VisitedUpTo(g, s, i) && AloneUpTo(g, i, alone)
    requires if Visited(s, i) then s' == s && alone' == alone
             else Grown(g, s, s', i) && Visited(s', i) && alone' == if Sink(g, i) then alone + {i} else alone
    ensures VisitedUpTo(g, s', i + 1) && AloneUpTo(g, i + 1, alone')
  {
    VisitedClosed(g, s', alone');
    RootAlone(g, s, i, alone);
    if Visited(s, i) {
      RootSeen(g, s, i);
    } else {
      RootVisits(g, s, s', i);
    }
  }

  lemma VisitedClosed(g: Graph, s: Pass, alone: set<nat>)
    requires Inv(g, s, [], alone)
    ensures Closed(g, set z: nat | z < |g| && Visited(s, z) :: z)
  {
    forall u: nat, v: nat | u < |g| && Visited(s, u) && Edge(g, u, v)
      ensures Visited(s, v)
    {
    }
  }

  lemma PassComplete(g: Graph, s: Pass, alone: set<nat>, components: seq<int>)
    requires Inv(g, s, [], alone)
    requires VisitedUpTo(g, s, |g|) && AloneUpTo(g, |g|, alone)
    requires |components| == |g| && forall v :: 0 <= v < |g| ==> components[v] == s.nodes[v].component
    ensures ComponentsOf(g, components) && CallersLater(g, components)
  {
    assert Open(0);
    forall u: nat | u < |g|
      ensures Visited(s, u) && Done(s, u)
    {
      ReachRefl(g, u);
      assert ReachedBefore(g, |g|, u);
      NoneLive(g, s, alone, u);
    }
    forall t: nat | t < |g| && Sink(g, t) && ReachedBefore(g, t, t)
      ensures SharesNumber(g, components, t)
    {
      assert t !in alone && Visited(s, t);
      assert Swallowed(g, s, t);
      var x: nat :| Done(s, x) && !Sink(g, x) && s.nodes[x].component == s.nodes[t].component && Reach(g, x, t);
      assert x < |g|;
    }
    forall u: nat, v: nat | u < |g| && v < |g| && !Sink(g, v) && Reach(g, u, v)
      ensures components[v] <= components[u]
    {
      var p :| PathFromTo(g, p, u, v);
      LaterAlong(g, s, p);
    }
  }

  // ----- the driver -----

  ghost predicate Distinct(goals: seq<int>) {
    forall i, j :: 0 <= i < j < |goals| ==> goals[i] != goals[j]
  }

  /** The list position an edge target resolves to; 0 when it is not listed. */
  ghost function Position(goals: seq<int>, x: int): (r: nat)
    requires |goals| > 0
    ensures r < |goals| && (x in goals ==> goals[r] == x) && (x !in goals ==> r == 0)
  {
    if i :| 0 <= i < |goals| && goals[i] == x then i else 0
  }

  ghost function ListedGraph(goals: seq<int>, outedges: map<int, seq<int>>): Graph
    requires |goals| > 0 && forall i :: 0 <= i < |goals| ==> goals[i] in outedges
  {
    seq(|goals|, i requires 0 <= i < |goals| =>
      var out := outedges[goals[i]];
      seq(|out|, k requires 0 <= k < |out| => Position(goals, out[k])))
  }

  /**
   The resolved graph is the call graph among the listed subgoals, except that the first
   listed one also stands for every out-neighbour that is not listed.
   */
  lemma ListedGraphMeans(goals: seq<int>, outedges: map<int, seq<int>>, i: nat, j: nat)
    requires |goals| > 0 && Distinct(goals) && forall i :: 0 <= i < |goals| ==> goals[i] in outedges
    requires i < |goals| && j < |goals|
    ensures Edge(ListedGraph(goals, outedges), i, j) <==>
      goals[j] in outedges[goals[i]] || (j == 0 && exists x :: x in outedges[goals[i]] && x !in goals)
  {
    var out := outedges[goals[i]];
    var g := ListedGraph(goals, outedges);
    assert |g[i]| == |out| && forall k :: 0 <= k < |out| ==> g[i][k] == Position(goals, out[k]);
    if goals[j] in out {
      var k :| 0 <= k < |out| && out[k] == goals[j];
      assert g[i][k] == j;
    }
    if x :| x in out && x !in goals {
      var k :| 0 <= k < |out| && out[k] == x;
      assert g[i][k] == 0;
    }
    if j in g[i] {
      var k :| 0 <= k < |g[i]| && g[i][k] == j;
      assert out[k] in out;
    }
  }

  /** An out-neighbour that is not listed can merge subgoals that do not call each other: 1 and 2 both come out as one component. */
  lemma UnlistedMerges(outedges: map<int, seq<int>>, components: seq<int>)
    requires outedges == map[1 := [2], 2 := [3]] && ComponentsOf(ListedGraph([1, 2], outedges), components)
    ensures components[0] == components[1]
  {
    var goals := [1, 2];
    var g := ListedGraph(goals, outedges);
    ListedGraphMeans(goals, outedges, 0, 1);
    ListedGraphMeans(goals, outedges, 1, 0);
    assert 3 in outedges[goals[1]] && 3 !in goals;
    ReachEdge(g, 0, 1);
    ReachEdge(g, 1, 0);
  }

  /**
   Numbers the listed subgoals, runs the pass and returns each subgoal's component
   number. A neighbour that is not listed is taken for the first listed subgoal.
   */
  method GetIncrSccs(goals: seq<int>, outedges: map<int, seq<int>>) returns (components: seq<int>)
    requires |goals| > 0 && Distinct(goals) && forall i :: 0 <= i < |goals| ==> goals[i] in outedges
    ensures ComponentsOf(ListedGraph(goals, outedges), components) && CallersLater(ListedGraph(goals, outedges), components)
  {
    var index: map<int, nat> := map[goals[0] := 0];
    var nodeNum := 1;
    while nodeNum < |goals|
      invariant 1 <= nodeNum <= |goals|
      invariant forall x :: x in index <==> x in goals[..nodeNum]
      invariant forall i :: 0 <= i < nodeNum ==> goals[i] in index && index[goals[i]] == i
    {
      index := index[goals[nodeNum] := nodeNum];
      assert goals[..nodeNum + 1] == goals[..nodeNum] + [goals[nodeNum]];
      nodeNum := nodeNum + 1;
    }
    assert goals[..nodeNum] == goals;
    var outGoals := seq(|goals|, i requires 0 <= i < |goals| => outedges[goals[i]]);
    forall x | x in index
      ensures index[x] < |goals|
    {
      var i :| 0 <= i < |goals| && goals[i] == x;
    }
    ResolvedAlike(goals, outedges, index, outGoals);
    var pass := new SccPass(goals, outGoals, index);
    components := pass.Run();
  }

  lemma ResolvedAlike(goals: seq<int>, outedges: map<int, seq<int>>, index: map<int, nat>, outGoals: seq<seq<int>>)
    requires |goals| > 0 && Distinct(goals) && forall i :: 0 <= i < |goals| ==> goals[i] in outedges
    requires forall x :: x in index <==> x in goals
    requires forall i :: 0 <= i < |goals| ==> goals[i] in index && index[goals[i]] == i
    requires |outGoals| == |goals| && forall i :: 0 <= i < |goals| ==> outGoals[i] == outedges[goals[i]]
    ensures ListedGraph(goals, outedges) ==
      seq(|goals|, i requires 0 <= i < |goals| => Targets(index, outGoals[i]))
  {
    var g := ListedGraph(goals, outedges);
    forall i | 0 <= i < |goals|
      ensures g[i] == Targets(index, outGoals[i])
    {
      forall k | 0 <= k < |outGoals[i]|
        ensures Position(goals, outGoals[i][k]) == Lookup(index, outGoals[i][k])
      {
      }
    }
  }

  // ----- when the numbering is the component partition -----

  lemma SinkReachesItself(g: Graph, t: nat, x: nat)
    requires Sink(g, t) && Reach(g, t, x)
    ensures x == t
  {
    if x != t {
      var w := ReachFirstStep(g, t, x);
    }
  }

  /**
   The numbering is the partition into strongly connected components, sinks
   included, exactly when every sink is listed before all other nodes that reach it.
   */
  lemma PartitionIffSinksFirst(g: Graph, components: seq<int>)
    requires ComponentsOf(g, components)
    ensures (forall u: nat, v: nat :: u < |g| && v < |g| ==> (components[u] == components[v] <==> Mutual(g, u, v)))
      <==> (forall t: nat :: Sink(g, t) ==> !ReachedBefore(g, t, t))
  {
    if forall u: nat, v: nat :: u < |g| && v < |g| ==> (components[u] == components[v] <==> Mutual(g, u, v)) {
      forall t: nat | Sink(g, t)
        ensures !ReachedBefore(g, t, t)
      {
        if ReachedBefore(g, t, t) {
          assert SharesNumber(g, components, t);
          var x: nat :| x < |g| && !Sink(g, x) && Reach(g, x, t) && components[x] == components[t];
          assert Mutual(g, x, t);
          SinkReachesItself(g, t, x);
        }
      }
    }
    if forall t: nat :: Sink(g, t) ==> !ReachedBefore(g, t, t) {
      forall u: nat, v: nat | u < |g| && v < |g|
        ensures components[u] == components[v] <==> Mutual(g, u, v)
      {
        if u == v {
          ReachRefl(g, u);
        } else if Sink(g, u) {
          if Reach(g, u, v) { SinkReachesItself(g, u, v); }
        } else if Sink(g, v) {
          if Reach(g, v, u) { SinkReachesItself(g, v, u); }
        }
      }
    }
  }

  /** One call depending on another, the caller listed first: the two are given one number. */
  lemma SinkMergedExample(components: seq<int>)
    requires ComponentsOf([[1], []], components)
    ensures components[0] == components[1] && !Mutual([[1], []], 0, 1)
  {
    var g: Graph := [[1], []];
    assert Edge(g, 0, 1) by { assert g[0][0] == 1; }
    ReachEdge(g, 0, 1);
    assert ReachedBefore(g, 1, 1);
    assert SharesNumber(g, components, 1);
    if Reach(g, 1, 0) { SinkReachesItself(g, 1, 0); }
  }
}
