/**
 The state of the strongly-connected-component pass over the incremental call
 graph, the invariant it keeps, and one lemma for each way the pass changes its
 state. The pass differs from the textbook algorithm in two ways: a cross edge
 lowers `low` to the neighbour's `low` (not its `dfn`), and a node without
 out-edges is given a component at once but stays on the stack.
 */
module SccState {
  import opened Hiding
  import opened Reachability

  datatype SccNode = SccNode(dfn: int, low: int, component: int, stack: int)

  /** Snapshot: node records, live part of the stack, the two counters. */
  datatype Pass = Pass(nodes: seq<SccNode>, stk: seq<nat>, dfn: int, component: int)

  const FRESH_NODE := SccNode(0, 0, 0, 0)

  ghost predicate Visited(s: Pass, v: nat) {
    v < |s.nodes| && s.nodes[v].dfn > 0
  }

  ghost predicate Live(s: Pass, v: nat) {
    Visited(s, v) && s.nodes[v].component == 0
  }

  ghost predicate Done(s: Pass, v: nat) {
    Visited(s, v) && s.nodes[v].component != 0
  }

  ghost predicate Sink(g: Graph, v: nat) {
    v < |g| && g[v] == []
  }

  ghost predicate Mutual(g: Graph, u: nat, v: nat) {
    Reach(g, u, v) && Reach(g, v, u)
  }

  // ----- the invariant -----

  ghost predicate Counters(g: Graph, s: Pass) {
    && |s.nodes| == |g| && s.dfn >= 1 && s.component >= 1
    && (forall v :: 0 <= v < |g| ==>
          && 0 <= s.nodes[v].dfn < s.dfn
          && 0 <= s.nodes[v].component < s.component
          && (s.nodes[v].dfn == 0 ==> s.nodes[v].component == 0))
  }

  /** Stack positions are recorded in the nodes, and the stack is in visiting order. */
  ghost predicate StackShape(g: Graph, s: Pass)
    requires |s.nodes| == |g|
  {
    && (forall i :: 0 <= i < |s.stk| ==> Visited(s, s.stk[i]) && s.nodes[s.stk[i]].stack == i)
    && (forall i :: 0 <= i < |s.stk| ==> Live(s, s.stk[i]) || Sink(g, s.stk[i]))
    && (forall i, j :: 0 <= i < j < |s.stk| ==> s.nodes[s.stk[i]].dfn < s.nodes[s.stk[j]].dfn)
    && (forall v: nat :: Live(s, v) ==>
          0 <= s.nodes[v].stack < |s.stk| && s.stk[s.nodes[v].stack] == v && !Sink(g, v))
  }

  /** `path` is the chain of calls in progress, outermost first. */
  ghost predicate CallPath(s: Pass, path: seq<nat>) {
    && (forall k :: 0 <= k < |path| ==> Live(s, path[k]))
    && (forall i, j :: 0 <= i < j < |path| ==> s.nodes[path[i]].dfn < s.nodes[path[j]].dfn)
  }

  ghost predicate FinishedClosed(g: Graph, s: Pass, path: seq<nat>) {
    forall u: nat, v: nat :: Visited(s, u) && u !in path && Edge(g, u, v) ==> Visited(s, v)
  }

  ghost predicate DoneClosed(g: Graph, s: Pass) {
    forall u: nat, v: nat :: Done(s, u) && Edge(g, u, v) ==> Done(s, v)
  }

  /** A live node reaches everything stacked above it. */
  ghost predicate StackReach(g: Graph, s: Pass) {
    forall i, j :: 0 <= i < j < |s.stk| && Live(s, s.stk[i]) ==> Reach(g, s.stk[i], s.stk[j])
  }

  ghost predicate ReachesPath(g: Graph, s: Pass, path: seq<nat>, v: nat)
    requires CallPath(s, path) && Live(s, v)
  {
    exists k :: 0 <= k < |path| && s.nodes[path[k]].dfn <= s.nodes[v].dfn && Reach(g, v, path[k])
  }

  ghost predicate LiveReachPath(g: Graph, s: Pass, path: seq<nat>)
    requires CallPath(s, path)
  {
    forall v: nat {:trigger ReachesPath(g, s, path, v)} :: Live(s, v) ==> ReachesPath(g, s, path, v)
  }

  ghost predicate LowWitness(g: Graph, s: Pass, v: nat, u: nat)
    requires Live(s, v)
  {
    Live(s, u) && s.nodes[u].dfn == s.nodes[v].low && Reach(g, v, u)
  }

  /** `low` never exceeds `dfn` and names a live node that is reached. */
  ghost predicate LowRight(g: Graph, s: Pass, v: nat)
    requires Live(s, v)
  {
    s.nodes[v].low <= s.nodes[v].dfn && exists u: nat :: LowWitness(g, s, v, u)
  }

  ghost predicate LowSound(g: Graph, s: Pass) {
    forall v: nat {:trigger LowRight(g, s, v)} :: Live(s, v) ==> LowRight(g, s, v)
  }

  ghost predicate ComponentsRight(g: Graph, s: Pass)
    requires |s.nodes| == |g|
  {
    forall u: nat, v: nat :: Done(s, u) && Done(s, v) && !Sink(g, u) && !Sink(g, v) ==>
      (s.nodes[u].component == s.nodes[v].component <==> Mutual(g, u, v))
  }

  /** Hidden by Open: a node's component is not numbered before that of a node it calls; sinks apart. */
  ghost predicate CalleesFirst(g: Graph, s: Pass)
    requires |s.nodes| == |g|
  {
    forall k {:trigger Open(k)} :: Open(k) ==>
      forall u: nat, v: nat {:trigger Edge(g, u, v)} :: Done(s, u) && Edge(g, u, v) && !Sink(g, v) ==> s.nodes[v].component <= s.nodes[u].component
  }

  /** A sink swallowed by the component of a node that reaches it. */
  ghost predicate Swallowed(g: Graph, s: Pass, t: nat)
    requires |s.nodes| == |g|
  {
    exists x: nat :: Done(s, x) && !Sink(g, x) && t < |g| && s.nodes[x].component == s.nodes[t].component && Reach(g, x, t)
  }

  ghost predicate StackedAbove(s: Pass, path: seq<nat>, t: nat) {
    && path != [] && path[0] < |s.nodes| && t < |s.nodes|
    && s.nodes[path[0]].stack < s.nodes[t].stack < |s.stk|
    && 0 <= s.nodes[t].stack && s.stk[s.nodes[t].stack] == t
  }

  /**
   `alone` holds the sinks started from the outermost loop. They keep a component
   of their own; every other visited sink is swallowed, or is still stacked above
   the outermost call and about to be.
   */
  ghost predicate SinksPlaced(g: Graph, s: Pass, path: seq<nat>, alone: set<nat>)
    requires |s.nodes| == |g|
  {
    && (forall t: nat :: t in alone ==> Sink(g, t) && Done(s, t))
    && (forall t: nat, x: nat :: t in alone && x != t && Visited(s, x) ==>
          s.nodes[x].component != s.nodes[t].component)
    && (forall t: nat :: Sink(g, t) && Visited(s, t) && t !in alone ==>
          Swallowed(g, s, t) || StackedAbove(s, path, t))
    && (path != [] && path[0] < |g| ==>
          forall i :: 0 <= i < |s.stk| && s.nodes[path[0]].stack <= i ==> s.stk[i] !in alone)
  }

  ghost predicate Inv(g: Graph, s: Pass, path: seq<nat>, alone: set<nat>) {
    && WellFormed(g)
    && Counters(g, s)
    && StackShape(g, s)
    && CallPath(s, path)
    && FinishedClosed(g, s, path)
    && DoneClosed(g, s)
    && StackReach(g, s)
    && LiveReachPath(g, s, path)
    && LowSound(g, s)
    && ComponentsRight(g, s)
    && CalleesFirst(g, s)
    && SinksPlaced(g, s, path, alone)
  }

  // ----- the state changes -----

  /** Entering a node: number it and put it on the stack. */
  ghost function Enter(s: Pass, v: nat): Pass
    requires v < |s.nodes|
  {
    Pass(s.nodes[v := s.nodes[v].(dfn := s.dfn, low := s.dfn, stack := |s.stk|)],
         s.stk + [v], s.dfn + 1, s.component)
  }

  ghost function LowerTo(s: Pass, v: nat, w: nat): Pass
    requires v < |s.nodes| && w < |s.nodes|
  {
    s.(nodes := s.nodes[v := s.nodes[v].(low := s.nodes[w].low)])
  }

  /** A node without out-edges gets the next component and stays on the stack. */
  ghost function CloseSink(s: Pass, v: nat): Pass
    requires v < |s.nodes|
  {
    s.(nodes := s.nodes[v := s.nodes[v].(component := s.component)], component := s.component + 1)
  }

  ghost function Assigned(nodes: seq<SccNode>, members: seq<nat>, component: int): seq<SccNode> {
    seq(|nodes|, i requires 0 <= i < |nodes| =>
      if i in members then nodes[i].(component := component) else nodes[i])
  }

  /** Popping everything from v upwards into one component. */
  ghost function CloseRoot(s: Pass, v: nat): Pass
    requires v < |s.nodes| && 0 <= s.nodes[v].stack <= |s.stk|
  {
    var p := s.nodes[v].stack;
    Pass(Assigned(s.nodes, s.stk[p..], s.component), s.stk[..p], s.dfn, s.component + 1)
  }

  /** Sinks apart, no node got a number. */
  lemma CalleesStay(g: Graph, s: Pass, s': Pass)
    requires |s.nodes| == |g| == |s'.nodes| && CalleesFirst(g, s)
    requires forall u: nat :: u < |g| && !Sink(g, u) ==> s'.nodes[u].component == s.nodes[u].component && (Done(s', u) ==> Done(s, u))
    ensures CalleesFirst(g, s')
  {
    assert Open(0);
    forall u: nat, v: nat | Done(s', u) && Edge(g, u, v) && !Sink(g, v)
      ensures s'.nodes[v].component <= s'.nodes[u].component
    {
      assert !Sink(g, u) && Done(s, u);
    }
  }

  // ----- entering -----

  lemma LiveBelowTopReachesTop(g: Graph, s: Pass, path: seq<nat>, u: nat)
    requires |s.nodes| == |g| && StackShape(g, s) && CallPath(s, path) && StackReach(g, s)
    requires path != [] && Live(s, u) && ReachesPath(g, s, path, u)
    ensures Reach(g, u, path[|path| - 1])
  {
    var k :| 0 <= k < |path| && s.nodes[path[k]].dfn <= s.nodes[u].dfn && Reach(g, u, path[k]);
    if k < |path| - 1 {
      var a, b := path[k], path[|path| - 1];
      assert Live(s, a) && Live(s, b) && s.nodes[a].dfn < s.nodes[b].dfn;
      var i, j := s.nodes[a].stack, s.nodes[b].stack;
      assert s.stk[i] == a && s.stk[j] == b;
      assert i < j;
      ReachTrans(g, u, a, b);
    }
  }

  /** Stack positions and numbers run in the same order. */
  lemma StackOrder(g: Graph, s: Pass, i: nat, j: nat)
    requires |s.nodes| == |g| && StackShape(g, s) && i < |s.stk| && j < |s.stk|
    ensures s.stk[i] < |g| && s.stk[j] < |g|
    ensures s.nodes[s.stk[i]].dfn < s.nodes[s.stk[j]].dfn <==> i < j
    ensures s.stk[i] == s.stk[j] <==> i == j
  {
    assert Visited(s, s.stk[i]) && Visited(s, s.stk[j]);
  }

  lemma InSuffix(t: seq<nat>, p: nat, j: nat)
    requires p <= |t| && j < |t|
    ensures p <= j ==> t[j] in t[p..]
  {
    assert p <= j ==> t[p..][j - p] == t[j];
  }

  lemma EnterStack(g: Graph, s: Pass, v: nat)
    requires Counters(g, s) && StackShape(g, s)
    requires v < |g| && !Visited(s, v)
    ensures var s' := Enter(s, v);
      (forall i :: 0 <= i < |s'.stk| ==> Visited(s', s'.stk[i]) && s'.nodes[s'.stk[i]].stack == i) &&
      (forall i, j :: 0 <= i < j < |s'.stk| ==> s'.nodes[s'.stk[i]].dfn < s'.nodes[s'.stk[j]].dfn)
  {
    var s' := Enter(s, v);
    forall i | 0 <= i < |s'.stk|
      ensures Visited(s', s'.stk[i]) && s'.nodes[s'.stk[i]].stack == i
    {
      if i < |s.stk| { assert Visited(s, s.stk[i]) && s'.stk[i] == s.stk[i]; }
    }
    forall i, j | 0 <= i < j < |s'.stk|
      ensures s'.nodes[s'.stk[i]].dfn < s'.nodes[s'.stk[j]].dfn
    {
      assert Visited(s, s.stk[i]) && s'.stk[i] == s.stk[i];
      if j < |s.stk| { assert Visited(s, s.stk[j]) && s'.stk[j] == s.stk[j]; }
    }
  }

  lemma EnterLive(g: Graph, s: Pass, path: seq<nat>, v: nat)
    requires Counters(g, s) && StackShape(g, s) && CallPath(s, path)
    requires v < |g| && !Visited(s, v) && !Sink(g, v)
    ensures var s' := Enter(s, v);
      Counters(g, s') && StackShape(g, s') && CallPath(s', path + [v])
  {
    var s' := Enter(s, v);
    EnterStack(g, s, v);
    forall i | 0 <= i < |s'.stk|
      ensures Live(s', s'.stk[i]) || Sink(g, s'.stk[i])
    {
      if i < |s.stk| { assert Live(s, s.stk[i]) || Sink(g, s.stk[i]); }
    }
    forall u: nat | Live(s', u)
      ensures 0 <= s'.nodes[u].stack < |s'.stk| && s'.stk[s'.nodes[u].stack] == u && !Sink(g, u)
    {
      if u != v { assert Live(s, u); }
    }
    EnterCallPath(g, s, path, v);
  }

  lemma EnterCallPath(g: Graph, s: Pass, path: seq<nat>, v: nat)
    requires Counters(g, s) && CallPath(s, path)
    requires v < |g| && !Visited(s, v)
    ensures CallPath(Enter(s, v), path + [v])
  {
    var s', path' := Enter(s, v), path + [v];
    forall k | 0 <= k < |path'|
      ensures Live(s', path'[k])
    {
      if k < |path| { assert Live(s, path[k]); }
    }
    forall i, j | 0 <= i < j < |path'|
      ensures s'.nodes[path'[i]].dfn < s'.nodes[path'[j]].dfn
    {
      assert Live(s, path[i]);
      if j < |path| { assert Live(s, path[j]); }
    }
  }

  lemma EnterClosed(g: Graph, s: Pass, path: seq<nat>, v: nat)
    requires Counters(g, s) && FinishedClosed(g, s, path) && DoneClosed(g, s) && ComponentsRight(g, s)
    requires v < |g| && !Visited(s, v)
    ensures var s' := Enter(s, v);
      FinishedClosed(g, s', path + [v]) && DoneClosed(g, s') && ComponentsRight(g, s')
  {
    var s' := Enter(s, v);
    var path' := path + [v];
    assert v in path' && forall u :: u in path ==> u in path';
    forall u: nat, w: nat | Visited(s', u) && u !in path' && Edge(g, u, w)
      ensures Visited(s', w)
    {
      assert Visited(s, u);
    }
    forall u: nat, w: nat | Done(s', u) && Edge(g, u, w)
      ensures Done(s', w)
    {
      assert Done(s, u);
    }
    forall u: nat, w: nat | Done(s', u) && Done(s', w) && !Sink(g, u) && !Sink(g, w)
      ensures s'.nodes[u].component == s'.nodes[w].component <==> Mutual(g, u, w)
    {
      assert Done(s, u) && Done(s, w);
    }
  }

  lemma EnterStackReach(g: Graph, s: Pass, path: seq<nat>, v: nat)
    requires |s.nodes| == |g| && StackShape(g, s) && CallPath(s, path) && StackReach(g, s) && LiveReachPath(g, s, path)
    requires v < |g| && !Visited(s, v)
    requires path != [] ==> Reach(g, path[|path| - 1], v)
    ensures StackReach(g, Enter(s, v))
  {
    var s' := Enter(s, v);
    forall i, j | 0 <= i < j < |s'.stk| && Live(s', s'.stk[i])
      ensures Reach(g, s'.stk[i], s'.stk[j])
    {
      var u := s'.stk[i];
      assert u == s.stk[i] && Visited(s, u);
      assert Live(s, u);
      if j == |s.stk| {
        assert ReachesPath(g, s, path, u);
        LiveBelowTopReachesTop(g, s, path, u);
        ReachTrans(g, u, path[|path| - 1], v);
      }
    }
  }

  lemma EnterReachPath(g: Graph, s: Pass, path: seq<nat>, v: nat)
    requires Counters(g, s) && CallPath(s, path) && LiveReachPath(g, s, path)
    requires v < |g| && !Visited(s, v)
    requires CallPath(Enter(s, v), path + [v])
    ensures LiveReachPath(g, Enter(s, v), path + [v])
  {
    var s' := Enter(s, v);
    var path' := path + [v];
    forall u: nat | Live(s', u)
      ensures ReachesPath(g, s', path', u)
    {
      if u == v {
        ReachRefl(g, v);
        assert path'[|path|] == v;
      } else {
        assert Live(s, u);
        assert ReachesPath(g, s, path, u);
        var k :| 0 <= k < |path| && s.nodes[path[k]].dfn <= s.nodes[u].dfn && Reach(g, u, path[k]);
        assert path'[k] == path[k] && Live(s, path[k]);
      }
    }
  }

  lemma EnterLow(g: Graph, s: Pass, v: nat)
    requires Counters(g, s) && LowSound(g, s)
    requires v < |g| && !Visited(s, v)
    ensures LowSound(g, Enter(s, v))
  {
    var s' := Enter(s, v);
    forall u: nat | Live(s', u)
      ensures LowRight(g, s', u)
    {
      if u == v {
        ReachRefl(g, v);
        assert LowWitness(g, s', v, v);
      } else {
        assert Live(s, u);
        assert LowRight(g, s, u);
        var w: nat :| LowWitness(g, s, u, w);
        assert LowWitness(g, s', u, w);
      }
    }
  }

  lemma EnterSinks(g: Graph, s: Pass, path: seq<nat>, alone: set<nat>, v: nat)
    requires Counters(g, s) && StackShape(g, s) && CallPath(s, path) && SinksPlaced(g, s, path, alone)
    requires v < |g| && !Visited(s, v) && !Sink(g, v)
    ensures SinksPlaced(g, Enter(s, v), path + [v], alone)
  {
    var s' := Enter(s, v);
    var path' := path + [v];
    assert path != [] ==> path'[0] == path[0] && Live(s, path[0]);
    forall t: nat, x: nat | t in alone && x != t && Visited(s', x)
      ensures s'.nodes[x].component != s'.nodes[t].component
    {
      assert Done(s, t);
      assert x != v ==> Visited(s, x);
    }
    forall t: nat | Sink(g, t) && Visited(s', t) && t !in alone
      ensures Swallowed(g, s', t) || StackedAbove(s', path', t)
    {
      if Swallowed(g, s, t) {
        var x: nat :| Done(s, x) && !Sink(g, x) && s.nodes[x].component == s.nodes[t].component && Reach(g, x, t);
        assert Done(s', x);
      } else {
        assert StackedAbove(s, path, t);
      }
    }
    forall i | 0 <= i < |s'.stk| && s'.nodes[path'[0]].stack <= i
      ensures s'.stk[i] !in alone
    {
      if i < |s.stk| { assert s'.stk[i] == s.stk[i] && path != []; }
    }
  }

  /** A call enters a node with out-edges that the innermost caller reaches. */
  lemma EnterKeeps(g: Graph, s: Pass, path: seq<nat>, alone: set<nat>, v: nat)
    requires Inv(g, s, path, alone)
    requires v < |g| && !Visited(s, v) && !Sink(g, v)
    requires path != [] ==> Reach(g, path[|path| - 1], v)
    ensures Inv(g, Enter(s, v), path + [v], alone)
  {
    EnterLive(g, s, path, v);
    EnterClosed(g, s, path, v);
    EnterStackReach(g, s, path, v);
    EnterReachPath(g, s, path, v);
    EnterLow(g, s, v);
    EnterSinks(g, s, path, alone, v);
    CalleesStay(g, s, Enter(s, v));
  }

  // ----- sinks -----

  /** A sink is entered and closed in one call, whoever calls. */
  ghost function EnterSink(s: Pass, v: nat): Pass
    requires v < |s.nodes|
  {
    CloseSink(Enter(s, v), v)
  }

  lemma SinkKeepsShape(g: Graph, s: Pass, path: seq<nat>, v: nat)
    requires Counters(g, s) && StackShape(g, s) && CallPath(s, path)
    requires v < |g| && !Visited(s, v) && Sink(g, v)
    ensures var s' := EnterSink(s, v);
      Counters(g, s') && StackShape(g, s') && CallPath(s', path)
  {
    var s0 := Enter(s, v);
    var s' := EnterSink(s, v);
    EnterStack(g, s, v);
    forall i | 0 <= i < |s'.stk|
      ensures Visited(s', s'.stk[i]) && s'.nodes[s'.stk[i]].stack == i
      ensures Live(s', s'.stk[i]) || Sink(g, s'.stk[i])
    {
      assert Visited(s0, s0.stk[i]);
      if i < |s.stk| { assert Live(s, s.stk[i]) || Sink(g, s.stk[i]); }
    }
    forall i, j | 0 <= i < j < |s'.stk|
      ensures s'.nodes[s'.stk[i]].dfn < s'.nodes[s'.stk[j]].dfn
    {
      assert Visited(s0, s0.stk[i]) && Visited(s0, s0.stk[j]);
    }
    forall u: nat | Live(s', u)
      ensures 0 <= s'.nodes[u].stack < |s'.stk| && s'.stk[s'.nodes[u].stack] == u && !Sink(g, u)
    {
      assert Live(s, u);
    }
    SinkCallPath(g, s, path, v);
  }

  lemma SinkCallPath(g: Graph, s: Pass, path: seq<nat>, v: nat)
    requires Counters(g, s) && CallPath(s, path)
    requires v < |g| && !Visited(s, v)
    ensures CallPath(EnterSink(s, v), path)
  {
    var s' := EnterSink(s, v);
    forall k | 0 <= k < |path| ensures Live(s', path[k]) { assert Live(s, path[k]); }
    forall i, j | 0 <= i < j < |path|
      ensures s'.nodes[path[i]].dfn < s'.nodes[path[j]].dfn
    {
      assert Live(s, path[i]) && Live(s, path[j]);
    }
  }

  lemma SinkKeepsClosed(g: Graph, s: Pass, path: seq<nat>, v: nat)
    requires Counters(g, s) && FinishedClosed(g, s, path) && DoneClosed(g, s) && ComponentsRight(g, s)
    requires v < |g| && !Visited(s, v) && Sink(g, v)
    ensures var s' := EnterSink(s, v);
      FinishedClosed(g, s', path) && DoneClosed(g, s') && ComponentsRight(g, s')
  {
    var s' := EnterSink(s, v);
    forall u: nat, w: nat | Visited(s', u) && u !in path && Edge(g, u, w)
      ensures Visited(s', w)
    {
      assert Visited(s, u);
    }
    forall u: nat, w: nat | Done(s', u) && Edge(g, u, w)
      ensures Done(s', w)
    {
      assert Done(s, u);
    }
    forall u: nat, w: nat | Done(s', u) && Done(s', w) && !Sink(g, u) && !Sink(g, w)
      ensures s'.nodes[u].component == s'.nodes[w].component <==> Mutual(g, u, w)
    {
      assert Done(s, u) && Done(s, w);
    }
  }

  lemma SinkKeepsReach(g: Graph, s: Pass, path: seq<nat>, v: nat)
    requires Counters(g, s) && StackShape(g, s) && CallPath(s, path) && StackReach(g, s) && LiveReachPath(g, s, path)
    requires v < |g| && !Visited(s, v) && Sink(g, v)
    requires path != [] ==> Reach(g, path[|path| - 1], v)
    ensures StackReach(g, EnterSink(s, v))
  {
    var s' := EnterSink(s, v);
    forall i, j | 0 <= i < j < |s'.stk| && Live(s', s'.stk[i])
      ensures Reach(g, s'.stk[i], s'.stk[j])
    {
      var u := s'.stk[i];
      assert u == s.stk[i] && Visited(s, u);
      assert Live(s, u);
      if j == |s.stk| {
        assert ReachesPath(g, s, path, u);
        LiveBelowTopReachesTop(g, s, path, u);
        ReachTrans(g, u, path[|path| - 1], v);
      }
    }
  }

  lemma SinkKeepsLow(g: Graph, s: Pass, v: nat)
    requires Counters(g, s) && LowSound(g, s)
    requires v < |g| && !Visited(s, v)
    ensures LowSound(g, EnterSink(s, v))
  {
    var s' := EnterSink(s, v);
    forall u: nat | Live(s', u)
      ensures LowRight(g, s', u)
    {
      assert LowRight(g, s, u);
      var w: nat :| LowWitness(g, s, u, w);
      assert LowWitness(g, s', u, w);
    }
  }

  lemma SinkKeepsReachPath(g: Graph, s: Pass, path: seq<nat>, v: nat)
    requires Counters(g, s) && CallPath(s, path) && LiveReachPath(g, s, path)
    requires v < |g| && !Visited(s, v)
    requires CallPath(EnterSink(s, v), path)
    ensures LiveReachPath(g, EnterSink(s, v), path)
  {
    var s' := EnterSink(s, v);
    forall u: nat | Live(s', u)
      ensures ReachesPath(g, s', path, u)
    {
      assert ReachesPath(g, s, path, u);
      var k :| 0 <= k < |path| && s.nodes[path[k]].dfn <= s.nodes[u].dfn && Reach(g, u, path[k]);
      assert Live(s, path[k]);
    }
  }

  lemma SinkKeepsSinks(g: Graph, s: Pass, path: seq<nat>, alone: set<nat>, v: nat)
    requires Counters(g, s) && StackShape(g, s) && CallPath(s, path) && SinksPlaced(g, s, path, alone)
    requires v < |g| && !Visited(s, v) && Sink(g, v)
    ensures SinksPlaced(g, EnterSink(s, v), path, if path == [] then alone + {v} else alone)
  {
    var s' := EnterSink(s, v);
    var alone' := if path == [] then alone + {v} else alone;
    assert path != [] ==> Live(s, path[0]);
    forall t: nat, x: nat | t in alone' && x != t && Visited(s', x)
      ensures s'.nodes[x].component != s'.nodes[t].component
    {
      assert t != v ==> Done(s, t);
      assert x != v ==> Visited(s, x);
    }
    forall t: nat | Sink(g, t) && Visited(s', t) && t !in alone'
      ensures Swallowed(g, s', t) || StackedAbove(s', path, t)
    {
      if t != v {
        assert Visited(s, t);
        if Swallowed(g, s, t) {
          var x: nat :| Done(s, x) && !Sink(g, x) && s.nodes[x].component == s.nodes[t].component && Reach(g, x, t);
          assert Done(s', x);
        } else {
          assert StackedAbove(s, path, t);
        }
      }
    }
    if path != [] {
      forall i | 0 <= i < |s'.stk| && s'.nodes[path[0]].stack <= i
        ensures s'.stk[i] !in alone
      {
        if i < |s.stk| { assert s'.stk[i] == s.stk[i]; }
      }
    }
  }

  lemma SinkKeeps(g: Graph, s: Pass, path: seq<nat>, alone: set<nat>, v: nat)
    requires Inv(g, s, path, alone)
    requires v < |g| && !Visited(s, v) && Sink(g, v)
    requires path != [] ==> Reach(g, path[|path| - 1], v)
    ensures Inv(g, EnterSink(s, v), path, if path == [] then alone + {v} else alone)
  {
    SinkKeepsShape(g, s, path, v);
    SinkKeepsClosed(g, s, path, v);
    SinkKeepsReach(g, s, path, v);
    SinkKeepsLow(g, s, v);
    SinkKeepsReachPath(g, s, path, v);
    SinkKeepsSinks(g, s, path, alone, v);
    CalleesStay(g, s, EnterSink(s, v));
  }

  // ----- lowering -----

  /** Taking over the `low` of a live node that v reaches is sound. */
  lemma LowerKeeps(g: Graph, s: Pass, path: seq<nat>, alone: set<nat>, v: nat, w: nat)
    requires Inv(g, s, path, alone)
    requires Live(s, v) && Live(s, w) && Reach(g, v, w) && s.nodes[w].low < s.nodes[v].low
    ensures Inv(g, LowerTo(s, v, w), path, alone)
  {
    var s' := LowerTo(s, v, w);
    LowerSound(g, s, v, w);
    LowerFrameShape(g, s, s', path);
    LowerFrameClosed(g, s, s', path);
    LowerFrameReachPath(g, s, s', path);
    LowerFrameSinks(g, s, s', path, alone);
    CalleesStay(g, s, s');
  }

  lemma LowerSound(g: Graph, s: Pass, v: nat, w: nat)
    requires LowSound(g, s)
    requires Live(s, v) && Live(s, w) && Reach(g, v, w) && s.nodes[w].low < s.nodes[v].low
    ensures LowSound(g, LowerTo(s, v, w))
  {
    var s' := LowerTo(s, v, w);
    forall u: nat | Live(s', u)
      ensures LowRight(g, s', u)
    {
      assert Live(s, u);
      if u == v {
        assert LowRight(g, s, v) && LowRight(g, s, w);
        var x: nat :| LowWitness(g, s, w, x);
        ReachTrans(g, v, w, x);
        assert LowWitness(g, s', v, x);
      } else {
        assert LowRight(g, s, u);
        var x: nat :| LowWitness(g, s, u, x);
        assert LowWitness(g, s', u, x);
      }
    }
  }

  /** Nothing but `LowSound` looks at `low`. */
  ghost predicate SameButLow(s: Pass, s': Pass) {
    && s'.stk == s.stk && s'.dfn == s.dfn && s'.component == s.component && |s'.nodes| == |s.nodes|
    && forall u :: 0 <= u < |s.nodes| ==> s'.nodes[u] == s.nodes[u].(low := s'.nodes[u].low)
  }

  lemma LowerFrameShape(g: Graph, s: Pass, s': Pass, path: seq<nat>)
    requires SameButLow(s, s') && Counters(g, s) && StackShape(g, s) && CallPath(s, path) && StackReach(g, s)
    ensures Counters(g, s') && StackShape(g, s') && CallPath(s', path) && StackReach(g, s')
  {
    forall i | 0 <= i < |s'.stk|
      ensures Visited(s', s'.stk[i]) && s'.nodes[s'.stk[i]].stack == i
      ensures Live(s', s'.stk[i]) || Sink(g, s'.stk[i])
    {
      assert Visited(s, s.stk[i]);
    }
    forall i, j | 0 <= i < j < |s'.stk|
      ensures s'.nodes[s'.stk[i]].dfn < s'.nodes[s'.stk[j]].dfn
      ensures Live(s', s'.stk[i]) ==> Reach(g, s'.stk[i], s'.stk[j])
    {
      assert Visited(s, s.stk[i]) && Visited(s, s.stk[j]);
    }
    forall u: nat | Live(s', u)
      ensures 0 <= s'.nodes[u].stack < |s'.stk| && s'.stk[s'.nodes[u].stack] == u && !Sink(g, u)
    {
      assert Live(s, u);
    }
    LowerFramePath(s, s', path);
  }

  lemma LowerFramePath(s: Pass, s': Pass, path: seq<nat>)
    requires SameButLow(s, s') && CallPath(s, path)
    ensures CallPath(s', path)
  {
    forall k | 0 <= k < |path| ensures Live(s', path[k]) { assert Live(s, path[k]); }
    forall i, j | 0 <= i < j < |path|
      ensures s'.nodes[path[i]].dfn < s'.nodes[path[j]].dfn
    {
      assert Live(s, path[i]) && Live(s, path[j]);
    }
  }

  lemma LowerFrameClosed(g: Graph, s: Pass, s': Pass, path: seq<nat>)
    requires SameButLow(s, s') && Counters(g, s)
    requires FinishedClosed(g, s, path) && DoneClosed(g, s) && ComponentsRight(g, s)
    ensures FinishedClosed(g, s', path) && DoneClosed(g, s') && ComponentsRight(g, s')
  {
    forall u: nat, w: nat | Visited(s', u) && u !in path && Edge(g, u, w)
      ensures Visited(s', w)
    {
      assert Visited(s, u);
    }
    forall u: nat, w: nat | Done(s', u) && Edge(g, u, w)
      ensures Done(s', w)
    {
      assert Done(s, u);
    }
    forall u: nat, w: nat | Done(s', u) && Done(s', w) && !Sink(g, u) && !Sink(g, w)
      ensures s'.nodes[u].component == s'.nodes[w].component <==> Mutual(g, u, w)
    {
      assert Done(s, u) && Done(s, w);
    }
  }

  lemma LowerFrameReachPath(g: Graph, s: Pass, s': Pass, path: seq<nat>)
    requires SameButLow(s, s') && Counters(g, s) && CallPath(s, path) && CallPath(s', path) && LiveReachPath(g, s, path)
    ensures LiveReachPath(g, s', path)
  {
    forall v: nat | Live(s', v)
      ensures ReachesPath(g, s', path, v)
    {
      assert ReachesPath(g, s, path, v);
      var k :| 0 <= k < |path| && s.nodes[path[k]].dfn <= s.nodes[v].dfn && Reach(g, v, path[k]);
      assert Live(s, path[k]);
    }
  }

  lemma LowerFrameSinks(g: Graph, s: Pass, s': Pass, path: seq<nat>, alone: set<nat>)
    requires SameButLow(s, s') && Counters(g, s) && SinksPlaced(g, s, path, alone)
    requires path != [] ==> path[0] < |g|
    ensures SinksPlaced(g, s', path, alone)
  {
    forall t: nat, x: nat | t in alone && x != t && Visited(s', x)
      ensures s'.nodes[x].component != s'.nodes[t].component
    {
      assert Done(s, t) && Visited(s, x);
    }
    forall t: nat | Sink(g, t) && Visited(s', t) && t !in alone
      ensures Swallowed(g, s', t) || StackedAbove(s', path, t)
    {
      assert Visited(s, t);
      if Swallowed(g, s, t) {
        var x: nat :| Done(s, x) && !Sink(g, x) && s.nodes[x].component == s.nodes[t].component && Reach(g, x, t);
        assert Done(s', x);
      }
    }
  }

  // ----- leaving -----

  ghost predicate SuccessorsVisited(g: Graph, s: Pass, v: nat) {
    forall w: nat :: Edge(g, v, w) ==> Visited(s, w)
  }

  /** No edge leads from the nodes at or above v to a live node below `low` of v. */
  ghost predicate LowBound(g: Graph, s: Pass, v: nat)
    requires Live(s, v)
  {
    forall y: nat, w: nat :: Live(s, y) && s.nodes[y].dfn >= s.nodes[v].dfn && Edge(g, y, w) && Live(s, w) ==>
      s.nodes[v].low <= s.nodes[w].dfn
  }

  /** A call whose node can still reach below itself returns and leaves it on the stack. */
  lemma RetireKeeps(g: Graph, s: Pass, path: seq<nat>, alone: set<nat>, v: nat)
    requires Inv(g, s, path + [v], alone)
    requires SuccessorsVisited(g, s, v) && s.nodes[(path + [v])[|path|]].low < s.nodes[v].dfn
    ensures Inv(g, s, path, alone)
  {
    var path' := path + [v];
    assert path'[|path|] == v && Live(s, v);
    RetirePath(s, path, v);
    RetireReachPath(g, s, path, v);
    assert forall u :: u in path' ==> u in path || u == v;
    assert path != [] ==> path[0] == path'[0];
  }

  lemma RetirePath(s: Pass, path: seq<nat>, v: nat)
    requires CallPath(s, path + [v])
    ensures CallPath(s, path) && Live(s, v)
    ensures forall k :: 0 <= k < |path| ==> s.nodes[path[k]].dfn < s.nodes[v].dfn
    ensures forall u :: u in path + [v] <==> u in path || u == v
  {
    var path' := path + [v];
    assert path'[|path|] == v;
    assert forall k :: 0 <= k < |path| ==> path'[k] == path[k];
    forall i, j | 0 <= i < j < |path|
      ensures s.nodes[path[i]].dfn < s.nodes[path[j]].dfn
    {
      assert s.nodes[path'[i]].dfn < s.nodes[path'[j]].dfn;
    }
    forall k | 0 <= k < |path|
      ensures s.nodes[path[k]].dfn < s.nodes[v].dfn
    {
      assert s.nodes[path'[k]].dfn < s.nodes[path'[|path|]].dfn;
    }
  }

  lemma RetireReachPath(g: Graph, s: Pass, path: seq<nat>, v: nat)
    requires CallPath(s, path + [v]) && LiveReachPath(g, s, path + [v]) && LowSound(g, s)
    requires CallPath(s, path) && Live(s, v) && s.nodes[v].low < s.nodes[v].dfn
    ensures path != [] && LiveReachPath(g, s, path)
  {
    var path' := path + [v];
    var j := RetireTarget(g, s, path, v);
    forall u: nat | Live(s, u)
      ensures ReachesPath(g, s, path, u)
    {
      assert ReachesPath(g, s, path', u);
      var k :| 0 <= k < |path'| && s.nodes[path'[k]].dfn <= s.nodes[u].dfn && Reach(g, u, path'[k]);
      if k == |path| {
        ReachTrans(g, u, v, path[j]);
        assert s.nodes[path[j]].dfn <= s.nodes[u].dfn;
      } else {
        assert path'[k] == path[k];
      }
    }
  }

  lemma RetireTarget(g: Graph, s: Pass, path: seq<nat>, v: nat) returns (j: nat)
    requires CallPath(s, path + [v]) && LiveReachPath(g, s, path + [v]) && LowSound(g, s)
    requires Live(s, v) && s.nodes[v].low < s.nodes[v].dfn
    ensures j < |path| && path[j] < |s.nodes| && s.nodes[path[j]].dfn < s.nodes[v].dfn && Reach(g, v, path[j])
  {
    var path' := path + [v];
    assert LowRight(g, s, v);
    var w: nat :| LowWitness(g, s, v, w);
    assert ReachesPath(g, s, path', w);
    j :| 0 <= j < |path'| && s.nodes[path'[j]].dfn <= s.nodes[w].dfn && Reach(g, w, path'[j]);
    ReachTrans(g, v, w, path'[j]);
    assert Live(s, path'[j]);
  }

  // ----- closing a component -----

  /** The nodes that are done once the component rooted at v is closed. */
  ghost function SettledBy(s: Pass, v: nat): set<nat>
    requires v < |s.nodes|
  {
    set z: nat | z < |s.nodes| && (Done(s, z) || (Live(s, z) && s.nodes[z].dfn >= s.nodes[v].dfn)) :: z
  }

  lemma SettledClosed(g: Graph, s: Pass, path: seq<nat>, v: nat)
    requires Counters(g, s) && FinishedClosed(g, s, path + [v]) && DoneClosed(g, s)
    requires CallPath(s, path + [v]) && Live(s, v)
    requires SuccessorsVisited(g, s, v) && LowBound(g, s, v) && s.nodes[v].low == s.nodes[v].dfn
    ensures Closed(g, SettledBy(s, v))
  {
    RetirePath(s, path, v);
    forall u: nat, w: nat | u in SettledBy(s, v) && Edge(g, u, w)
      ensures w in SettledBy(s, v)
    {
      if Done(s, u) {
        assert Done(s, w);
      } else {
        assert u !in path;
        assert Visited(s, w);
      }
    }
  }

  /** Every member of the component reaches its root, and the root reaches it. */
  lemma MembersMutual(g: Graph, s: Pass, path: seq<nat>, v: nat, y: nat)
    requires Counters(g, s) && StackShape(g, s) && CallPath(s, path + [v]) && StackReach(g, s)
    requires LiveReachPath(g, s, path + [v])
    requires Live(s, v) && Closed(g, SettledBy(s, v))
    requires Live(s, y) && s.nodes[y].dfn >= s.nodes[v].dfn
    ensures Mutual(g, v, y)
  {
    var path' := path + [v];
    RetirePath(s, path, v);
    assert ReachesPath(g, s, path', y);
    var k :| 0 <= k < |path'| && s.nodes[path'[k]].dfn <= s.nodes[y].dfn && Reach(g, y, path'[k]);
    ClosedUnderReach(g, SettledBy(s, v), y, path'[k]);
    assert Live(s, path'[k]);
    assert path'[k] == v;
    RootReachesAbove(g, s, v, s.nodes[y].stack);
  }

  lemma RootReachesAbove(g: Graph, s: Pass, v: nat, j: nat)
    requires Counters(g, s) && StackShape(g, s) && StackReach(g, s)
    requires Live(s, v) && j < |s.stk| && s.nodes[s.stk[j]].dfn >= s.nodes[v].dfn
    ensures Reach(g, v, s.stk[j])
  {
    var i := s.nodes[v].stack;
    assert s.stk[i] == v;
    StackOrder(g, s, j, i);
    if i == j {
      ReachRefl(g, v);
    }
  }

  /** On the stack, being at or above v, and being numbered no lower, are the same. */
  lemma SegmentIs(g: Graph, s: Pass, v: nat, y: nat)
    requires |s.nodes| == |g| && StackShape(g, s) && Live(s, v)
    ensures y in s.stk[s.nodes[v].stack..] <==>
            Visited(s, y) && s.nodes[y].dfn >= s.nodes[v].dfn && 0 <= s.nodes[y].stack < |s.stk| && s.stk[s.nodes[y].stack] == y
  {
    var p := s.nodes[v].stack;
    assert s.stk[p] == v;
    if y in s.stk[p..] {
      var i :| 0 <= i < |s.stk[p..]| && s.stk[p..][i] == y;
      assert s.stk[p + i] == y && Visited(s, s.stk[p + i]);
      StackOrder(g, s, p + i, p);
    }
    if y < |g| && 0 <= s.nodes[y].stack < |s.stk| {
      StackOrder(g, s, s.nodes[y].stack, p);
      InSuffix(s.stk, p, s.nodes[y].stack);
    }
  }

  lemma SegmentIsAll(g: Graph, s: Pass, v: nat)
    requires |s.nodes| == |g| && StackShape(g, s) && Live(s, v)
    ensures forall y: nat :: Live(s, y) ==> (y in s.stk[s.nodes[v].stack..] <==> s.nodes[y].dfn >= s.nodes[v].dfn)
    ensures forall y: nat :: Done(s, y) && y in s.stk[s.nodes[v].stack..] ==> Sink(g, y)
    ensures forall y: nat :: y in s.stk[s.nodes[v].stack..] ==> Visited(s, y)
  {
    forall y: nat
      ensures Live(s, y) ==> (y in s.stk[s.nodes[v].stack..] <==> s.nodes[y].dfn >= s.nodes[v].dfn)
      ensures Done(s, y) && y in s.stk[s.nodes[v].stack..] ==> Sink(g, y)
      ensures y in s.stk[s.nodes[v].stack..] ==> Visited(s, y)
    {
      SegmentIs(g, s, v, y);
    }
  }

  /** What becomes of each node when the component rooted at v is closed. */
  lemma CloseEffect(g: Graph, s: Pass, v: nat)
    requires Counters(g, s) && StackShape(g, s) && Live(s, v)
    ensures var s' := CloseRoot(s, v);
      && |s'.nodes| == |s.nodes|
      && (forall y: nat :: Visited(s', y) <==> Visited(s, y))
      && (forall y: nat :: Live(s', y) <==> Live(s, y) && s.nodes[y].dfn < s.nodes[v].dfn)
      && (forall y: nat :: Done(s', y) <==> y in SettledBy(s, v))
      && (forall y: nat :: y < |g| ==>
            s'.nodes[y] == s.nodes[y].(component := if y in s.stk[s.nodes[v].stack..] then s.component else s.nodes[y].component))
  {
    SegmentIsAll(g, s, v);
  }

  lemma CloseShape(g: Graph, s: Pass, v: nat)
    requires Counters(g, s) && StackShape(g, s) && Live(s, v)
    ensures var s' := CloseRoot(s, v);
      Counters(g, s') && StackShape(g, s')
  {
    var s' := CloseRoot(s, v);
    var p := s.nodes[v].stack;
    CloseEffect(g, s, v);
    assert s.stk[p] == v;
    forall i | 0 <= i < |s'.stk|
      ensures Visited(s', s'.stk[i]) && s'.nodes[s'.stk[i]].stack == i
      ensures Live(s', s'.stk[i]) || Sink(g, s'.stk[i])
    {
      assert s'.stk[i] == s.stk[i] && Visited(s, s.stk[i]);
      StackOrder(g, s, i, p);
    }
    forall i, j | 0 <= i < j < |s'.stk|
      ensures s'.nodes[s'.stk[i]].dfn < s'.nodes[s'.stk[j]].dfn
    {
      StackOrder(g, s, i, j);
    }
    forall u: nat | Live(s', u)
      ensures 0 <= s'.nodes[u].stack < |s'.stk| && s'.stk[s'.nodes[u].stack] == u && !Sink(g, u)
    {
      assert Live(s, u);
      StackOrder(g, s, s.nodes[u].stack, p);
    }
  }

  lemma CloseCallPath(g: Graph, s: Pass, path: seq<nat>, v: nat)
    requires Counters(g, s) && StackShape(g, s) && CallPath(s, path + [v]) && Live(s, v)
    ensures CallPath(CloseRoot(s, v), path)
  {
    var s' := CloseRoot(s, v);
    RetirePath(s, path, v);
    CloseEffect(g, s, v);
    forall k | 0 <= k < |path| ensures Live(s', path[k]) { assert Live(s, path[k]); }
    forall i, j | 0 <= i < j < |path|
      ensures s'.nodes[path[i]].dfn < s'.nodes[path[j]].dfn
    {
      assert Live(s, path[i]) && Live(s, path[j]);
    }
  }

  lemma CloseClosed(g: Graph, s: Pass, path: seq<nat>, v: nat)
    requires Counters(g, s) && StackShape(g, s) && Live(s, v) && CallPath(s, path + [v])
    requires FinishedClosed(g, s, path + [v]) && SuccessorsVisited(g, s, v) && Closed(g, SettledBy(s, v))
    ensures FinishedClosed(g, CloseRoot(s, v), path) && DoneClosed(g, CloseRoot(s, v))
  {
    var s' := CloseRoot(s, v);
    CloseEffect(g, s, v);
    RetirePath(s, path, v);
    forall u: nat, w: nat | Visited(s', u) && u !in path && Edge(g, u, w)
      ensures Visited(s', w)
    {
      assert Visited(s, u);
    }
    forall u: nat, w: nat | Done(s', u) && Edge(g, u, w)
      ensures Done(s', w)
    {
      assert u in SettledBy(s, v);
    }
  }

  lemma CloseStackReach(g: Graph, s: Pass, v: nat)
    requires Counters(g, s) && StackShape(g, s) && Live(s, v) && StackReach(g, s)
    ensures StackReach(g, CloseRoot(s, v))
  {
    var s' := CloseRoot(s, v);
    CloseEffect(g, s, v);
    forall i, j | 0 <= i < j < |s'.stk| && Live(s', s'.stk[i])
      ensures Reach(g, s'.stk[i], s'.stk[j])
    {
      assert s'.stk[i] == s.stk[i] && s'.stk[j] == s.stk[j] && Live(s, s.stk[i]);
    }
  }

  lemma CloseReachPath(g: Graph, s: Pass, path: seq<nat>, v: nat)
    requires Counters(g, s) && StackShape(g, s) && Live(s, v)
    requires CallPath(s, path + [v]) && LiveReachPath(g, s, path + [v])
    requires CallPath(CloseRoot(s, v), path)
    ensures LiveReachPath(g, CloseRoot(s, v), path)
  {
    var s' := CloseRoot(s, v);
    var path' := path + [v];
    CloseEffect(g, s, v);
    forall u: nat | Live(s', u)
      ensures ReachesPath(g, s', path, u)
    {
      assert Live(s, u) && ReachesPath(g, s, path', u);
      var k :| 0 <= k < |path'| && s.nodes[path'[k]].dfn <= s.nodes[u].dfn && Reach(g, u, path'[k]);
      assert k < |path| && path'[k] == path[k];
      assert Live(s', path[k]);
    }
  }

  lemma CloseLow(g: Graph, s: Pass, v: nat)
    requires Counters(g, s) && StackShape(g, s) && Live(s, v) && LowSound(g, s)
    ensures LowSound(g, CloseRoot(s, v))
  {
    var s' := CloseRoot(s, v);
    CloseEffect(g, s, v);
    forall u: nat | Live(s', u)
      ensures LowRight(g, s', u)
    {
      assert LowRight(g, s, u);
      var w: nat :| LowWitness(g, s, u, w);
      assert LowWitness(g, s', u, w);
    }
  }

  lemma CloseComponents(g: Graph, s: Pass, path: seq<nat>, v: nat)
    requires Counters(g, s) && StackShape(g, s) && Live(s, v) && CallPath(s, path + [v]) && StackReach(g, s)
    requires LiveReachPath(g, s, path + [v]) && DoneClosed(g, s) && ComponentsRight(g, s) && Closed(g, SettledBy(s, v))
    ensures ComponentsRight(g, CloseRoot(s, v))
  {
    var s' := CloseRoot(s, v);
    CloseEffect(g, s, v);
    SegmentIsAll(g, s, v);
    forall u: nat, w: nat | Done(s', u) && Done(s', w) && !Sink(g, u) && !Sink(g, w)
      ensures s'.nodes[u].component == s'.nodes[w].component <==> Mutual(g, u, w)
    {
      if Live(s, u) && Live(s, w) {
        MembersMutual(g, s, path, v, u);
        MembersMutual(g, s, path, v, w);
        ReachTrans(g, u, v, w);
        ReachTrans(g, w, v, u);
      } else if Live(s, u) {
        NotMutual(g, s, w, u);
      } else if Live(s, w) {
        NotMutual(g, s, u, w);
      }
    }
  }

  lemma NotMutual(g: Graph, s: Pass, u: nat, w: nat)
    requires Counters(g, s) && DoneClosed(g, s) && Done(s, u) && Live(s, w)
    ensures !Mutual(g, u, w) && !Mutual(g, w, u)
  {
    if Reach(g, u, w) {
      ClosedUnderReach(g, set z: nat | z < |g| && Done(s, z) :: z, u, w);
    }
  }

  lemma CloseSinks(g: Graph, s: Pass, path: seq<nat>, alone: set<nat>, v: nat)
    requires Counters(g, s) && StackShape(g, s) && Live(s, v) && CallPath(s, path + [v]) && StackReach(g, s)
    requires SinksPlaced(g, s, path + [v], alone)
    ensures SinksPlaced(g, CloseRoot(s, v), path, alone)
  {
    var s' := CloseRoot(s, v);
    var path' := path + [v];
    var p := s.nodes[v].stack;
    RetirePath(s, path, v);
    CloseEffect(g, s, v);
    SegmentIsAll(g, s, v);
    CloseSinksAlone(g, s, path, alone, v);
    assert path != [] ==> path'[0] == path[0];
    forall t: nat, x: nat | t in alone && x != t && Visited(s', x)
      ensures s'.nodes[x].component != s'.nodes[t].component
    {
      assert Done(s, t) && Visited(s, x);
    }
    forall t: nat | Sink(g, t) && Visited(s', t) && t !in alone
      ensures Swallowed(g, s', t) || StackedAbove(s', path, t)
    {
      CloseSink1(g, s, path, alone, v, t);
    }
    forall i | path != [] && 0 <= i < |s'.stk| && s'.nodes[path[0]].stack <= i
      ensures s'.stk[i] !in alone
    {
      assert Live(s, path[0]);
      assert s'.stk[i] == s.stk[i];
    }
  }

  lemma OutermostLowest(g: Graph, s: Pass, path: seq<nat>, v: nat)
    requires Counters(g, s) && StackShape(g, s) && Live(s, v) && CallPath(s, path + [v])
    ensures s.nodes[(path + [v])[0]].stack <= s.nodes[v].stack
  {
    RetirePath(s, path, v);
    var a := (path + [v])[0];
    if path != [] {
      assert a == path[0] && Live(s, a);
      StackOrder(g, s, s.nodes[a].stack, s.nodes[v].stack);
    }
  }

  lemma CloseSinksAlone(g: Graph, s: Pass, path: seq<nat>, alone: set<nat>, v: nat)
    requires Counters(g, s) && StackShape(g, s) && Live(s, v) && CallPath(s, path + [v])
    requires SinksPlaced(g, s, path + [v], alone)
    ensures forall t :: t in alone ==> t !in s.stk[s.nodes[v].stack..]
  {
    var path' := path + [v];
    var p := s.nodes[v].stack;
    OutermostLowest(g, s, path, v);
    RetirePath(s, path, v);
    assert path'[0] < |g|;
    forall i | 0 <= i < |s.stk[p..]|
      ensures s.stk[p..][i] !in alone
    {
      assert s.stk[p..][i] == s.stk[p + i];
    }
  }

  lemma CloseSink1(g: Graph, s: Pass, path: seq<nat>, alone: set<nat>, v: nat, t: nat)
    requires Counters(g, s) && StackShape(g, s) && Live(s, v) && CallPath(s, path + [v]) && StackReach(g, s)
    requires SinksPlaced(g, s, path + [v], alone)
    requires Sink(g, t) && Visited(s, t) && t !in alone
    ensures Swallowed(g, CloseRoot(s, v), t) || StackedAbove(CloseRoot(s, v), path, t)
  {
    var s' := CloseRoot(s, v);
    var path' := path + [v];
    var p := s.nodes[v].stack;
    CloseEffect(g, s, v);
    SegmentIsAll(g, s, v);
    assert s.stk[p] == v && v == s.stk[p..][0];
    if t in s.stk[p..] {
      var i :| 0 <= i < |s.stk[p..]| && s.stk[p..][i] == t;
      assert s.stk[p + i] == t;
      SegmentIs(g, s, v, t);
      RootReachesAbove(g, s, v, p + i);
      assert Done(s', v);
    } else if Swallowed(g, s, t) {
      var x: nat :| Done(s, x) && !Sink(g, x) && s.nodes[x].component == s.nodes[t].component && Reach(g, x, t);
      assert x in SettledBy(s, v);
      assert Done(s', x);
    } else {
      CloseSinkBelow(g, s, path, v, t);
    }
  }

  /** A sink that stays on the stack lies above the call path that remains. */
  lemma CloseSinkBelow(g: Graph, s: Pass, path: seq<nat>, v: nat, t: nat)
    requires Counters(g, s) && StackShape(g, s) && Live(s, v) && CallPath(s, path + [v]) && StackReach(g, s)
    requires Sink(g, t) && Visited(s, t) && StackedAbove(s, path + [v], t) && t !in s.stk[s.nodes[v].stack..]
    ensures StackedAbove(CloseRoot(s, v), path, t)
  {
    var s' := CloseRoot(s, v);
    var path' := path + [v];
    CloseEffect(g, s, v);
    var j := s.nodes[t].stack;
    InSuffix(s.stk, s.nodes[v].stack, j);
    RetirePath(s, path, v);
    assert path != [];
    assert path'[0] == path[0] && Live(s, path[0]);
    assert s'.stk[j] == t;
  }

  /** A call whose node cannot reach below itself closes its component. */
  lemma CloseKeeps(g: Graph, s: Pass, path: seq<nat>, alone: set<nat>, v: nat)
    requires Inv(g, s, path + [v], alone) && Live(s, v)
    requires SuccessorsVisited(g, s, v) && LowBound(g, s, v) && s.nodes[v].low == s.nodes[v].dfn
    ensures Inv(g, CloseRoot(s, v), path, alone)
  {
    SettledClosed(g, s, path, v);
    CloseShape(g, s, v);
    CloseCallPath(g, s, path, v);
    CloseClosed(g, s, path, v);
    CloseStackReach(g, s, v);
    CloseReachPath(g, s, path, v);
    CloseLow(g, s, v);
    CloseComponents(g, s, path, v);
    CloseSinks(g, s, path, alone, v);
    CloseCallees(g, s, v);
  }

  /** The new component is numbered after all that its members call. */
  lemma CloseCallees(g: Graph, s: Pass, v: nat)
    requires Counters(g, s) && StackShape(g, s) && DoneClosed(g, s) && Live(s, v) && CalleesFirst(g, s)
    ensures CalleesFirst(g, CloseRoot(s, v))
  {
    assert Open(0);
    var s' := CloseRoot(s, v);
    CloseEffect(g, s, v);
    SegmentIsAll(g, s, v);
    forall u: nat, w: nat | Done(s', u) && Edge(g, u, w) && !Sink(g, w)
      ensures s'.nodes[w].component <= s'.nodes[u].component
    {
      if Done(s, u) { assert Done(s, w); }
    }
  }
}
