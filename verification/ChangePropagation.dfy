/**
 Marking of the incremental call graph: invalidation of a changed node by a
 depth-first walk with an explicit stack, and withdrawal of a change by counting
 down. Every node keeps the number of affected nodes with an edge to it; ghost
 state records which edges are currently counted.
 */
module ChangePropagation {
  import opened Hiding
  import opened Reachability

  /** A stack frame of the walk; `itr` is the current out-edge, -1 before the first. */
  datatype Frame = Frame(cn: nat, itr: int)

  // ----- graph notions -----

  ghost predicate IsTarget(g: Graph, v: nat) {
    exists u: nat :: Edge(g, u, v)
  }

  ghost predicate OnCycle(g: Graph, x: nat) {
    exists u: nat :: Edge(g, x, u) && Reach(g, u, x)
  }

  ghost predicate ReachedFrom(g: Graph, s: set<nat>, w: nat) {
    exists x: nat :: x in s && Reach(g, x, w)
  }

  /** A cycle that an invalidated source ever reached keeps itself marked. */
  ghost predicate HeldByCycle(g: Graph, sources: set<nat>, w: nat) {
    exists x: nat :: OnCycle(g, x) && ReachedFrom(g, sources, x) && Reach(g, x, w)
  }

  /** Marked when, of all `sources` ever invalidated, those in `live` stand. */
  ghost predicate Spanned(g: Graph, sources: set<nat>, live: set<nat>, w: nat) {
    ReachedFrom(g, live, w) || HeldByCycle(g, sources, w)
  }

  ghost predicate IsSpan(g: Graph, sources: set<nat>, live: set<nat>, affected: set<nat>) {
    forall w: nat {:trigger Spanned(g, sources, live, w)} :: w < |g| ==> (w in affected <==> Spanned(g, sources, live, w))
  }

  ghost function Span(g: Graph, sources: set<nat>, live: set<nat>): set<nat> {
    set w: nat | w < |g| && Spanned(g, sources, live, w)
  }

  ghost function TargetSet(g: Graph, u: nat): set<nat>
    requires u < |g|
  {
    set w: nat | w in g[u]
  }

  ghost predicate OneEdgeEach(g: Graph) {
    forall u, i, j :: 0 <= u < |g| && 0 <= i < j < |g[u]| ==> g[u][i] != g[u][j]
  }

  // ----- counting edges -----

  ghost function Supporters(counted: seq<set<nat>>, w: nat): set<nat> {
    set u: nat | u < |counted| && w in counted[u] :: u
  }

  lemma CountEdge(counted: seq<set<nat>>, u: nat, w: nat, x: nat)
    requires u < |counted| && w !in counted[u]
    ensures var c := counted[u := counted[u] + {w}];
      |Supporters(c, x)| == |Supporters(counted, x)| + if x == w then 1 else 0
  {
    var c := counted[u := counted[u] + {w}];
    forall v: nat
      ensures v in Supporters(c, x) <==> v in Supporters(counted, x) + if x == w then {u} else {}
    {
      if v < |c| { assert c[v] == if v == u then counted[u] + {w} else counted[v]; }
    }
    assert Supporters(c, x) == Supporters(counted, x) + if x == w then {u} else {};
  }

  lemma DiscountEdge(counted: seq<set<nat>>, u: nat, w: nat, x: nat)
    requires u < |counted| && w in counted[u]
    ensures var c := counted[u := counted[u] - {w}];
      |Supporters(counted, x)| == |Supporters(c, x)| + if x == w then 1 else 0
  {
    var c := counted[u := counted[u] - {w}];
    CountEdge(c, u, w, x);
    assert c[u] + {w} == counted[u];
    assert c[u := c[u] + {w}] == counted;
  }

  // ----- the invariant -----

  datatype Marks = Marks(deleted: seq<bool>, falsecount: seq<int>, counted: seq<set<nat>>)

  /** A call invalidated itself counts once more than its affected neighbours. */
  ghost function Own(sources: set<nat>, w: nat): nat {
    if w in sources then 1 else 0
  }

  /**
   A node with in-edges has the right count and is marked exactly when affected, and
   so is one never invalidated. A fact has no in-edges, and its own mark is never set.
   */
  ghost predicate Tallied(g: Graph, isFact: seq<bool>, m: Marks, sources: set<nat>, affected: set<nat>) {
    && WellFormed(g) && OneEdgeEach(g)
    && |m.deleted| == |m.falsecount| == |m.counted| == |isFact| == |g|
    && (forall s :: s in sources ==> s < |g| && (isFact[s] ==> !IsTarget(g, s)) && (IsTarget(g, s) || m.deleted[s] == !isFact[s]))
    && (forall w: nat :: w < |g| && (w !in sources || IsTarget(g, w)) ==>
          && m.falsecount[w] == |Supporters(m.counted, w)| + Own(sources, w)
          && (w in affected <==> m.falsecount[w] > 0)
          && (w in affected <==> m.deleted[w]))
    && (forall u: nat, w: nat :: u < |g| && w in m.counted[u] ==> w in g[u])
    && (forall w :: w in affected ==> w < |g|)
  }

  /** At rest exactly the edges out of affected nodes are counted. */
  ghost predicate Settled(g: Graph, m: Marks, affected: set<nat>) {
    |m.counted| == |g| &&
    forall u: nat :: u < |g| ==> m.counted[u] == if u in affected then TargetSet(g, u) else {}
  }

  ghost predicate Balanced(g: Graph, isFact: seq<bool>, m: Marks, sources: set<nat>, live: set<nat>, affected: set<nat>) {
    && Tallied(g, isFact, m, sources, affected)
    && Settled(g, m, affected)
    && live <= sources && Standing(g, sources, live, affected)
    && IsSpan(g, sources, live, affected)
  }

  /** Of the invalidated nodes those are marked whose change stands; only nodes without in-edges have theirs withdrawn. */
  ghost predicate Standing(g: Graph, sources: set<nat>, live: set<nat>, affected: set<nat>) {
    forall s :: s in sources ==> (s in affected <==> s in live) && (IsTarget(g, s) ==> s in live)
  }

  lemma SpanIs(g: Graph, sources: set<nat>, live: set<nat>, affected: set<nat>)
    requires IsSpan(g, sources, live, affected) && forall w :: w in affected ==> w < |g|
    ensures affected == Span(g, sources, live)
  {
    forall w: nat
      ensures w in affected <==> w in Span(g, sources, live)
    {
      assert w < |g| ==> (w in affected <==> Spanned(g, sources, live, w));
    }
  }

  // ----- properties of the span -----

  lemma SpanGrows(g: Graph, sources: set<nat>, live: set<nat>, s: nat, affected: set<nat>)
    requires affected == Span(g, sources, live) && s < |g|
    ensures Span(g, sources + {s}, live + {s}) == affected + (set w: nat | w < |g| && Reach(g, s, w))
  {
    var r := set w: nat | w < |g| && Reach(g, s, w);
    forall w: nat | w < |g|
      ensures w in Span(g, sources + {s}, live + {s}) <==> w in affected + r
    {
      if ReachedFrom(g, live + {s}, w) {
        var x: nat :| x in live + {s} && Reach(g, x, w);
        if x != s { assert ReachedFrom(g, live, w); }
      }
      if HeldByCycle(g, sources + {s}, w) {
        var x: nat :| OnCycle(g, x) && ReachedFrom(g, sources + {s}, x) && Reach(g, x, w);
        var y: nat :| y in sources + {s} && Reach(g, y, x);
        if y == s {
          ReachTrans(g, s, x, w);
        } else {
          assert ReachedFrom(g, sources, x);
        }
      }
      if ReachedFrom(g, live, w) {
        var x: nat :| x in live && Reach(g, x, w);
        assert x in live + {s};
      }
      if HeldByCycle(g, sources, w) {
        var x: nat :| OnCycle(g, x) && ReachedFrom(g, sources, x) && Reach(g, x, w);
        var y: nat :| y in sources && Reach(g, y, x);
        assert y in sources + {s};
      }
      if w in r { assert s in live + {s} && Reach(g, s, w); }
    }
  }

  /** Every spanned node is a live source or has a spanned predecessor. */
  lemma SpanSupported(g: Graph, sources: set<nat>, live: set<nat>, w: nat) returns (u: nat)
    requires w in Span(g, sources, live) && w !in live
    ensures u in Span(g, sources, live) && Edge(g, u, w)
  {
    if ReachedFrom(g, live, w) {
      var x: nat :| x in live && Reach(g, x, w);
      u := ReachLastStep(g, x, w);
      assert ReachedFrom(g, live, u);
    } else {
      var x: nat :| OnCycle(g, x) && ReachedFrom(g, sources, x) && Reach(g, x, w);
      if x != w {
        u := ReachLastStep(g, x, w);
        assert HeldByCycle(g, sources, u);
      } else {
        u := CyclePredecessor(g, x);
        assert HeldByCycle(g, sources, u);
      }
    }
  }

  lemma CyclePredecessor(g: Graph, x: nat) returns (u: nat)
    requires OnCycle(g, x)
    ensures Edge(g, u, x) && Reach(g, x, u)
  {
    var y: nat :| Edge(g, x, y) && Reach(g, y, x);
    if y == x {
      u := x;
      ReachRefl(g, x);
    } else {
      u := ReachLastStep(g, y, x);
      ReachEdge(g, x, y);
      ReachTrans(g, x, y, u);
    }
  }

  lemma SpanShrinks(g: Graph, sources: set<nat>, live: set<nat>, less: set<nat>)
    requires less <= live
    ensures Span(g, sources, less) <= Span(g, sources, live)
  {
    forall w: nat | w < |g| && ReachedFrom(g, less, w)
      ensures ReachedFrom(g, live, w)
    {
      var x: nat :| x in less && Reach(g, x, w);
      assert x in live;
    }
  }

  /** A node nothing points to is spanned only as a live source. */
  lemma UntargetedInSpan(g: Graph, sources: set<nat>, live: set<nat>, s: nat)
    requires s in Span(g, sources, live) && !IsTarget(g, s)
    ensures s in live
  {
    if s !in live {
      var u := SpanSupported(g, sources, live, s);
    }
  }

  /** A set in which every member is live or has a predecessor lies within the span. */
  lemma SupportedIsSpanned(g: Graph, sources: set<nat>, live: set<nat>, all: set<nat>, a: set<nat>, w: nat)
    requires a <= Span(g, sources, all) && all <= sources && live <= a && w in a
    requires forall x: nat :: x in a && x !in live ==> exists u: nat :: u in a && Edge(g, u, x)
    ensures w in Span(g, sources, live)
  {
    assert IsPath(g, [w]);
    WalkBack(g, sources, live, all, a, w, [w]);
  }

  lemma {:induction false} WalkBack(g: Graph, sources: set<nat>, live: set<nat>, all: set<nat>, a: set<nat>, w: nat, p: seq<nat>)
    requires a <= Span(g, sources, all) && all <= sources && live <= a
    requires forall x: nat :: x in a && x !in live ==> exists u: nat :: u in a && Edge(g, u, x)
    requires IsPath(g, p) && NoRepeats(p) && p[0] in a && p[|p| - 1] == w
    ensures w in Span(g, sources, live)
    decreases |g| - |p|
  {
    var x := p[0];
    assert PathFromTo(g, p, x, w);
    if x in live {
      assert ReachedFrom(g, live, w) by { assert Reach(g, x, w); }
    } else {
      var u: nat :| u in a && Edge(g, u, x);
      PathCons(g, u, p);
      if u in p {
        BackOntoPath(g, sources, all, u, p);
      } else {
        ConsNoRepeats(u, p);
        PathLength(g, [u] + p);
        WalkBack(g, sources, live, all, a, w, [u] + p);
      }
    }
  }

  lemma BackOntoPath(g: Graph, sources: set<nat>, all: set<nat>, u: nat, p: seq<nat>)
    requires IsPath(g, p) && u in p && Edge(g, u, p[0]) && u in Span(g, sources, all) && all <= sources
    ensures HeldByCycle(g, sources, p[|p| - 1])
  {
    var w := p[|p| - 1];
    var k :| 0 <= k < |p| && p[k] == u;
    assert PathFromTo(g, p[..k + 1], p[0], u);
    assert OnCycle(g, u);
    assert PathFromTo(g, p[k..], u, w) by {
      forall i | 0 <= i < |p[k..]| - 1
        ensures Edge(g, p[k..][i], p[k..][i + 1])
      {
        assert p[k..][i] == p[k + i] && p[k..][i + 1] == p[k + i + 1];
      }
    }
    SpannedFromSource(g, sources, all, u);
    assert Reach(g, u, w);
  }

  lemma SpannedFromSource(g: Graph, sources: set<nat>, live: set<nat>, x: nat)
    requires x in Span(g, sources, live) && live <= sources
    ensures ReachedFrom(g, sources, x)
  {
    if ReachedFrom(g, live, x) {
      var y: nat :| y in live && Reach(g, y, x);
      assert y in sources;
    } else {
      var z: nat :| OnCycle(g, z) && ReachedFrom(g, sources, z) && Reach(g, z, x);
      var y: nat :| y in sources && Reach(g, y, z);
      ReachTrans(g, y, z, x);
    }
  }

  // ----- withdrawing a change -----

  /** Some nodes were just unmarked and their edges are still being discounted. */
  ghost predicate Withdrawing(g: Graph, isFact: seq<bool>, m: Marks, sources: set<nat>, live: set<nat>, affected: set<nat>, pending: set<nat>) {
    && WellFormed(g) && |m.deleted| == |m.falsecount| == |m.counted| == |g|
    && forall k {:trigger Open(k)} :: Open(k) ==>
      && Tallied(g, isFact, m, sources, affected)
      && (forall u: nat :: u < |g| && u !in pending ==> m.counted[u] == if u in affected then TargetSet(g, u) else {})
      && pending !! affected
      && Standing(g, sources, live, affected)
  }

  /** Nodes that keep each other marked. */
  ghost predicate Supported(g: Graph, live: set<nat>, keep: set<nat>) {
    forall w: nat :: w in keep && w !in live ==> exists u: nat :: u in keep && Edge(g, u, w)
  }

  ghost function Discount(m: Marks, c: nat, w: nat): Marks
    requires w < |m.falsecount| && c < |m.counted|
  {
    m.(falsecount := m.falsecount[w := m.falsecount[w] - 1], counted := m.counted[c := m.counted[c] - {w}])
  }

  lemma SupportNeeded(g: Graph, isFact: seq<bool>, m: Marks, sources: set<nat>, affected: set<nat>, c: nat, w: nat)
    requires Tallied(g, isFact, m, sources, affected) && c < |g| && w in m.counted[c]
    ensures Edge(g, c, w) && w < |g| && IsTarget(g, w) && w in affected && m.falsecount[w] > Own(sources, w)
  {
    assert w in g[c];
    var i :| 0 <= i < |g[c]| && g[c][i] == w;
    assert Edge(g, c, w);
    assert IsTarget(g, w);
    assert c in Supporters(m.counted, w);
    assert |Supporters(m.counted, w)| > 0;
  }

  lemma TallyAfterDiscount(g: Graph, isFact: seq<bool>, m: Marks, sources: set<nat>, affected: set<nat>, c: nat, w: nat)
    requires Tallied(g, isFact, m, sources, affected) && c < |g| && w in m.counted[c] && w < |g|
    ensures var m1 := Discount(m, c, w);
      if m1.falsecount[w] > 0 then Tallied(g, isFact, m1, sources, affected)
      else Tallied(g, isFact, m1.(deleted := m1.deleted[w := false]), sources, affected - {w})
  {
    var m1 := Discount(m, c, w);
    SupportNeeded(g, isFact, m, sources, affected, c, w);
    forall x: nat | x < |g| && (x !in sources || IsTarget(g, x))
      ensures m1.falsecount[x] == |Supporters(m1.counted, x)| + Own(sources, x)
    {
      DiscountEdge(m.counted, c, w, x);
    }
    forall u: nat, x: nat | u < |g| && x in m1.counted[u]
      ensures x in g[u]
    {
      assert x in m.counted[u];
    }
  }

  lemma KeptStaysSupported(g: Graph, isFact: seq<bool>, m: Marks, sources: set<nat>, live: set<nat>, affected: set<nat>, pending: set<nat>, keep: set<nat>, c: nat, w: nat)
    requires Withdrawing(g, isFact, m, sources, live, affected, pending)
    requires live <= sources && keep <= affected && Supported(g, live, keep)
    requires c in pending && c < |g| && w in m.counted[c] && w < |g| && w in keep
    ensures Discount(m, c, w).falsecount[w] > 0
  {
    assert Open(0);
    var m1 := Discount(m, c, w);
    SupportNeeded(g, isFact, m, sources, affected, c, w);
    if w in live { return; }
    var u: nat :| u in keep && Edge(g, u, w);
    assert w in m1.counted[u];
    assert u in Supporters(m1.counted, w);
    DiscountEdge(m.counted, c, w, w);
    assert |Supporters(m1.counted, w)| > 0;
  }

  /** Discounting the next edge of c leaves either the same affected nodes, or one more to withdraw. */
  lemma WithdrawStep(g: Graph, isFact: seq<bool>, m: Marks, sources: set<nat>, live: set<nat>, affected: set<nat>, pending: set<nat>, keep: set<nat>, c: nat, k: nat)
    requires c < |g| && k < |g[c]| && c !in pending
    requires Withdrawing(g, isFact, m, sources, live, affected, pending + {c}) && m.counted[c] == Suffix(g, c, k)
    requires live <= sources && keep <= affected && Supported(g, live, keep)
    ensures var w := g[c][k];
      var m1 := Discount(m, c, w);
      && w < |g| && m.falsecount[w] > 0 && m1.counted[c] == Suffix(g, c, k + 1)
      && (m1.falsecount[w] > 0 ==> Withdrawing(g, isFact, m1, sources, live, affected, pending + {c}))
      && (m1.falsecount[w] == 0 ==>
            && w !in pending + {c} && w in affected && w !in keep && m1.counted[w] == TargetSet(g, w)
            && Withdrawing(g, isFact, m1.(deleted := m1.deleted[w := false]), sources, live, affected - {w}, pending + {c} + {w}))
  {
    assert Open(0);
    var w := g[c][k];
    SuffixNext(g, c, k);
    SupportNeeded(g, isFact, m, sources, affected, c, w);
    TallyAfterDiscount(g, isFact, m, sources, affected, c, w);
    if w in keep {
      KeptStaysSupported(g, isFact, m, sources, live, affected, pending + {c}, keep, c, w);
    }
  }

  /** With none of its edges counted any more, c is no exception. */
  lemma WithdrawDone(g: Graph, isFact: seq<bool>, m: Marks, sources: set<nat>, live: set<nat>, affected: set<nat>, pending: set<nat>, c: nat)
    requires Withdrawing(g, isFact, m, sources, live, affected, pending + {c}) && c < |g| && m.counted[c] == Suffix(g, c, |g[c]|)
    ensures Withdrawing(g, isFact, m, sources, live, affected, pending)
  {
    assert Open(0);
    assert Suffix(g, c, |g[c]|) == {};
  }

  // ----- the explicit-stack walk -----

  ghost function Prefix(g: Graph, u: nat, k: int): set<nat>
    requires u < |g| && 0 <= k <= |g[u]|
  {
    set w: nat | w in g[u][..k]
  }

  ghost predicate OnStack(frames: seq<Frame>, u: nat) {
    exists i :: 0 <= i < |frames| && frames[i].cn == u
  }

  /** Of frame i the edges before the current one are counted, and the current one
      too unless the top frame has just moved on. */
  ghost function Handled(frames: seq<Frame>, i: int, moved: bool): int
    requires 0 <= i < |frames|
  {
    if moved && i == |frames| - 1 then frames[i].itr else frames[i].itr + 1
  }

  ghost predicate FramesRight(g: Graph, m: Marks, affected: set<nat>, frames: seq<Frame>, moved: bool) {
    && |m.counted| == |g|
    && (forall i, j :: 0 <= i < j < |frames| ==> frames[i].cn != frames[j].cn)
    && (forall i :: 0 <= i < |frames| ==>
          && frames[i].cn < |g| && frames[i].cn in affected && -1 <= frames[i].itr < |g[frames[i].cn]|
          && 0 <= Handled(frames, i, moved)
          && m.counted[frames[i].cn] == Prefix(g, frames[i].cn, Handled(frames, i, moved)))
  }

  /** Every frame stands for a node and one of its edges, or none yet. */
  ghost predicate InRange(g: Graph, frames: seq<Frame>, moved: bool) {
    && (forall i :: 0 <= i < |frames| ==> frames[i].cn < |g| && -1 <= frames[i].itr < |g[frames[i].cn]|)
    && (moved ==> frames != [] && frames[|frames| - 1].itr >= 0)
  }

  ghost predicate Walking(g: Graph, isFact: seq<bool>, m: Marks, sources: set<nat>, affected: set<nat>, frames: seq<Frame>, moved: bool) {
    && WellFormed(g) && |m.deleted| == |m.falsecount| == |m.counted| == |isFact| == |g| && InRange(g, frames, moved)
    && forall k {:trigger Open(k)} :: Open(k) ==>
      && Tallied(g, isFact, m, sources, affected)
      && FramesRight(g, m, affected, frames, moved)
      && (forall u: nat :: u < |g| && !OnStack(frames, u) ==> m.counted[u] == if u in affected then TargetSet(g, u) else {})
  }

  ghost function Moved(frames: seq<Frame>): seq<Frame>
    requires frames != []
  {
    var top := frames[|frames| - 1];
    frames[|frames| - 1 := Frame(top.cn, top.itr + 1)]
  }

  lemma WalkMove(g: Graph, isFact: seq<bool>, m: Marks, sources: set<nat>, affected: set<nat>, frames: seq<Frame>)
    requires Walking(g, isFact, m, sources, affected, frames, false) && frames != []
    requires frames[|frames| - 1].itr + 1 < |g[frames[|frames| - 1].cn]|
    ensures Walking(g, isFact, m, sources, affected, Moved(frames), true)
  {
    assert Open(0);
    var f := Moved(frames);
    forall i | 0 <= i < |f|
      ensures f[i].cn == frames[i].cn && Handled(f, i, true) == Handled(frames, i, false)
    {
    }
    forall u: nat | OnStack(frames, u)
      ensures OnStack(f, u)
    {
      var i :| 0 <= i < |frames| && frames[i].cn == u;
      assert f[i].cn == u;
    }
  }

  /** The top frame is at its end: all edges out of its node are counted. */
  lemma PopFrames(g: Graph, m: Marks, affected: set<nat>, frames: seq<Frame>)
    requires FramesRight(g, m, affected, frames, false) && frames != []
    requires frames[|frames| - 1].itr + 1 == |g[frames[|frames| - 1].cn]|
    requires forall u: nat :: u < |g| && !OnStack(frames, u) ==> m.counted[u] == if u in affected then TargetSet(g, u) else {}
    ensures var f := frames[..|frames| - 1];
      && FramesRight(g, m, affected, f, false)
      && forall u: nat :: u < |g| && !OnStack(f, u) ==> m.counted[u] == if u in affected then TargetSet(g, u) else {}
  {
    var n := |frames| - 1;
    var f := frames[..n];
    var v := frames[n].cn;
    assert g[v][..|g[v]|] == g[v];
    assert m.counted[v] == Prefix(g, v, Handled(frames, n, false));
    forall i | 0 <= i < |f|
      ensures f[i] == frames[i] && Handled(f, i, false) == Handled(frames, i, false)
    {
    }
    forall u: nat | OnStack(frames, u) && u != v
      ensures OnStack(f, u)
    {
      var i :| 0 <= i < |frames| && frames[i].cn == u;
      assert i < n && f[i].cn == u;
    }
  }

  lemma WalkPop(g: Graph, isFact: seq<bool>, m: Marks, sources: set<nat>, affected: set<nat>, frames: seq<Frame>)
    requires Walking(g, isFact, m, sources, affected, frames, false) && frames != []
    requires frames[|frames| - 1].itr + 1 == |g[frames[|frames| - 1].cn]|
    ensures Walking(g, isFact, m, sources, affected, frames[..|frames| - 1], false)
  {
    assert Open(0);
    PopFrames(g, m, affected, frames);
  }

  ghost function CountOne(m: Marks, u: nat, w: nat): Marks
    requires w < |m.falsecount| && u < |m.counted|
  {
    m.(falsecount := m.falsecount[w := m.falsecount[w] + 1], counted := m.counted[u := m.counted[u] + {w}])
  }

  lemma TallyAfterCount(g: Graph, isFact: seq<bool>, m: Marks, sources: set<nat>, affected: set<nat>, u: nat, w: nat)
    requires Tallied(g, isFact, m, sources, affected) && Edge(g, u, w) && w !in m.counted[u]
    ensures var m1 := CountOne(m, u, w);
      Tallied(g, isFact, m1.(deleted := m1.deleted[w := true]), sources, affected + {w})
    ensures m.deleted[w] ==> Tallied(g, isFact, CountOne(m, u, w), sources, affected)
  {
    assert IsTarget(g, w);
    var m1 := CountOne(m, u, w);
    forall x: nat | x < |g| && (x !in sources || IsTarget(g, x))
      ensures m1.falsecount[x] == |Supporters(m1.counted, x)| + Own(sources, x)
    {
      CountEdge(m.counted, u, w, x);
    }
    forall v: nat, x: nat | v < |g| && x in m1.counted[v]
      ensures x in g[v]
    {
      if v != u || x != w { assert x in m.counted[v]; }
    }
    if m.deleted[w] {
      assert affected + {w} == affected && m1.deleted[w := true] == m1.deleted;
    }
  }

  lemma InOneMore(s: seq<nat>, k: nat, x: nat)
    requires k < |s|
    ensures x in s[..k + 1] <==> x in s[..k] || x == s[k]
  {
    assert s[..k + 1] == s[..k] + [s[k]];
  }

  lemma NextEdgeNew(g: Graph, u: nat, k: nat)
    requires OneEdgeEach(g) && u < |g| && k < |g[u]|
    ensures g[u][k] !in Prefix(g, u, k) && Prefix(g, u, k) + {g[u][k]} == Prefix(g, u, k + 1)
  {
    forall x: nat
      ensures x in g[u][..k + 1] <==> x in g[u][..k] || x == g[u][k]
    {
      InOneMore(g[u], k, x);
    }
  }

  /** Counting the current edge of the top frame to a node marked before. */
  lemma WalkCount(g: Graph, isFact: seq<bool>, m: Marks, sources: set<nat>, affected: set<nat>, frames: seq<Frame>)
    requires Walking(g, isFact, m, sources, affected, frames, true)
    ensures var top := frames[|frames| - 1];
      var w := g[top.cn][top.itr];
      var m1 := CountOne(m, top.cn, w);
      && Edge(g, top.cn, w) && IsTarget(g, w) && top.cn in affected && (w in affected <==> m.deleted[w])
      && (m.deleted[w] ==> Walking(g, isFact, m1, sources, affected, frames, false))
  {
    assert Open(0);
    var n := |frames| - 1;
    var u := frames[n].cn;
    var w := g[u][frames[n].itr];
    assert Handled(frames, n, true) == frames[n].itr;
    NextEdgeNew(g, u, frames[n].itr);
    TallyAfterCount(g, isFact, m, sources, affected, u, w);
    assert Edge(g, u, w) && IsTarget(g, w);
    WalkCountFrames(g, m, affected, frames);
    var m1 := CountOne(m, u, w);
    forall x: nat | x < |g| && !OnStack(frames, x)
      ensures m1.counted[x] == m.counted[x]
    {
      assert x != u;
    }
  }

  lemma WalkCountFrames(g: Graph, m: Marks, affected: set<nat>, frames: seq<Frame>)
    requires WellFormed(g) && OneEdgeEach(g) && |m.falsecount| == |g|
    requires frames != [] && FramesRight(g, m, affected, frames, true)
    ensures var top := frames[|frames| - 1];
      FramesRight(g, CountOne(m, top.cn, g[top.cn][top.itr]), affected, frames, false)
  {
    var n := |frames| - 1;
    var u := frames[n].cn;
    var w := g[u][frames[n].itr];
    var m1 := CountOne(m, u, w);
    assert Handled(frames, n, true) == frames[n].itr;
    NextEdgeNew(g, u, frames[n].itr);
    forall i | 0 <= i < |frames|
      ensures 0 <= Handled(frames, i, false)
      ensures m1.counted[frames[i].cn] == Prefix(g, frames[i].cn, Handled(frames, i, false))
    {
      if i < n { assert Handled(frames, i, false) == Handled(frames, i, true) && frames[i].cn != frames[n].cn; }
    }
  }

  /** Counting the current edge of the top frame to an unmarked node, which is marked and pushed. */
  lemma WalkPush(g: Graph, isFact: seq<bool>, m: Marks, sources: set<nat>, affected: set<nat>, frames: seq<Frame>)
    requires Walking(g, isFact, m, sources, affected, frames, true)
    requires var top := frames[|frames| - 1]; var w := g[top.cn][top.itr]; !m.deleted[w]
    ensures var top := frames[|frames| - 1];
      var w := g[top.cn][top.itr];
      var m1 := CountOne(m, top.cn, w);
      Walking(g, isFact, m1.(deleted := m1.deleted[w := true]), sources, affected + {w}, frames + [Frame(w, -1)], false)
  {
    assert Open(0);
    var n := |frames| - 1;
    var u := frames[n].cn;
    var w := g[u][frames[n].itr];
    WalkCount(g, isFact, m, sources, affected, frames);
    NextEdgeNew(g, u, frames[n].itr);
    assert Handled(frames, n, true) == frames[n].itr;
    TallyAfterCount(g, isFact, m, sources, affected, u, w);
    WalkCountFrames(g, m, affected, frames);
    var c := CountOne(m, u, w);
    var m1 := c.(deleted := c.deleted[w := true]);
    var f := frames + [Frame(w, -1)];
    assert w !in affected;
    assert !OnStack(frames, w);
    assert w != u;
    assert m1.counted[w] == {} && Prefix(g, w, 0) == {};
    forall i | 0 <= i < |f|
      ensures f[i].cn < |g| && f[i].cn in affected + {w} && -1 <= f[i].itr < |g[f[i].cn]|
      ensures 0 <= Handled(f, i, false)
      ensures m1.counted[f[i].cn] == Prefix(g, f[i].cn, Handled(f, i, false))
    {
      if i <= n { assert f[i] == frames[i] && Handled(f, i, false) == Handled(frames, i, false); }
    }
    forall i, j | 0 <= i < j < |f|
      ensures f[i].cn != f[j].cn
    {
      if j == n + 1 { assert OnStack(frames, frames[i].cn); }
    }
    assert f[n + 1].cn == w && f[n].cn == u;
    forall x: nat | OnStack(frames, x)
      ensures OnStack(f, x)
    {
      var i :| 0 <= i < |frames| && frames[i].cn == x;
      assert f[i].cn == x;
    }
  }

  // ----- the graph with its marks -----

  class IncrGraph {
    const g: Graph
    /** Nodes of dynamic facts carry no subgoal. */
    const isFact: seq<bool>
    const completed: seq<bool>

    var deleted: seq<bool>
    var falsecount: seq<int>

    ghost var counted: seq<set<nat>>
    /** Every node ever invalidated as a source of change, and those whose change stands. */
    ghost var sources: set<nat>
    ghost var live: set<nat>
    /** The nodes marked on account of the standing sources. */
    ghost var affected: set<nat>

    ghost function M(): Marks
      reads this
    {
      Marks(deleted, falsecount, counted)
    }

    ghost predicate Valid()
      reads this
    {
      |completed| == |g| && Balanced(g, isFact, M(), sources, live, affected)
    }

    constructor (g: Graph, isFact: seq<bool>, completed: seq<bool>)
      requires WellFormed(g) && OneEdgeEach(g) && |isFact| == |completed| == |g|
      ensures Valid() && this.g == g && this.isFact == isFact && this.completed == completed
      ensures sources == {} && live == {}
      ensures forall v :: 0 <= v < |g| ==> !deleted[v] && falsecount[v] == 0
    {
      this.g, this.isFact, this.completed := g, isFact, completed;
      deleted, falsecount := seq(|g|, _ => false), seq(|g|, _ => 0);
      counted, sources, live, affected := seq(|g|, _ => {}), {}, {}, {};
      new;
      NothingSpanned(g);
    }

    /** Calls for a standing source: its change turned out to leave the answers as they were. */
    method WithdrawSource(s: nat)
      requires Valid() && s in live && !IsTarget(g, s)
      modifies this`deleted, this`falsecount, this`counted, this`live, this`affected
      ensures Valid() && live == old(live) - {s}
      ensures forall v :: v in sources && !IsTarget(g, v) ==> deleted[v] == old(deleted[v])
    {
      ghost var all := live;
      SpanIs(g, sources, live, affected);
      ghost var keep := Span(g, sources, live - {s});
      WithdrawStart(g, isFact, M(), sources, live, affected, s);
      live := live - {s};
      affected := PropagateNoChange(s, affected - {s}, {}, keep);
      RestIsSpan(g, isFact, M(), sources, all, live, affected);
    }

    /** Counts one down at each neighbour of c; a neighbour left without support is unmarked in turn. */
    method PropagateNoChange(c: nat, ghost from: set<nat>, ghost pending: set<nat>, ghost keep: set<nat>)
      returns (ghost rest: set<nat>)
      requires c < |g| && c !in pending
      requires Withdrawing(g, isFact, M(), sources, live, from, pending + {c}) && counted[c] == TargetSet(g, c)
      requires live <= sources && keep <= from && Supported(g, live, keep)
      modifies this`deleted, this`falsecount, this`counted
      ensures Withdrawing(g, isFact, M(), sources, live, rest, pending)
      ensures keep <= rest <= from && (forall u :: u in pending && u < |g| ==> counted[u] == old(counted[u]))
      decreases from
    {
      rest := from;
      var k := 0;
      while k < |g[c]|
        invariant 0 <= k <= |g[c]|
        invariant Withdrawing(g, isFact, M(), sources, live, rest, pending + {c})
        invariant counted[c] == Suffix(g, c, k)
        invariant keep <= rest <= from && (forall u :: u in pending && u < |g| ==> counted[u] == old(counted[u]))
      {
        var cn := g[c][k];
        WithdrawStep(g, isFact, M(), sources, live, rest, pending, keep, c, k);
        if falsecount[cn] > 0 {
          falsecount := falsecount[cn := falsecount[cn] - 1];
          counted := counted[c := counted[c] - {cn}];
          if falsecount[cn] == 0 {
            deleted := deleted[cn := false];
            rest := PropagateNoChange(cn, rest - {cn}, pending + {c}, keep);
          }
        }
        k := k + 1;
      }
      WithdrawDone(g, isFact, M(), sources, live, rest, pending, c);
    }

    /**
     Marks everything the changed node s affects. A fact, whose mark is never set, is
     invalidated once, until withdrawn; a marked call is left alone. The walk is
     abandoned at the first newly affected call whose table is incomplete.
     */
    method InvalidateCall(s: nat) returns (aborted: bool)
      requires Valid() && s < |g| && (isFact[s] ==> !IsTarget(g, s))
      requires isFact[s] ==> s !in live
      modifies this
      ensures old(deleted[s]) ==> !aborted && M() == old(M()) && sources == old(sources) && live == old(live)
      ensures !old(deleted[s]) ==>
        && (aborted <==> MeetsBlock(g, isFact, completed, old(affected), s))
        && sources == old(sources) + {s} && live == old(live) + {s}
        && |falsecount| == |old(falsecount)| == |g|
        && (!aborted && !IsTarget(g, s) ==> falsecount[s] == old(falsecount[s]) + 1)
      ensures !aborted ==> Valid()
    {
      aborted := false;
      if !deleted[s] {
        ghost var m, before := M(), affected;
        WalkStart(g, isFact, completed, m, sources, live, before, s);
        falsecount := falsecount[s := falsecount[s] + 1];
        sources, live := sources + {s}, live + {s};
        aborted, affected := DfsOutedges(s, m, before);
        KeptMeans(g, s, m.falsecount[s := m.falsecount[s] + 1], falsecount);
        if !aborted { WalkDone(g, isFact, completed, m, M(), old(sources), old(live), before, s, affected); }
      }
    }

    /** The walk from s, whose count was just raised from the marks m. */
    method DfsOutedges(s: nat, ghost m: Marks, ghost before: set<nat>)
      returns (aborted: bool, ghost reached: set<nat>)
      requires |isFact| == |completed| == |g| && s < |g| && s in sources && Closed(g, before) && s < |m.falsecount| && s < |m.deleted|
      requires M() == m.(falsecount := m.falsecount[s := m.falsecount[s] + 1])
      requires Walking(g, isFact, StartMarks(m, isFact, s), sources, before + {s},
        if |g[s]| > 0 then [Frame(s, -1)] else [], false)
      requires if isFact[s] || completed[s]
        then WalkedFrom(g, isFact, completed, before, s, before + {s})
        else MeetsBlock(g, isFact, completed, before, s)
      modifies this`deleted, this`falsecount, this`counted
      ensures |falsecount| == |g| && KeepsOwn(g, s, old(falsecount), falsecount)
      ensures aborted ==> MeetsBlock(g, isFact, completed, before, s)
      ensures !aborted ==>
        && Walking(g, isFact, M(), sources, reached, [], false)
        && WalkedFrom(g, isFact, completed, before, s, reached)
    {
      if !isFact[s] && !completed[s] {
        return true, {};
      }
      MarkStart(s, m);
      var frames := if |g[s]| > 0 then [Frame(s, -1)] else [];
      aborted, reached := Walk(frames, s, before + {s}, before);
    }

    /** A fact's own mark is not set. */
    method MarkStart(s: nat, ghost m: Marks)
      requires s < |isFact| && s < |m.falsecount| && s < |m.deleted| && M() == m.(falsecount := m.falsecount[s := m.falsecount[s] + 1])
      modifies this`deleted
      ensures M() == StartMarks(m, isFact, s)
    {
      if !isFact[s] { deleted := deleted[s := true]; }
    }

    /** The loop of the walk, from a given stack until it is empty. */
    method Walk(frames0: seq<Frame>, s: nat, ghost reached0: set<nat>, ghost before: set<nat>)
      returns (aborted: bool, ghost reached: set<nat>)
      requires |completed| == |g| && s < |g| && s in sources && Closed(g, before)
      requires Walking(g, isFact, M(), sources, reached0, frames0, false)
      requires WalkedFrom(g, isFact, completed, before, s, reached0)
      modifies this`deleted, this`falsecount, this`counted
      ensures |falsecount| == |g| && KeepsOwn(g, s, old(falsecount), falsecount)
      ensures aborted ==> MeetsBlock(g, isFact, completed, before, s)
      ensures !aborted ==>
        && Walking(g, isFact, M(), sources, reached, [], false)
        && WalkedFrom(g, isFact, completed, before, s, reached)
    {
      var frames := frames0;
      reached := reached0;
      while frames != []
        invariant Walking(g, isFact, M(), sources, reached, frames, false)
        invariant WalkedFrom(g, isFact, completed, before, s, reached)
        invariant |falsecount| == |g| && KeepsOwn(g, s, old(falsecount), falsecount)
        decreases Unmarked(g, reached), Remaining(g, frames)
      {
        frames := NextEdge(frames, reached);
        if frames != [] {
          ghost var count := falsecount;
          aborted, frames, reached := VisitEdge(frames, s, reached, before);
          KeepsOn(g, s, old(falsecount), count, falsecount);
          if aborted { return; }
        }
      }
      aborted := false;
    }

    /** Counts the current edge of the top frame; an unmarked target is marked and pushed. */
    method VisitEdge(frames0: seq<Frame>, s: nat, ghost reached0: set<nat>, ghost before: set<nat>)
      returns (aborted: bool, frames: seq<Frame>, ghost reached: set<nat>)
      requires |completed| == |g| && s < |g| && s in sources && Closed(g, before)
      requires Walking(g, isFact, M(), sources, reached0, frames0, true)
      requires WalkedFrom(g, isFact, completed, before, s, reached0)
      modifies this`deleted, this`falsecount, this`counted
      ensures aborted ==> MeetsBlock(g, isFact, completed, before, s)
      ensures !aborted ==>
        && Walking(g, isFact, M(), sources, reached, frames, false)
        && WalkedFrom(g, isFact, completed, before, s, reached)
      ensures !aborted ==>
        (frames == frames0 && reached == reached0) || Unmarked(g, reached) < Unmarked(g, reached0)
      ensures |falsecount| == |g| && KeepsOwn(g, s, old(falsecount), falsecount)
    {
      aborted, frames, reached := false, frames0, reached0;
      var top := frames[|frames| - 1];
      var cn := g[top.cn][top.itr];
      WalkVisit(g, isFact, completed, M(), before, s, sources, reached, frames);
      CountsOther(g, s, top.cn, cn, falsecount);
      falsecount := falsecount[cn := falsecount[cn] + 1];
      counted := counted[top.cn := counted[top.cn] + {cn}];
      if !deleted[cn] {
        if !isFact[cn] && !completed[cn] {
          aborted := true;
          return;
        }
        deleted := deleted[cn := true];
        reached := reached + {cn};
        frames := frames + [Frame(cn, -1)];
      }
    }

    /** Moves the top frame on to its next out-edge, popping exhausted frames. */
    method NextEdge(frames0: seq<Frame>, ghost reached: set<nat>) returns (frames: seq<Frame>)
      requires Walking(g, isFact, M(), sources, reached, frames0, false) && frames0 != []
      ensures Walking(g, isFact, M(), sources, reached, frames, frames != [])
      ensures Remaining(g, frames) < Remaining(g, frames0)
    {
      frames := frames0;
      var itr := -1;
      ghost var remaining := Remaining(g, frames0);
      while itr == -1 && frames != []
        invariant Walking(g, isFact, M(), sources, reached, frames, itr != -1)
        invariant (itr == -1 && frames == frames0) || Remaining(g, frames) < remaining
        decreases Remaining(g, frames)
      {
        var top := frames[|frames| - 1];
        RemainingMove(g, frames);
        if top.itr + 1 < |g[top.cn]| {
          WalkMove(g, isFact, M(), sources, reached, frames);
          itr := top.itr + 1;
          assert Moved(frames) == frames[|frames| - 1 := Frame(top.cn, itr)];
          frames := frames[|frames| - 1 := Frame(top.cn, itr)];
        } else {
          WalkPop(g, isFact, M(), sources, reached, frames);
          frames := frames[..|frames| - 1];
        }
      }
    }
  }

  /** An incomplete table that invalidating s would newly affect. */
  ghost predicate BlocksWalk(g: Graph, isFact: seq<bool>, completed: seq<bool>, before: set<nat>, s: nat, u: nat)
    requires |isFact| == |completed| == |g| && u < |g|
  {
    Reach(g, s, u) && u !in before && !isFact[u] && !completed[u]
  }

  /** The walk from s counts edges only: a node without in-edges keeps its own count. */
  ghost predicate KeepsOwn(g: Graph, s: nat, count: seq<int>, count': seq<int>) {
    |count'| == |count| && forall k {:trigger Open(k)} :: Open(k) ==> s < |count| && !IsTarget(g, s) ==> count'[s] == count[s]
  }

  lemma CountsOther(g: Graph, s: nat, u: nat, w: nat, count: seq<int>)
    requires Edge(g, u, w) && w < |count|
    ensures KeepsOwn(g, s, count, count[w := count[w] + 1])
  {
    assert s == w ==> IsTarget(g, s);
  }

  lemma KeptMeans(g: Graph, s: nat, count: seq<int>, count': seq<int>)
    requires KeepsOwn(g, s, count, count') && s < |count|
    ensures IsTarget(g, s) || count'[s] == count[s]
  {
    assert Open(0);
  }

  lemma KeepsOn(g: Graph, s: nat, a: seq<int>, b: seq<int>, c: seq<int>)
    requires KeepsOwn(g, s, a, b) && KeepsOwn(g, s, b, c)
    ensures KeepsOwn(g, s, a, c)
  {
    assert Open(0);
  }

  ghost predicate MeetsBlock(g: Graph, isFact: seq<bool>, completed: seq<bool>, before: set<nat>, s: nat)
    requires |isFact| == |completed| == |g|
  {
    exists u: nat :: u < |g| && BlocksWalk(g, isFact, completed, before, s, u)
  }

  ghost function Unmarked(g: Graph, affected: set<nat>): set<nat> {
    set u: nat | u < |g| && u !in affected
  }

  ghost predicate WalkedFrom(g: Graph, isFact: seq<bool>, completed: seq<bool>, before: set<nat>, s: nat, affected: set<nat>)
    requires |isFact| == |completed| == |g|
  {
    forall k {:trigger Open(k)} :: Open(k) ==>
      && before <= affected && s in affected
      && forall u: nat :: u in affected && u !in before ==> u < |g| && Reach(g, s, u) && (isFact[u] || completed[u])
  }

  ghost function Remaining(g: Graph, frames: seq<Frame>): nat
    requires InRange(g, frames, false)
  {
    if frames == [] then 0
    else
      var top := frames[|frames| - 1];
      Remaining(g, frames[..|frames| - 1]) + |g[top.cn]| - top.itr
  }

  lemma RemainingMove(g: Graph, frames: seq<Frame>)
    requires InRange(g, frames, false)
    requires frames != []
    ensures InRange(g, frames[..|frames| - 1], false) && Remaining(g, frames[..|frames| - 1]) < Remaining(g, frames)
    ensures var top := frames[|frames| - 1];
      top.itr + 1 < |g[top.cn]| ==> InRange(g, Moved(frames), true) && Remaining(g, Moved(frames)) < Remaining(g, frames)
  {
    var n := |frames| - 1;
    if frames[n].itr + 1 < |g[frames[n].cn]| {
      assert Moved(frames)[..n] == frames[..n];
    }
  }

  ghost function StartMarks(m: Marks, isFact: seq<bool>, s: nat): Marks
    requires s < |m.falsecount| && s < |m.deleted| && s < |isFact|
  {
    m.(falsecount := m.falsecount[s := m.falsecount[s] + 1],
       deleted := if isFact[s] then m.deleted else m.deleted[s := true])
  }

  lemma StartTallied(g: Graph, isFact: seq<bool>, m: Marks, sources: set<nat>, affected: set<nat>, s: nat)
    requires Tallied(g, isFact, m, sources, affected)
    requires s < |g| && (isFact[s] ==> !IsTarget(g, s)) && !m.deleted[s]
    ensures Tallied(g, isFact, StartMarks(m, isFact, s), sources + {s}, affected + {s})
  {
    var m1 := StartMarks(m, isFact, s);
    forall w: nat | w < |g| && w !in sources + {s}
      ensures m1.falsecount[w] == m.falsecount[w] && m1.deleted[w] == m.deleted[w]
    {
    }
  }

  lemma NotMarkedYet(g: Graph, isFact: seq<bool>, m: Marks, sources: set<nat>, live: set<nat>, affected: set<nat>, s: nat)
    requires Balanced(g, isFact, m, sources, live, affected) && s < |g| && s !in live && !m.deleted[s]
    ensures s !in affected && Closed(g, affected)
  {
    SettledClosed(g, isFact, m, sources, affected);
    if s in affected && !IsTarget(g, s) {
      SpanIs(g, sources, live, affected);
      UntargetedInSpan(g, sources, live, s);
    }
  }

  lemma WalkedNone(g: Graph, isFact: seq<bool>, completed: seq<bool>, affected: set<nat>, s: nat)
    requires |isFact| == |completed| == |g| && s < |g| && s !in affected
    ensures if isFact[s] || completed[s]
      then WalkedFrom(g, isFact, completed, affected, s, affected + {s})
      else MeetsBlock(g, isFact, completed, affected, s)
  {
    ReachRefl(g, s);
    assert isFact[s] || completed[s] || BlocksWalk(g, isFact, completed, affected, s, s);
  }

  lemma WalkStart(g: Graph, isFact: seq<bool>, completed: seq<bool>, m: Marks, sources: set<nat>, live: set<nat>, affected: set<nat>, s: nat)
    requires Balanced(g, isFact, m, sources, live, affected) && |completed| == |g|
    requires s < |g| && (isFact[s] ==> !IsTarget(g, s)) && s !in live && !m.deleted[s]
    ensures Closed(g, affected)
    ensures Walking(g, isFact, StartMarks(m, isFact, s), sources + {s}, affected + {s},
      if |g[s]| > 0 then [Frame(s, -1)] else [], false)
    ensures if isFact[s] || completed[s]
      then WalkedFrom(g, isFact, completed, affected, s, affected + {s})
      else MeetsBlock(g, isFact, completed, affected, s)
  {
    NotMarkedYet(g, isFact, m, sources, live, affected, s);
    StartTallied(g, isFact, m, sources, affected, s);
    StartFrames(g, m, affected, s);
    WalkedNone(g, isFact, completed, affected, s);
  }

  lemma StartFrames(g: Graph, m: Marks, affected: set<nat>, s: nat)
    requires WellFormed(g) && Settled(g, m, affected) && s < |g| && s !in affected
    ensures var frames := if |g[s]| > 0 then [Frame(s, -1)] else [];
      && FramesRight(g, m, affected + {s}, frames, false)
      && (forall u: nat :: u < |g| && !OnStack(frames, u) ==>
            m.counted[u] == if u in affected + {s} then TargetSet(g, u) else {})
  {
    var frames := if |g[s]| > 0 then [Frame(s, -1)] else [];
    assert m.counted[s] == {} && Prefix(g, s, 0) == {};
    if |g[s]| == 0 { assert TargetSet(g, s) == {}; } else { assert frames[0].cn == s; }
  }

  /** The walk only ever meets nodes affected before or reached from its start. */
  lemma WalkedTo(g: Graph, isFact: seq<bool>, completed: seq<bool>, before: set<nat>, s: nat, affected: set<nat>, u: nat, w: nat)
    requires |isFact| == |completed| == |g| && Closed(g, before)
    requires WalkedFrom(g, isFact, completed, before, s, affected) && Edge(g, u, w) && u in affected
    ensures w in before || Reach(g, s, w)
  {
    assert Open(0);
    if u !in before {
      ReachEdge(g, u, w);
      ReachTrans(g, s, u, w);
    }
  }

  /** One turn of the walk: what counting the current edge of the top frame does. */
  lemma WalkVisit(g: Graph, isFact: seq<bool>, completed: seq<bool>, m: Marks, before: set<nat>, s: nat, sources: set<nat>, affected: set<nat>, frames: seq<Frame>)
    requires |completed| == |g| && s < |g| && s in sources && Closed(g, before)
    requires Walking(g, isFact, m, sources, affected, frames, true)
    requires WalkedFrom(g, isFact, completed, before, s, affected)
    ensures var top := frames[|frames| - 1];
      var w := g[top.cn][top.itr];
      var m1 := CountOne(m, top.cn, w);
      && w < |g| && Edge(g, top.cn, w)
      && (m.deleted[w] ==> Walking(g, isFact, m1, sources, affected, frames, false))
      && (!m.deleted[w] && !isFact[w] && !completed[w] ==> BlocksWalk(g, isFact, completed, before, s, w))
      && (!m.deleted[w] && (isFact[w] || completed[w]) ==>
            && Walking(g, isFact, m1.(deleted := m1.deleted[w := true]), sources, affected + {w}, frames + [Frame(w, -1)], false)
            && WalkedFrom(g, isFact, completed, before, s, affected + {w})
            && Unmarked(g, affected + {w}) < Unmarked(g, affected))
  {
    var top := frames[|frames| - 1];
    var w := g[top.cn][top.itr];
    assert Open(0);
    WalkCount(g, isFact, m, sources, affected, frames);
    WalkedTo(g, isFact, completed, before, s, affected, top.cn, w);
    if !m.deleted[w] {
      WalkPush(g, isFact, m, sources, affected, frames);
      assert w in Unmarked(g, affected) && w !in Unmarked(g, affected + {w});
      assert Unmarked(g, affected + {w}) <= Unmarked(g, affected);
    }
  }

  /** At rest the affected nodes are closed under edges. */
  lemma SettledClosed(g: Graph, isFact: seq<bool>, m: Marks, sources: set<nat>, affected: set<nat>)
    requires Tallied(g, isFact, m, sources, affected) && Settled(g, m, affected)
    ensures Closed(g, affected)
  {
    forall u: nat, w: nat | u in affected && Edge(g, u, w)
      ensures w in affected
    {
      assert w in m.counted[u];
      SupportNeeded(g, isFact, m, sources, affected, u, w);
    }
  }

  lemma WalkDone(g: Graph, isFact: seq<bool>, completed: seq<bool>, m0: Marks, m: Marks, sources: set<nat>, live: set<nat>, before: set<nat>, s: nat, affected: set<nat>)
    requires |isFact| == |completed| == |g| && s < |g| && Balanced(g, isFact, m0, sources, live, before)
    requires Walking(g, isFact, m, sources + {s}, affected, [], false)
    requires WalkedFrom(g, isFact, completed, before, s, affected)
    ensures Balanced(g, isFact, m, sources + {s}, live + {s}, affected)
    ensures !MeetsBlock(g, isFact, completed, before, s)
  {
    assert Open(0);
    assert forall u :: !OnStack([], u);
    SettledClosed(g, isFact, m, sources + {s}, affected);
    SpanIs(g, sources, live, before);
    SpanGrows(g, sources, live, s, before);
    var r := set w: nat | w < |g| && Reach(g, s, w);
    forall w: nat | w in r
      ensures w in affected
    {
      ClosedUnderReach(g, affected, s, w);
    }
    assert affected == before + r;
    LiveSourcesMarked(g, sources + {s}, live + {s}, affected);
  }

  lemma LiveSourcesMarked(g: Graph, sources: set<nat>, live: set<nat>, affected: set<nat>)
    requires affected == Span(g, sources, live) && live <= sources
    requires forall x :: x in sources ==> x < |g| && (IsTarget(g, x) ==> x in live)
    ensures IsSpan(g, sources, live, affected) && Standing(g, sources, live, affected)
  {
    forall x | x in sources
      ensures x in affected <==> x in live
    {
      if x in affected && !IsTarget(g, x) { UntargetedInSpan(g, sources, live, x); }
      if x in live {
        ReachRefl(g, x);
        assert ReachedFrom(g, live, x);
      }
    }
  }

  lemma WithdrawStart(g: Graph, isFact: seq<bool>, m: Marks, sources: set<nat>, live: set<nat>, affected: set<nat>, s: nat)
    requires Balanced(g, isFact, m, sources, live, affected) && s in live && !IsTarget(g, s)
    ensures var keep := Span(g, sources, live - {s});
      && Withdrawing(g, isFact, m, sources, live - {s}, affected - {s}, {s})
      && keep <= affected - {s} && Supported(g, live - {s}, keep)
      && s < |g| && m.counted[s] == TargetSet(g, s)
  {
    var keep := Span(g, sources, live - {s});
    SpanIs(g, sources, live, affected);
    SpanShrinks(g, sources, live, live - {s});
    KeepSupported(g, sources, live - {s});
    if s in keep { UntargetedInSpan(g, sources, live - {s}, s); }
  }

  lemma NothingSpanned(g: Graph)
    ensures IsSpan(g, {}, {}, {})
  {
    forall w: nat
      ensures !Spanned(g, {}, {}, w)
    {
    }
  }

  lemma KeepSupported(g: Graph, sources: set<nat>, live: set<nat>)
    ensures Supported(g, live, Span(g, sources, live))
  {
    var keep := Span(g, sources, live);
    forall w: nat | w in keep && w !in live
      ensures exists u: nat :: u in keep && Edge(g, u, w)
    {
      var u := SpanSupported(g, sources, live, w);
    }
  }

  /** What is left marked when the withdrawal ends is exactly the smaller span. */
  lemma RestIsSpan(g: Graph, isFact: seq<bool>, m: Marks, sources: set<nat>, all: set<nat>, live: set<nat>, rest: set<nat>)
    requires Withdrawing(g, isFact, m, sources, live, rest, {})
    requires live <= all <= sources && Span(g, sources, live) <= rest <= Span(g, sources, all)
    ensures Balanced(g, isFact, m, sources, live, rest)
  {
    assert Open(0);
    forall x: nat | x in rest && x !in live
      ensures exists u: nat :: u in rest && Edge(g, u, x)
    {
      assert x !in sources && |Supporters(m.counted, x)| > 0;
      var u: nat :| u in Supporters(m.counted, x);
      assert x in g[u];
    }
    assert live <= rest;
    forall w: nat | w in rest
      ensures w in Span(g, sources, live)
    {
      SupportedIsSpanned(g, sources, live, all, rest, w);
    }
    assert rest == Span(g, sources, live);
  }

  ghost function Suffix(g: Graph, u: nat, k: int): set<nat>
    requires u < |g| && 0 <= k <= |g[u]|
  {
    set w: nat | w in g[u][k..]
  }

  lemma SuffixNext(g: Graph, u: nat, k: nat)
    requires OneEdgeEach(g) && u < |g| && k < |g[u]|
    ensures g[u][k] in Suffix(g, u, k) && Suffix(g, u, k) - {g[u][k]} == Suffix(g, u, k + 1)
  {
    forall x: nat
      ensures x in g[u][k..] <==> x in g[u][k + 1..] || x == g[u][k]
    {
      if x in g[u][k + 1..] {
        var i :| 0 <= i < |g[u][k + 1..]| && g[u][k + 1..][i] == x;
        assert g[u][k..][i + 1] == x;
      }
      if x in g[u][k..] {
        var i :| 0 <= i < |g[u][k..]| && g[u][k..][i] == x;
        assert i > 0 ==> g[u][k + 1..][i - 1] == x;
      }
      assert g[u][k..][0] == g[u][k];
    }
  }

  // ----- what the marks mean -----

  ghost predicate CycleReached(g: Graph, sources: set<nat>, x: nat) {
    OnCycle(g, x) && ReachedFrom(g, sources, x)
  }

  /** Where no source reaches a cycle, the marked calls are those a standing source reaches. */
  lemma MarkedIffReached(g: Graph, isFact: seq<bool>, m: Marks, sources: set<nat>, live: set<nat>, affected: set<nat>, w: nat)
    requires Balanced(g, isFact, m, sources, live, affected) && w < |g| && w !in sources
    requires forall x: nat :: !CycleReached(g, sources, x)
    ensures m.deleted[w] <==> ReachedFrom(g, live, w)
  {
    assert w in affected <==> Spanned(g, sources, live, w);
    if HeldByCycle(g, sources, w) {
      var x: nat :| OnCycle(g, x) && ReachedFrom(g, sources, x) && Reach(g, x, w);
      assert CycleReached(g, sources, x);
    }
  }

  /**
   Withdrawal is exact, whichever of the sources are withdrawn, precisely when no
   source reaches a cycle.
   */
  lemma WithdrawalExactIffNoCycleReached(g: Graph, sources: set<nat>)
    ensures (forall live: set<nat>, w: nat :: live <= sources && w < |g| ==>
               (Spanned(g, sources, live, w) <==> ReachedFrom(g, live, w)))
       <==> (forall x: nat :: !CycleReached(g, sources, x))
  {
    if forall live: set<nat>, w: nat :: live <= sources && w < |g| ==>
         (Spanned(g, sources, live, w) <==> ReachedFrom(g, live, w)) {
      forall x: nat
        ensures !CycleReached(g, sources, x)
      {
        if CycleReached(g, sources, x) {
          var u: nat :| Edge(g, x, u) && Reach(g, u, x);
          ReachRefl(g, x);
          assert HeldByCycle(g, sources, x);
          assert Spanned(g, sources, {}, x);
        }
      }
    }
    if forall x: nat :: !CycleReached(g, sources, x) {
      forall live: set<nat>, w: nat | live <= sources && w < |g|
        ensures Spanned(g, sources, live, w) <==> ReachedFrom(g, live, w)
      {
        if HeldByCycle(g, sources, w) {
          var x: nat :| OnCycle(g, x) && ReachedFrom(g, sources, x) && Reach(g, x, w);
          assert CycleReached(g, sources, x);
        }
      }
    }
  }

  /** A fact feeding two mutually recursive calls: withdrawing its change leaves both marked. */
  lemma MutualRecursionStaysMarked(isFact: seq<bool>, m: Marks, affected: set<nat>)
    requires var g: Graph := [[1], [2], [1]]; Balanced(g, isFact, m, {0}, {}, affected)
    ensures m.deleted[1] && m.deleted[2]
  {
    var g: Graph := [[1], [2], [1]];
    assert g[0][0] == 1 && g[1][0] == 2 && g[2][0] == 1;
    assert Edge(g, 0, 1) && Edge(g, 1, 2) && Edge(g, 2, 1);
    ReachEdge(g, 0, 1);
    ReachEdge(g, 1, 2);
    ReachEdge(g, 2, 1);
    ReachRefl(g, 1);
    assert OnCycle(g, 1) && ReachedFrom(g, {0}, 1);
    assert HeldByCycle(g, {0}, 1) && HeldByCycle(g, {0}, 2);
    assert Spanned(g, {0}, {}, 1) && Spanned(g, {0}, {}, 2);
  }

  // ----- whole runs -----

  ghost function Elements(s: seq<nat>): set<nat> {
    set x | x in s
  }

  lemma ElementsNext(s: seq<nat>, i: nat)
    requires i < |s|
    ensures Elements(s[..i + 1]) == Elements(s[..i]) + {s[i]}
  {
    assert s[..i + 1] == s[..i] + [s[i]];
  }

  /** A node without in-edges is marked only if it was invalidated. */
  lemma FreshSource(g: Graph, isFact: seq<bool>, m: Marks, sources: set<nat>, affected: set<nat>, s: nat)
    requires Tallied(g, isFact, m, sources, affected) && s < |g| && !IsTarget(g, s) && s !in sources
    ensures !m.deleted[s]
  {
    forall u: nat | u < |m.counted|
      ensures s !in m.counted[u]
    {
      if s in m.counted[u] { assert Edge(g, u, s); }
    }
    assert Supporters(m.counted, s) == {};
  }

  lemma NotInPrefix(s: seq<nat>, i: nat)
    requires i < |s| && forall j, k :: 0 <= j < k < |s| ==> s[j] != s[k]
    ensures s[i] !in s[..i]
  {
  }

  /** Some changed node reaches a call whose table is incomplete. */
  ghost predicate MeetsIncomplete(g: Graph, isFact: seq<bool>, completed: seq<bool>, changed: seq<nat>)
    requires |isFact| == |completed| == |g|
  {
    exists s, u: nat :: s in changed && u < |g| && Reach(g, s, u) && !isFact[u] && !completed[u]
  }

  lemma SpannedReached(g: Graph, sources: set<nat>, live: set<nat>, w: nat)
    requires Spanned(g, sources, live, w) && live <= sources
    ensures ReachedFrom(g, sources, w)
  {
    if HeldByCycle(g, sources, w) {
      var x: nat :| OnCycle(g, x) && ReachedFrom(g, sources, x) && Reach(g, x, w);
      var s: nat :| s in sources && Reach(g, s, x);
      ReachTrans(g, s, x, w);
    }
  }

  /** The next changed node met no incomplete table, for what was marked before had been met before. */
  lemma StillNoneMet(g: Graph, isFact: seq<bool>, completed: seq<bool>, changed: seq<nat>, i: nat, before: set<nat>)
    requires |isFact| == |completed| == |g| && i < |changed| && !MeetsIncomplete(g, isFact, completed, changed[..i])
    requires before == Span(g, Elements(changed[..i]), Elements(changed[..i]))
    requires !MeetsBlock(g, isFact, completed, before, changed[i])
    ensures !MeetsIncomplete(g, isFact, completed, changed[..i + 1])
  {
    var done := Elements(changed[..i]);
    forall s: nat, u: nat | s in changed[..i + 1] && u < |g| && Reach(g, s, u)
      ensures isFact[u] || completed[u]
    {
      if u in before {
        assert Spanned(g, done, done, u);
        SpannedReached(g, done, done, u);
        var x: nat :| x in done && Reach(g, x, u);
        assert x in changed[..i];
      } else if s !in changed[..i] {
        assert s == changed[i];
        assert !BlocksWalk(g, isFact, completed, before, s, u);
      }
    }
  }

  /** One more change adds what it reaches; nothing, if it was marked already. */
  lemma SpanOfOneMore(g: Graph, sources: set<nat>, before: set<nat>, s: nat, changed: set<nat>)
    requires before == Span(g, sources, sources) == Span(g, changed, changed) && s < |g| && Closed(g, before)
    ensures Span(g, changed + {s}, changed + {s}) == Span(g, sources + {s}, sources + {s})
    ensures s in before ==> Span(g, changed + {s}, changed + {s}) == before
  {
    SpanGrows(g, sources, sources, s, before);
    SpanGrows(g, changed, changed, s, before);
    if s in before {
      forall w: nat | w < |g| && Reach(g, s, w)
        ensures w in before
      {
        ClosedUnderReach(g, before, s, w);
      }
    }
  }

  lemma MarkedMeetsNone(g: Graph, isFact: seq<bool>, completed: seq<bool>, before: set<nat>, s: nat)
    requires |isFact| == |completed| == |g| && Closed(g, before) && s in before
    ensures !MeetsBlock(g, isFact, completed, before, s)
  {
    forall u: nat | Reach(g, s, u)
      ensures u in before
    {
      ClosedUnderReach(g, before, s, u);
    }
  }

  /** Invalidates each changed node in turn, unless the walk meets an incomplete table: marked is then what the changes span. */
  method InvalidateAll(g: Graph, isFact: seq<bool>, completed: seq<bool>, changed: seq<nat>) returns (ig: IncrGraph, aborted: bool)
    requires WellFormed(g) && OneEdgeEach(g) && |isFact| == |completed| == |g|
    requires forall j, k :: 0 <= j < k < |changed| ==> changed[j] != changed[k]
    requires forall s :: s in changed ==> s < |g| && (isFact[s] ==> !IsTarget(g, s))
    ensures fresh(ig) && ig.g == g && (aborted <==> MeetsIncomplete(g, isFact, completed, changed))
    ensures !aborted ==> ig.Valid() && ig.affected == Span(g, Elements(changed), Elements(changed))
    ensures !aborted ==> ig.sources == ig.live <= Elements(changed) && forall s :: s in changed && !IsTarget(g, s) ==> s in ig.sources
  {
    ig := new IncrGraph(g, isFact, completed);
    aborted := false;
    SpanIs(g, {}, {}, ig.affected);
    for i := 0 to |changed|
      invariant fresh(ig) && ig.Valid() && ig.affected == Span(g, Elements(changed[..i]), Elements(changed[..i]))
      invariant ig.sources == ig.live <= Elements(changed[..i]) && forall s :: s in changed[..i] && !IsTarget(g, s) ==> s in ig.sources
      invariant ig.g == g && ig.isFact == isFact && ig.completed == completed && !MeetsIncomplete(g, isFact, completed, changed[..i])
    {
      var s := changed[i];
      assert s in changed;
      ghost var before, sources, marked := ig.affected, ig.sources, ig.deleted[s];
      NotInPrefix(changed, i);
      ElementsNext(changed, i);
      NextChange(ig, s);
      aborted := ig.InvalidateCall(s);
      if aborted {
        ghost var u: nat :| u < |g| && BlocksWalk(g, isFact, completed, before, s, u);
        assert s in changed && Reach(g, s, u);
        return;
      }
      if marked { MarkedMeetsNone(g, isFact, completed, before, s); }
      StillNoneMet(g, isFact, completed, changed, i, before);
      SpanIs(g, ig.sources, ig.live, ig.affected);
      SpanOfOneMore(g, sources, before, s, Elements(changed[..i]));
    }
    assert changed[..|changed|] == changed;
  }

  /** What is known of a node before it is invalidated for the first time. */
  lemma NextChange(ig: IncrGraph, s: nat)
    requires ig.Valid() && s < |ig.g| && s !in ig.sources && ig.sources == ig.live
    ensures Closed(ig.g, ig.affected) && ig.affected == Span(ig.g, ig.sources, ig.sources)
    ensures ig.deleted[s] ==> IsTarget(ig.g, s) && s in ig.affected
  {
    SettledClosed(ig.g, ig.isFact, ig.M(), ig.sources, ig.affected);
    SpanIs(ig.g, ig.sources, ig.live, ig.affected);
    if !IsTarget(ig.g, s) { FreshSource(ig.g, ig.isFact, ig.M(), ig.sources, ig.affected, s); }
  }

  /**
   Each changed node invalidated once, then some of the changes withdrawn: where no
   changed node reaches a cycle, what stays marked, apart from the changed nodes, is what
   a change that stands reaches.
   */
  method ChangeAndWithdraw(g: Graph, isFact: seq<bool>, completed: seq<bool>, changed: seq<nat>, withdrawn: seq<nat>)
    returns (ig: IncrGraph, aborted: bool)
    requires WellFormed(g) && OneEdgeEach(g) && |isFact| == |completed| == |g|
    requires forall j, k :: 0 <= j < k < |changed| ==> changed[j] != changed[k]
    requires forall j, k :: 0 <= j < k < |withdrawn| ==> withdrawn[j] != withdrawn[k]
    requires forall s :: s in changed ==> s < |g| && !IsTarget(g, s)
    requires forall s :: s in withdrawn ==> s in changed
    ensures aborted <==> MeetsIncomplete(g, isFact, completed, changed)
    ensures !aborted ==> |ig.deleted| == |g| && forall w: nat :: w < |g| && w !in changed ==>
              (ig.deleted[w] <==> Spanned(g, Elements(changed), Elements(changed) - Elements(withdrawn), w))
    ensures !aborted && (forall x: nat :: !CycleReached(g, Elements(changed), x)) ==>
              forall w: nat :: w < |g| && w !in changed ==>
                (ig.deleted[w] <==> ReachedFrom(g, Elements(changed) - Elements(withdrawn), w))
  {
    ig, aborted := InvalidateAll(g, isFact, completed, changed);
    if aborted { return; }
    assert ig.sources == Elements(changed);
    for i := 0 to |withdrawn|
      invariant fresh(ig) && ig.Valid() && ig.g == g
      invariant ig.sources == Elements(changed) && ig.live == Elements(changed) - Elements(withdrawn[..i])
    {
      NotInPrefix(withdrawn, i);
      ElementsNext(withdrawn, i);
      ig.WithdrawSource(withdrawn[i]);
    }
    assert withdrawn[..|withdrawn|] == withdrawn;
    forall w: nat | w < |g| && w !in changed
      ensures ig.deleted[w] <==> Spanned(g, ig.sources, ig.live, w)
    {
      assert w in ig.affected <==> Spanned(g, ig.sources, ig.live, w);
    }
    if forall x: nat :: !CycleReached(g, ig.sources, x) {
      forall w: nat | w < |g| && w !in changed
        ensures ig.deleted[w] <==> ReachedFrom(g, ig.live, w)
      {
        MarkedIffReached(g, ig.isFact, ig.M(), ig.sources, ig.live, ig.affected, w);
      }
    }
  }
}
