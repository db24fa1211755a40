/**
 Finite directed graphs given by adjacency sequences, paths, and reachability.
 The order of a node's adjacency sequence stands for the order in which the
 engine's hash-table iterator or edge list happens to deliver the neighbours.
 */
module Reachability {

  type Graph = seq<seq<nat>>

  /** Every neighbour is a node. */
  ghost predicate WellFormed(g: Graph) {
    forall v, k :: 0 <= v < |g| && 0 <= k < |g[v]| ==> g[v][k] < |g|
  }

  ghost predicate Edge(g: Graph, u: nat, v: nat) {
    u < |g| && v < |g| && v in g[u]
  }

  ghost predicate IsPath(g: Graph, p: seq<nat>) {
    && |p| > 0
    && (forall i :: 0 <= i < |p| ==> p[i] < |g|)
    && (forall i :: 0 <= i < |p| - 1 ==> Edge(g, p[i], p[i + 1]))
  }

  ghost predicate PathFromTo(g: Graph, p: seq<nat>, u: nat, v: nat) {
    IsPath(g, p) && p[0] == u && p[|p| - 1] == v
  }

  /** A path of length zero counts: every node reaches itself. */
  ghost predicate Reach(g: Graph, u: nat, v: nat) {
    exists p :: PathFromTo(g, p, u, v)
  }

  ghost predicate Closed(g: Graph, s: set<nat>) {
    forall u, v :: u in s && Edge(g, u, v) ==> v in s
  }

  lemma ReachRefl(g: Graph, u: nat)
    requires u < |g|
    ensures Reach(g, u, u)
  {
    assert PathFromTo(g, [u], u, u);
  }

  lemma ReachEdge(g: Graph, u: nat, v: nat)
    requires Edge(g, u, v)
    ensures Reach(g, u, v)
  {
    assert PathFromTo(g, [u, v], u, v);
  }

  lemma ReachTrans(g: Graph, u: nat, v: nat, w: nat)
    requires Reach(g, u, v) && Reach(g, v, w)
    ensures Reach(g, u, w)
  {
    var p :| PathFromTo(g, p, u, v);
    var q :| PathFromTo(g, q, v, w);
    var r := p + q[1..];
    forall i | 0 <= i < |r| - 1
      ensures Edge(g, r[i], r[i + 1])
    {
      if i < |p| - 1 {
        assert r[i] == p[i] && r[i + 1] == p[i + 1];
      } else {
        assert r[i] == q[i - |p| + 1] && r[i + 1] == q[i - |p| + 2];
      }
    }
    assert PathFromTo(g, r, u, w);
  }

  lemma PathTail(g: Graph, p: seq<nat>)
    requires IsPath(g, p) && |p| > 1
    ensures IsPath(g, p[1..]) && Edge(g, p[0], p[1])
  {
    var q := p[1..];
    assert Edge(g, p[0], p[0 + 1]);
    forall i | 0 <= i < |q| - 1
      ensures Edge(g, q[i], q[i + 1])
    {
      assert Edge(g, p[i + 1], p[i + 1 + 1]);
    }
  }

  lemma PathCons(g: Graph, u: nat, p: seq<nat>)
    requires IsPath(g, p) && Edge(g, u, p[0])
    ensures IsPath(g, [u] + p)
  {
    var q := [u] + p;
    forall i | 0 <= i < |q| - 1
      ensures Edge(g, q[i], q[i + 1])
    {
      if i > 0 { assert q[i] == p[i - 1] && q[i + 1] == p[i - 1 + 1]; }
    }
  }

  ghost predicate NoRepeats(p: seq<nat>) {
    forall i, j :: 0 <= i < j < |p| ==> p[i] != p[j]
  }

  lemma ConsNoRepeats(u: nat, p: seq<nat>)
    requires NoRepeats(p) && u !in p
    ensures NoRepeats([u] + p)
  {
    var q := [u] + p;
    forall i, j | 0 <= i < j < |q|
      ensures q[i] != q[j]
    {
      assert q[j] == p[j - 1];
      if i > 0 { assert q[i] == p[i - 1]; }
    }
  }

  /** A path without repeats has at most as many nodes as the graph. */
  lemma PathLength(g: Graph, p: seq<nat>)
    requires IsPath(g, p) && NoRepeats(p)
    ensures |p| <= |g|
  {
    var t: seq<int> := p;
    PigeonHole(t, |g|);
  }

  /** A set closed under edges cannot be left by any path. */
  lemma {:induction false} ClosedUnderPath(g: Graph, s: set<nat>, p: seq<nat>)
    requires Closed(g, s) && IsPath(g, p) && p[0] in s
    ensures p[|p| - 1] in s
    decreases |p|
  {
    if |p| > 1 {
      PathTail(g, p);
      ClosedUnderPath(g, s, p[1..]);
    }
  }

  lemma ClosedUnderReach(g: Graph, s: set<nat>, u: nat, v: nat)
    requires Closed(g, s) && u in s && Reach(g, u, v)
    ensures v in s
  {
    var p :| PathFromTo(g, p, u, v);
    ClosedUnderPath(g, s, p);
  }

  /** Reaching a different node needs a first edge. */
  lemma ReachFirstStep(g: Graph, u: nat, v: nat) returns (w: nat)
    requires Reach(g, u, v) && u != v
    ensures Edge(g, u, w) && Reach(g, w, v)
  {
    var p :| PathFromTo(g, p, u, v);
    w := p[1];
    PathTail(g, p);
    assert PathFromTo(g, p[1..], w, v);
  }

  /** Reaching a different node needs a last edge. */
  lemma ReachLastStep(g: Graph, u: nat, v: nat) returns (w: nat)
    requires Reach(g, u, v) && u != v
    ensures Reach(g, u, w) && Edge(g, w, v)
  {
    var p :| PathFromTo(g, p, u, v);
    w := p[|p| - 2];
    var q := p[..|p| - 1];
    assert Edge(g, p[|p| - 2], p[|p| - 1]);
    assert PathFromTo(g, q, u, w);
  }

  /** Distinct numbers below n: at most n of them. */
  lemma {:induction false} PigeonHole(s: seq<int>, n: nat)
    requires forall i :: 0 <= i < |s| ==> 0 <= s[i] < n
    requires forall i, j :: 0 <= i < j < |s| ==> s[i] != s[j]
    ensures |s| <= n
  {
    if s == [] {
      return;
    }
    assert 0 <= s[0] < n;
    if k :| 0 <= k < |s| && s[k] == n - 1 {
      var t := s[..k] + s[k + 1..];
      forall i, j | 0 <= i < j < |t|
        ensures t[i] != t[j]
      {
        assert t[i] == s[if i < k then i else i + 1];
        assert t[j] == s[if j < k then j else j + 1];
      }
      forall i | 0 <= i < |t|
        ensures 0 <= t[i] < n - 1
      {
        assert t[i] == s[if i < k then i else i + 1];
      }
      PigeonHole(t, n - 1);
    } else {
      PigeonHole(s, n - 1);
    }
  }
}
