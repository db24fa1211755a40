/**
 The wait-for pointers of threads that block on each other's incomplete tables. A
 thread follows the pointers before it blocks; if they lead back to itself, it becomes
 the leader and resets the threads on the way, making all of them wait for itself. The
 re-pointing loop runs without the mutex, so that others act between its turns.
 */
module WaitFor {
  import opened Hiding
  import opened Reachability

  /** Thread t waits for waiting[t], or for nobody if that is no thread. */
  function Pointers(waiting: seq<int>): (g: Graph)
    ensures |g| == |waiting| && WellFormed(g)
    ensures forall u: nat, v: nat :: Edge(g, u, v) <==> u < |waiting| && v < |waiting| && waiting[u] == v
  {
    var g := seq(|waiting|, i requires 0 <= i < |waiting| => if 0 <= waiting[i] < |waiting| then [waiting[i] as nat] else []);
    assert forall i :: 0 <= i < |waiting| ==> g[i] == if 0 <= waiting[i] < |waiting| then [waiting[i] as nat] else [];
    g
  }

  ghost predicate Acyclic(g: Graph) {
    forall u, v :: Edge(g, u, v) ==> !Reach(g, v, u)
  }

  // ----- changing one pointer -----

  /** g' is g except for what thread t points to. */
  ghost predicate SameBut(g: Graph, t: nat, g': Graph) {
    |g| == |g'| && forall u, v :: u != t ==> (Edge(g', u, v) <==> Edge(g, u, v))
  }

  lemma {:induction false} PathAround(g: Graph, t: nat, g': Graph, p: seq<nat>)
    requires SameBut(g, t, g') && IsPath(g, p) && p[|p| - 1] == t
    ensures Reach(g', p[0], t)
    decreases |p|
  {
    if p[0] == t {
      ReachRefl(g', t);
    } else {
      PathTail(g, p);
      PathAround(g, t, g', p[1..]);
      ReachEdge(g', p[0], p[1]);
      ReachTrans(g', p[0], p[1], t);
    }
  }

  /** Whether t is reached does not depend on where t points. */
  lemma ReachesSame(g: Graph, t: nat, g': Graph, a: nat)
    requires SameBut(g, t, g')
    ensures Reach(g', a, t) <==> Reach(g, a, t)
  {
    if Reach(g, a, t) {
      var p :| PathFromTo(g, p, a, t);
      PathAround(g, t, g', p);
    }
    if Reach(g', a, t) {
      var p :| PathFromTo(g', p, a, t);
      PathAround(g', t, g, p);
    }
  }

  /** t points to owner only. */
  ghost predicate PointsTo(g: Graph, t: nat, owner: nat) {
    forall v :: Edge(g, t, v) <==> v == owner
  }

  lemma {:induction false} PathThrough(g: Graph, t: nat, owner: nat, g': Graph, p: seq<nat>)
    requires SameBut(g, t, g') && (forall v :: Edge(g', t, v) ==> v == owner) && IsPath(g', p)
    ensures Reach(g, p[0], p[|p| - 1]) || (Reach(g, p[0], t) && Reach(g, owner, p[|p| - 1]))
    decreases |p|
  {
    if |p| == 1 {
      ReachRefl(g, p[0]);
    } else {
      PathTail(g', p);
      PathThrough(g, t, owner, g', p[1..]);
      var last := p[|p| - 1];
      assert p[1..][|p[1..]| - 1] == last;
      if p[0] == t {
        ReachRefl(g, t);
      } else {
        ReachEdge(g, p[0], p[1]);
        if Reach(g, p[1], last) { ReachTrans(g, p[0], p[1], last); } else { ReachTrans(g, p[0], p[1], t); }
      }
    }
  }

  /** A new pointer from t to owner closes a cycle exactly when the pointers lead from owner to t. */
  lemma CycleIffReached(g: Graph, t: nat, owner: nat, g': Graph)
    requires Acyclic(g) && SameBut(g, t, g') && PointsTo(g', t, owner)
    ensures Acyclic(g') <==> !Reach(g, owner, t)
  {
    ReachesSame(g, t, g', owner);
    assert Edge(g', t, owner);
    if !Reach(g, owner, t) {
      forall u, v | Edge(g', u, v)
        ensures !Reach(g', v, u)
      {
        NoCycleThrough(g, t, owner, g', u, v);
      }
    }
  }

  lemma NoCycleThrough(g: Graph, t: nat, owner: nat, g': Graph, u: nat, v: nat)
    requires Acyclic(g) && SameBut(g, t, g') && PointsTo(g', t, owner) && !Reach(g, owner, t) && Edge(g', u, v)
    ensures !Reach(g', v, u)
  {
    ReachesSame(g, t, g', owner);
    if u != t && Reach(g', v, u) {
      var p :| PathFromTo(g', p, v, u);
      PathThrough(g, t, owner, g', p);
      ReachEdge(g, u, v);
      ReachTrans(g, owner, u, v);
      ReachTrans(g, owner, v, t);
    }
  }

  /** A thread that waits for nobody reaches only itself. */
  lemma ReachesOnlyItself(g: Graph, t: nat, v: nat)
    requires (forall x :: !Edge(g, t, x)) && Reach(g, t, v)
    ensures v == t
  {
    if v != t {
      var w := ReachFirstStep(g, t, v);
    }
  }

  lemma {:induction false} FewerReach(g: Graph, g': Graph, p: seq<nat>)
    requires |g| == |g'| && (forall u, v :: Edge(g', u, v) ==> Edge(g, u, v)) && IsPath(g', p)
    ensures IsPath(g, p)
  {
    forall i | 0 <= i < |p| - 1
      ensures Edge(g, p[i], p[i + 1])
    {
      assert Edge(g', p[i], p[i + 1]);
    }
  }

  /** Removing pointers closes no cycle. */
  lemma FewerAcyclic(g: Graph, g': Graph)
    requires Acyclic(g) && |g| == |g'| && forall u, v :: Edge(g', u, v) ==> Edge(g, u, v)
    ensures Acyclic(g')
  {
    forall u, v | Edge(g', u, v)
      ensures !Reach(g', v, u)
    {
      if Reach(g', v, u) {
        var p :| PathFromTo(g', p, v, u);
        FewerReach(g, g', p);
        assert PathFromTo(g, p, v, u);
      }
    }
  }

  // ----- following the pointers -----

  lemma PathSnoc(g: Graph, p: seq<nat>, v: nat)
    requires IsPath(g, p) && Edge(g, p[|p| - 1], v)
    ensures IsPath(g, p + [v])
  {
    var q := p + [v];
    forall i | 0 <= i < |q| - 1
      ensures Edge(g, q[i], q[i + 1])
    {
      if i < |p| - 1 { assert Edge(g, p[i], p[i + 1]); }
    }
  }

  lemma PathReaches(g: Graph, p: seq<nat>, i: int, j: int)
    requires IsPath(g, p) && 0 <= i <= j < |p|
    ensures Reach(g, p[i], p[j])
  {
    var q := p[i..j + 1];
    forall k | 0 <= k < |q| - 1
      ensures Edge(g, q[k], q[k + 1])
    {
      assert Edge(g, p[i + k], p[i + k + 1]);
    }
    assert PathFromTo(g, q, p[i], p[j]);
  }

  /** On acyclic pointers no thread is met twice. */
  lemma NotMetBefore(g: Graph, p: seq<nat>, v: nat)
    requires Acyclic(g) && IsPath(g, p) && Edge(g, p[|p| - 1], v)
    ensures v !in p
  {
    if v in p {
      var i :| 0 <= i < |p| && p[i] == v;
      PathReaches(g, p, i, |p| - 1);
    }
  }

  /** The threads met so far: none of them is t2, and the last one waits for t. */
  ghost predicate Followed(waiting: seq<int>, t1: int, t2: nat, p: seq<nat>, t: int) {
    var g := Pointers(waiting);
    if p == [] then t == t1
    else IsPath(g, p) && p[0] == t1 && waiting[p[|p| - 1]] == t && t2 !in p && NoRepeats(p)
  }

  lemma FollowedNext(waiting: seq<int>, t1: int, t2: nat, p: seq<nat>, t: nat)
    requires Acyclic(Pointers(waiting)) && Followed(waiting, t1, t2, p, t) && t < |waiting| && t != t2
    ensures Followed(waiting, t1, t2, p + [t], waiting[t])
  {
    var g := Pointers(waiting);
    var q := p + [t];
    if p != [] {
      assert Edge(g, p[|p| - 1], t);
      PathSnoc(g, p, t);
      NotMetBefore(g, p, t);
      forall i, j | 0 <= i < j < |q|
        ensures q[i] != q[j]
      {
      }
    }
  }

  lemma FollowedToTheEnd(waiting: seq<int>, t1: int, t2: nat, p: seq<nat>, t: int)
    requires Followed(waiting, t1, t2, p, t) && !(0 <= t < |waiting|) && 0 <= t1 < |waiting|
    ensures !Reach(Pointers(waiting), t1, t2)
  {
    var g := Pointers(waiting);
    var s := set i | 0 <= i < |p| :: p[i];
    assert p != [] && p[0] in s;
    forall u, v | u in s && Edge(g, u, v)
      ensures v in s
    {
      var i :| 0 <= i < |p| && p[i] == u;
      assert i < |p| - 1;
      assert Edge(g, p[i], p[i + 1]);
    }
    if Reach(g, t1, t2) { ClosedUnderReach(g, s, t1, t2); }
  }

  /** Whether the pointers lead from t1 to t2; on acyclic pointers it returns. */
  method WouldDeadlock(waiting: seq<int>, t1: int, t2: nat) returns (b: bool)
    requires Acyclic(Pointers(waiting)) && t2 < |waiting|
    ensures b <==> 0 <= t1 < |waiting| && Reach(Pointers(waiting), t1, t2)
  {
    var t := t1;
    ghost var g, p: seq<nat> := Pointers(waiting), [];
    while 0 <= t < |waiting|
      invariant Followed(waiting, t1, t2, p, t) && |p| <= |waiting|
      decreases |waiting| - |p|
    {
      if t == t2 {
        if p == [] {
          ReachRefl(g, t2);
        } else {
          PathSnoc(g, p, t2);
          assert PathFromTo(g, p + [t2], p[0], t2);
        }
        return true;
      }
      FollowedNext(waiting, t1, t2, p, t);
      p := p + [t];
      PathLength(g, p);
      t := waiting[t];
    }
    if 0 <= t1 < |waiting| { FollowedToTheEnd(waiting, t1, t2, p, t); }
    return false;
  }

  // ----- the threads -----

  /** The threads from the first of p on wait for each other in this order, the last for t. */
  ghost predicate ChainTo(waiting: seq<int>, p: seq<nat>, t: nat) {
    IsPath(Pointers(waiting), p + [t]) && NoRepeats(p + [t])
  }

  lemma ChainNext(waiting: seq<int>, p: seq<nat>, tmp: nat, t: nat) returns (v: nat)
    requires Acyclic(Pointers(waiting)) && ChainTo(waiting, p, tmp) && Reach(Pointers(waiting), tmp, t) && tmp != t
    ensures tmp < |waiting| && waiting[tmp] == v && v < |waiting|
    ensures ChainTo(waiting, p + [tmp], v) && Reach(Pointers(waiting), v, t)
  {
    var g, q := Pointers(waiting), p + [tmp];
    v := ReachFirstStep(g, tmp, t);
    PathSnoc(g, q, v);
    NotMetBefore(g, q, v);
    var r := q + [v];
    forall i, j | 0 <= i < j < |r|
      ensures r[i] != r[j]
    {
    }
  }

  /** Pointers with those of the threads in p cleared. */
  ghost predicate Cleared(waiting: seq<int>, p: seq<nat>, waiting': seq<int>) {
    |waiting'| == |waiting| && forall x :: 0 <= x < |waiting| ==> waiting'[x] == if x in p then -1 else waiting[x]
  }

  /** Pointers with those of the threads in p set to t. */
  ghost predicate Repointed(waiting: seq<int>, p: seq<nat>, t: nat, waiting': seq<int>) {
    |waiting'| == |waiting| && forall x :: 0 <= x < |waiting| ==> waiting'[x] == if x in p then t else waiting[x]
  }

  /** Where the chain `left` to t stands at position i. */
  function Stop(left: seq<nat>, t: nat, i: nat): nat {
    if i < |left| then left[i] else t
  }

  /** Following next from the threads still to be re-pointed ends at the leader. */
  ghost predicate Linked(next: seq<int>, cursor: int, left: seq<nat>, t: nat) {
    && cursor == Stop(left, t, 0)
    && forall i :: 0 <= i < |left| ==> left[i] < |next| && next[left[i]] == Stop(left, t, i + 1)
  }

  lemma ChainFacts(waiting: seq<int>, p: seq<nat>, t: nat)
    requires ChainTo(waiting, p, t)
    ensures t < |waiting| && t !in p && NoRepeats(p)
    ensures forall i :: 0 <= i < |p| ==> p[i] < |waiting| && 0 <= waiting[p[i]] < |waiting|
  {
    var q := p + [t];
    assert q[|p|] == t;
    assert forall i :: 0 <= i < |p| ==> q[i] == p[i];
    assert forall i :: 0 <= i < |p| ==> q[i] != q[|p|];
    forall i | 0 <= i < |p|
      ensures p[i] < |waiting| && 0 <= waiting[p[i]] < |waiting|
    {
      assert Edge(Pointers(waiting), q[i], q[i + 1]);
    }
  }

  lemma LinkedNext(next: seq<int>, owner: int, chain: seq<nat>, tmp: nat, v: nat)
    requires Linked(next, owner, chain, tmp) && tmp < |next| && tmp !in chain
    ensures Linked(next[tmp := v], owner, chain + [tmp], v)
  {
    var q, next' := chain + [tmp], next[tmp := v];
    forall i | 0 <= i < |q|
      ensures q[i] < |next'| && next'[q[i]] == Stop(q, v, i + 1)
    {
      if i < |chain| { assert q[i] == chain[i] && next[chain[i]] == Stop(chain, tmp, i + 1); }
    }
  }

  lemma ClearedAcyclic(waiting: seq<int>, p: seq<nat>, waiting': seq<int>)
    requires Acyclic(Pointers(waiting)) && Cleared(waiting, p, waiting')
    ensures Acyclic(Pointers(waiting'))
  {
    FewerAcyclic(Pointers(waiting), Pointers(waiting'));
  }

  lemma SetPointer(waiting: seq<int>, t: nat, owner: nat)
    requires Acyclic(Pointers(waiting)) && t < |waiting| && owner < |waiting|
    ensures Acyclic(Pointers(waiting[t := owner])) <==> !Reach(Pointers(waiting), owner, t)
  {
    CycleIffReached(Pointers(waiting), t, owner, Pointers(waiting[t := owner]));
  }

  /** Collecting the chain: each thread's successor is remembered, and its pointer cleared. */
  method Collect(waiting: seq<int>, next: seq<int>, t: nat, owner: nat)
    returns (waiting': seq<int>, next': seq<int>, chain: seq<nat>)
    requires Acyclic(Pointers(waiting)) && |next| == |waiting| && t < |waiting| && Reach(Pointers(waiting), owner, t)
    ensures ChainTo(waiting, chain, t) && Cleared(waiting, chain, waiting') && Linked(next', owner, chain, t)
    ensures |next'| == |next| && forall x :: 0 <= x < |next| && x !in chain ==> next'[x] == next[x]
  {
    waiting', next', chain := waiting, next, [];
    var tmp := owner;
    assert IsPath(Pointers(waiting), [owner]);
    while tmp != t
      invariant 0 <= tmp < |waiting| && ChainTo(waiting, chain, tmp) && Reach(Pointers(waiting), tmp, t)
      invariant Cleared(waiting, chain, waiting') && Linked(next', owner, chain, tmp)
      invariant |next'| == |next| && forall x :: 0 <= x < |next| && x !in chain ==> next'[x] == next[x]
      decreases |waiting| - |chain|
    {
      ghost var v := ChainNext(waiting, chain, tmp, t);
      ChainFacts(waiting, chain, tmp);
      PathLength(Pointers(waiting), chain + [tmp]);
      LinkedNext(next', owner, chain, tmp, v);
      next' := next'[tmp := waiting'[tmp]];
      waiting' := waiting'[tmp := -1];
      chain := chain + [tmp];
      tmp := next'[tmp];
    }
  }

  /** From thread t no thread of the chain to it is reached, whatever the chain points to now. */
  lemma ChainNotReached(waiting: seq<int>, chain: seq<nat>, t: nat, waiting': seq<int>, x: nat)
    requires Acyclic(Pointers(waiting)) && ChainTo(waiting, chain, t) && x in chain
    requires |waiting'| == |waiting| && forall y :: 0 <= y < |waiting| && y !in chain ==> waiting'[y] == waiting[y]
    ensures !Reach(Pointers(waiting'), t, x)
  {
    var g, g' := Pointers(waiting), Pointers(waiting');
    var s := set v: nat | v < |waiting| && Reach(g, t, v);
    forall v | v in s
      ensures v !in chain
    {
      if v in chain {
        var i :| 0 <= i < |chain| && chain[i] == v;
        OnChainReaches(g, chain, t, i, v);
      }
    }
    forall u, v | u in s && Edge(g', u, v)
      ensures v in s
    {
      assert Edge(g, u, v);
      ReachEdge(g, u, v);
      ReachTrans(g, t, u, v);
    }
    assert (chain + [t])[|chain|] == t;
    ReachRefl(g, t);
    if Reach(g', t, x) { ClosedUnderReach(g', s, t, x); }
  }

  lemma OnChainReaches(g: Graph, chain: seq<nat>, t: nat, i: int, v: nat)
    requires Acyclic(g) && IsPath(g, chain + [t]) && 0 <= i < |chain| && v == chain[i]
    ensures !Reach(g, t, v)
  {
    var p := chain + [t];
    assert p[i] == v && p[|chain|] == t;
    PathReaches(g, p, i + 1, |chain|);
    assert Edge(g, p[i], p[i + 1]);
    if Reach(g, t, v) { ReachTrans(g, p[i + 1], t, v); }
  }

  /** Re-pointing one more thread of the chain. */
  lemma RepointNext(waiting0: seq<int>, waiting: seq<int>, chain: seq<nat>, t: nat, k: nat, waiting': seq<int>)
    requires Acyclic(Pointers(waiting0)) && ChainTo(waiting0, chain, t) && Cleared(waiting0, chain, waiting) && k < |chain|
    requires Repointed(waiting, chain[..k], t, waiting') && Acyclic(Pointers(waiting'))
    ensures chain[k] < |waiting| && t < |waiting|
    ensures Repointed(waiting, chain[..k + 1], t, waiting'[chain[k] := t]) && Acyclic(Pointers(waiting'[chain[k] := t]))
  {
    ChainFacts(waiting0, chain, t);
    var x := chain[k];
    assert x in chain;
    forall y | 0 <= y < |waiting| && y !in chain
      ensures waiting'[y] == waiting0[y]
    {
      assert y !in chain[..k];
    }
    ChainNotReached(waiting0, chain, t, waiting', x);
    SetPointer(waiting', x, t);
    assert chain[..k + 1] == chain[..k] + [x];
  }

  /** Re-pointing the whole chain without interruption, whether or not the leader itself still waits. */
  method Repoint(waiting: seq<int>, next: seq<int>, t: nat, owner: nat, ghost waiting0: seq<int>, ghost chain: seq<nat>)
    returns (waiting': seq<int>)
    requires Acyclic(Pointers(waiting0)) && ChainTo(waiting0, chain, t) && Cleared(waiting0, chain, waiting)
    requires Linked(next, owner, chain, t) && |next| == |waiting|
    ensures Repointed(waiting0, chain, t, waiting') && Acyclic(Pointers(waiting'))
  {
    waiting' := waiting;
    var tmp: int := owner;
    ghost var k := 0;
    ClearedAcyclic(waiting0, chain, waiting);
    ChainFacts(waiting0, chain, t);
    while tmp != t
      invariant 0 <= k <= |chain| && tmp == Stop(chain, t, k)
      invariant Acyclic(Pointers(waiting')) && Repointed(waiting, chain[..k], t, waiting')
      decreases |chain| - k
    {
      RepointNext(waiting0, waiting, chain, t, k, waiting');
      waiting' := waiting'[tmp := t];
      tmp := next[tmp];
      k := k + 1;
    }
    RepointedAll(waiting0, waiting, chain, t, k, waiting');
  }

  lemma RepointedAll(waiting0: seq<int>, waiting: seq<int>, chain: seq<nat>, t: nat, k: nat, waiting': seq<int>)
    requires Cleared(waiting0, chain, waiting) && k <= |chain| && Stop(chain, t, k) == t && t !in chain
    requires Repointed(waiting, chain[..k], t, waiting')
    ensures Repointed(waiting0, chain, t, waiting')
  {
    assert k == |chain| && chain[..k] == chain;
  }

  // ----- leaders in their loop -----

  /** Some leader still has to re-point x. */
  predicate Pending(left: map<nat, seq<nat>>, x: nat) {
    exists t :: t in left && x in left[t]
  }

  ghost predicate LeaderRight(waiting: seq<int>, next: seq<int>, cursor: int, left: seq<nat>, t: nat) {
    t < |waiting| && waiting[t] == -1 && t !in left && NoRepeats(left) && Linked(next, cursor, left, t)
  }

  /** No thread is in two leaders' chains. */
  ghost predicate Disjoint(left: map<nat, seq<nat>>) {
    forall t, u, x {:trigger x in left[t], x in left[u]} :: t in left && u in left && x in left[t] && x in left[u] ==> t == u
  }

  ghost predicate LeadersRight(waiting: seq<int>, next: seq<int>, cursor: map<nat, int>, left: map<nat, seq<nat>>) {
    && left.Keys == cursor.Keys && Disjoint(left)
    && (forall t {:trigger left[t]} :: t in left ==> LeaderRight(waiting, next, cursor[t], left[t], t))
    && (forall x: nat {:trigger Pending(left, x)} :: Pending(left, x) ==> x < |waiting| && x !in cursor)
  }

  /** A thread outside the loop may change its own pointer as far as the leaders are concerned. */
  lemma FreeMoves(waiting: seq<int>, next: seq<int>, cursor: map<nat, int>, left: map<nat, seq<nat>>, t: nat, v: int)
    requires LeadersRight(waiting, next, cursor, left) && t < |waiting| && t !in cursor
    ensures LeadersRight(waiting[t := v], next, cursor, left)
  {
    forall u | u in left
      ensures LeaderRight(waiting[t := v], next, cursor[u], left[u], u)
    {
      assert LeaderRight(waiting, next, cursor[u], left[u], u);
    }
  }

  lemma LeaderIdle(waiting: seq<int>, next: seq<int>, cursor: map<nat, int>, left: map<nat, seq<nat>>, x: nat)
    requires LeadersRight(waiting, next, cursor, left) && x in cursor
    ensures x < |waiting| && waiting[x] == -1
  {
    assert LeaderRight(waiting, next, cursor[x], left[x], x);
  }

  /** Threads that wait are in no re-pointing loop. */
  lemma ChainUntouched(waiting: seq<int>, next: seq<int>, cursor: map<nat, int>, left: map<nat, seq<nat>>, chain: seq<nat>, t: nat, x: nat)
    requires LeadersRight(waiting, next, cursor, left) && ChainTo(waiting, chain, t) && x in chain
    ensures x < |waiting| && x !in cursor
  {
    ChainFacts(waiting, chain, t);
    var i :| 0 <= i < |chain| && chain[i] == x;
    if x in cursor { LeaderIdle(waiting, next, cursor, left, x); }
  }

  /** The remembered successors of other leaders' chains stay. */
  lemma OtherLeader(waiting: seq<int>, next: seq<int>, cursor: int, left: seq<nat>, u: nat, waiting': seq<int>, next': seq<int>)
    requires LeaderRight(waiting, next, cursor, left, u) && |next'| == |next| && |waiting'| == |waiting| && waiting'[u] == -1
    requires forall x :: x in left && x < |next| ==> next'[x] == next[x]
    ensures LeaderRight(waiting', next', cursor, left, u)
  {
    forall i | 0 <= i < |left|
      ensures left[i] < |next'| && next'[left[i]] == Stop(left, u, i + 1)
    {
      assert left[i] in left;
    }
  }

  lemma DisjointMore(left: map<nat, seq<nat>>, t: nat, chain: seq<nat>)
    requires Disjoint(left) && t !in left && forall x :: x in chain ==> !Pending(left, x)
    ensures Disjoint(left[t := chain])
  {
    var left' := left[t := chain];
    forall u, v, x | u in left' && v in left' && x in left'[u] && x in left'[v]
      ensures u == v
    {
      if u != t { assert Pending(left, x); }
      if v != t { assert Pending(left, x); }
    }
  }

  /** Collecting a chain none of whose threads another leader deals with leaves the other leaders right. */
  lemma OthersStayRight(waiting: seq<int>, next: seq<int>, cursor: map<nat, int>, left: map<nat, seq<nat>>,
                        waiting': seq<int>, next': seq<int>, t: nat, chain: seq<nat>)
    requires LeadersRight(waiting, next, cursor, left) && (forall x :: x in chain ==> !Pending(left, x))
    requires ChainTo(waiting, chain, t) && Cleared(waiting, chain, waiting')
    requires |next'| == |next| && forall x :: 0 <= x < |next| && x !in chain ==> next'[x] == next[x]
    ensures forall u :: u in left ==> LeaderRight(waiting', next', cursor[u], left[u], u)
  {
    forall u | u in left
      ensures LeaderRight(waiting', next', cursor[u], left[u], u)
    {
      LeaderIdle(waiting, next, cursor, left, u);
      forall x | x in left[u] && x < |next|
        ensures next'[x] == next[x]
      {
        assert Pending(left, x);
      }
      OtherLeader(waiting, next, cursor[u], left[u], u, waiting', next');
    }
  }

  /** A thread that waits for nobody, and that nobody is to re-point, is one more leader. */
  lemma NewLeader(waiting: seq<int>, next: seq<int>, cursor: map<nat, int>, left: map<nat, seq<nat>>,
                  waiting': seq<int>, next': seq<int>, t: nat, owner: nat, chain: seq<nat>)
    requires LeadersRight(waiting, next, cursor, left) && (forall x :: x in chain ==> !Pending(left, x))
    requires t < |waiting| && t !in cursor && waiting[t] == -1 && !Pending(left, t)
    requires ChainTo(waiting, chain, t) && Cleared(waiting, chain, waiting') && Linked(next', owner, chain, t)
    requires |next'| == |next| && forall x :: 0 <= x < |next| && x !in chain ==> next'[x] == next[x]
    ensures LeadersRight(waiting', next', cursor[t := owner], left[t := chain])
  {
    var cursor', left' := cursor[t := owner], left[t := chain];
    ChainFacts(waiting, chain, t);
    DisjointMore(left, t, chain);
    OthersStayRight(waiting, next, cursor, left, waiting', next', t, chain);
    forall x: nat | Pending(left', x)
      ensures x < |waiting'| && x !in cursor'
    {
      if x in chain { ChainUntouched(waiting, next, cursor, left, chain, t, x); } else { assert Pending(left, x); }
    }
  }

  /** The leader's own chain, one thread shorter. */
  lemma LinkedTail(next: seq<int>, cursor: int, left: seq<nat>, t: nat)
    requires Linked(next, cursor, left, t) && left != []
    ensures cursor == left[0] < |next| && Linked(next, next[left[0]], left[1..], t)
  {
    var chain := left[1..];
    assert next[left[0]] == Stop(left, t, 1);
    forall i | 0 <= i < |chain|
      ensures chain[i] < |next| && next[chain[i]] == Stop(chain, t, i + 1)
    {
      assert chain[i] == left[i + 1] && next[left[i + 1]] == Stop(left, t, i + 2);
    }
  }

  lemma DisjointLess(left: map<nat, seq<nat>>, t: nat)
    requires Disjoint(left) && t in left && left[t] != []
    ensures Disjoint(left[t := left[t][1..]])
  {
    var left' := left[t := left[t][1..]];
    forall u, v, y | u in left' && v in left' && y in left'[u] && y in left'[v]
      ensures u == v
    {
      assert y in left[u] && y in left[v];
    }
  }

  lemma LeadersAfterOne(waiting: seq<int>, next: seq<int>, cursor: map<nat, int>, left: map<nat, seq<nat>>, t: nat)
    requires LeadersRight(waiting, next, cursor, left) && |next| == |waiting| && t in left && left[t] != []
    ensures var x := left[t][0];
      cursor[t] == x && x < |waiting| && LeadersRight(waiting[x := t], next, cursor[t := next[x]], left[t := left[t][1..]])
  {
    var x, chain := left[t][0], left[t][1..];
    assert LeaderRight(waiting, next, cursor[t], left[t], t);
    assert x in left[t] && Pending(left, x);
    var waiting', cursor', left' := waiting[x := t], cursor[t := next[x]], left[t := chain];
    LinkedTail(next, cursor[t], left[t], t);
    DisjointLess(left, t);
    forall u | u in left'
      ensures LeaderRight(waiting', next, cursor'[u], left'[u], u)
    {
      LeaderIdle(waiting, next, cursor, left, u);
      if u != t { OtherLeader(waiting, next, cursor[u], left[u], u, waiting', next); }
    }
    forall y: nat | Pending(left', y)
      ensures Pending(left, y)
    {
      var u :| u in left' && y in left'[u];
      assert y in left[u];
    }
  }

  /** A leader re-points the first thread of its chain: it cannot close a cycle, for the leader waits for nobody. */
  lemma OneRepointed(waiting: seq<int>, next: seq<int>, cursor: map<nat, int>, left: map<nat, seq<nat>>, t: nat)
    requires |next| == |waiting| && Acyclic(Pointers(waiting)) && LeadersRight(waiting, next, cursor, left) && t in left && left[t] != []
    ensures var x := left[t][0];
      && cursor[t] == x != t && x < |waiting| && Acyclic(Pointers(waiting[x := t]))
      && LeadersRight(waiting[x := t], next, cursor[t := next[x]], left[t := left[t][1..]])
  {
    var x := left[t][0];
    LeadersAfterOne(waiting, next, cursor, left, t);
    LeaderIdle(waiting, next, cursor, left, t);
    assert x in left[t] && Pending(left, x);
    if Reach(Pointers(waiting), t, x) { ReachesOnlyItself(Pointers(waiting), t, x); }
    SetPointer(waiting, x, t);
  }

  lemma LeaderLeaves(waiting: seq<int>, next: seq<int>, cursor: map<nat, int>, left: map<nat, seq<nat>>, t: nat)
    requires LeadersRight(waiting, next, cursor, left) && t in left
    ensures LeadersRight(waiting, next, cursor - {t}, left - {t})
  {
    forall u | u in left - {t}
      ensures LeaderRight(waiting, next, cursor[u], left[u], u)
    {
      assert LeaderRight(waiting, next, cursor[u], left[u], u);
    }
    forall x | Pending(left - {t}, x)
      ensures Pending(left, x)
    {
    }
    assert Disjoint(left - {t}) by {
      forall u, v, y | u in left - {t} && v in left - {t} && y in (left - {t})[u] && y in (left - {t})[v]
        ensures u == v
      {
        assert y in left[u] && y in left[v];
      }
    }
  }

  // ----- the steps -----

  /**
   A thread comes to wait for the owner of a table, or wakes in its wait and finds
   another owner; its table is complete; a leader takes one turn of its re-pointing loop,
   which holds no mutex, so that others step in between.
   */
  datatype Event =
    | Waits(t: nat, owner: nat)
    | Withdraws(t: nat)
    | Repoints(t: nat)

  /** The pointers, the remembered successors, where each leader's loop stands, and what is left of its chain. */
  datatype Moment = Moment(waiting: seq<int>, next: seq<int>, cursor: map<nat, int>, left: map<nat, seq<nat>>)

  ghost predicate Sound(s: Moment) {
    && |s.next| == |s.waiting| && Acyclic(Pointers(s.waiting)) && LeadersRight(s.waiting, s.next, s.cursor, s.left)
    && forall x :: 0 <= x < |s.waiting| ==> s.waiting[x] == -1 || 0 <= s.waiting[x] < |s.waiting|
  }

  function Start(n: nat): Moment {
    Moment(seq(n, _ => -1), seq(n, _ => -1), map[], map[])
  }

  /** Any thread that is not in the re-pointing loop may act. */
  predicate Free(s: Moment, t: nat) {
    t < |s.waiting| && t !in s.cursor
  }

  /** Collecting the chain from owner back to t. */
  ghost predicate Collected(s: Moment, t: nat, owner: nat, s': Moment) {
    && t in s'.left && s'.cursor == s.cursor[t := owner] && s'.left == s.left[t := s'.left[t]]
    && ChainTo(s.waiting, s'.left[t], t) && Cleared(s.waiting, s'.left[t], s'.waiting) && Linked(s'.next, owner, s'.left[t], t)
    && |s'.next| == |s.next| && forall x :: 0 <= x < |s.next| && x !in s'.left[t] ==> s'.next[x] == s.next[x]
  }

  /** One turn of t's loop; a thread that is gone from its chain counts as a pointer to nowhere. */
  function Turned(s: Moment, t: nat): Moment
    requires t in s.cursor
  {
    var x := s.cursor[t];
    if x == t then s.(cursor := s.cursor - {t}, left := s.left - {t})
    else if 0 <= x < |s.waiting| && x < |s.next| then
      s.(waiting := s.waiting[x := t], cursor := s.cursor[t := s.next[x]],
         left := if t in s.left && s.left[t] != [] then s.left[t := s.left[t][1..]] else s.left)
    else s
  }

  /** What an event does: nothing if the thread is not free for it. If t has come to own the table itself, the chain is empty and nothing is re-pointed. */
  ghost predicate Stepped(e: Event, s: Moment, s': Moment) {
    forall k {:trigger Open(k)} :: Open(k) ==>
      match e
      case Waits(t, owner) =>
        if !Free(s, t) || owner >= |s.waiting| || owner == t then s' == s
        else if !Reach(Pointers(s.waiting), owner, t) then s' == s.(waiting := s.waiting[t := owner])
        else Collected(s, t, owner, s')
      case Withdraws(t) => s' == if Free(s, t) then s.(waiting := s.waiting[t := -1]) else s
      case Repoints(t) => s' == if t in s.cursor then Turned(s, t) else s
  }

  ghost predicate FindsCycle(e: Event, s: Moment) {
    e.Waits? && Free(s, e.t) && e.owner < |s.waiting| && e.owner != e.t && Reach(Pointers(s.waiting), e.owner, e.t)
  }

  /** The thread's own pointer is set, or another leader is going to set it. */
  ghost predicate Engaged(s: Moment, t: nat) {
    t < |s.waiting| && (s.waiting[t] != -1 || Pending(s.left, t))
  }

  /** The chain found has a thread that another leader still has to re-point. */
  ghost predicate Tangles(e: Event, s: Moment) {
    FindsCycle(e, s) && exists x: nat :: x != e.t && Pending(s.left, x) && Between(s.waiting, e.owner, x, e.t)
  }

  ghost predicate Between(waiting: seq<int>, owner: nat, x: nat, t: nat) {
    Reach(Pointers(waiting), owner, x) && Reach(Pointers(waiting), x, t)
  }

  /** The thread that finds the cycle is engaged itself, or so is one of its chain. */
  ghost predicate Upsets(e: Event, s: Moment) {
    FindsCycle(e, s) && (Engaged(s, e.t) || Tangles(e, s))
  }

  /** The threads of the chain are those between its ends. */
  lemma OnChainIff(waiting: seq<int>, chain: seq<nat>, t: nat, owner: nat, x: nat)
    requires Acyclic(Pointers(waiting)) && ChainTo(waiting, chain, t) && owner == Stop(chain, t, 0)
    ensures x in chain <==> x != t && Between(waiting, owner, x, t)
  {
    var g, p := Pointers(waiting), chain + [t];
    ChainFacts(waiting, chain, t);
    assert p[|chain|] == t && p[0] == owner;
    if x in chain {
      var i :| 0 <= i < |chain| && chain[i] == x;
      assert p[i] == x;
      PathReaches(g, p, 0, i);
      PathReaches(g, p, i, |chain|);
    }
    if x != t && Between(waiting, owner, x, t) {
      var s := (set i | 0 <= i < |p| :: p[i]) + set v: nat | v < |g| && Reach(g, t, v);
      ReachRefl(g, t);
      forall u, v | u in s && Edge(g, u, v)
        ensures v in s
      {
        if Reach(g, t, u) {
          ReachEdge(g, u, v);
          ReachTrans(g, t, u, v);
        } else {
          var i :| 0 <= i < |p| && p[i] == u;
          assert i < |chain| && Edge(g, p[i], p[i + 1]);
          assert v == p[i + 1];
        }
      }
      assert p[0] in s;
      ClosedUnderReach(g, s, owner, x);
      if Reach(g, t, x) {
        var w := ReachFirstStep(g, t, x);
        ReachTrans(g, w, x, t);
      }
    }
  }

  /** A leader that is not engaged, with a chain that is not: all stays right. */
  lemma CollectedSound(s: Moment, t: nat, owner: nat, s': Moment)
    requires Sound(s) && Free(s, t) && Collected(s, t, owner, s') && FindsCycle(Waits(t, owner), s)
    requires !Upsets(Waits(t, owner), s)
    ensures Sound(s')
  {
    var chain := s'.left[t];
    ClearedAcyclic(s.waiting, chain, s'.waiting);
    forall x | x in chain
      ensures !Pending(s.left, x)
    {
      OnChainIff(s.waiting, chain, t, owner, x);
      ChainFacts(s.waiting, chain, t);
    }
    NewLeader(s.waiting, s.next, s.cursor, s.left, s'.waiting, s'.next, t, owner, chain);
  }

  lemma TurnedSound(s: Moment, t: nat)
    requires Sound(s) && t in s.cursor
    ensures Sound(Turned(s, t))
    ensures s.cursor[t] == Stop(s.left[t], t, 0)
  {
    assert LeaderRight(s.waiting, s.next, s.cursor[t], s.left[t], t);
    if s.left[t] == [] {
      LeaderLeaves(s.waiting, s.next, s.cursor, s.left, t);
    } else {
      OneRepointed(s.waiting, s.next, s.cursor, s.left, t);
    }
  }

  /** Whatever happens, short of an upset, keeps the pointers acyclic and the loops right. */
  lemma SteppedSound(e: Event, s: Moment, s': Moment)
    requires Sound(s) && Stepped(e, s, s') && !Upsets(e, s)
    ensures Sound(s')
  {
    assert Open(0);
    match e
    case Waits(t, owner) =>
      if Free(s, t) && owner < |s.waiting| && owner != t {
        if Reach(Pointers(s.waiting), owner, t) {
          CollectedSound(s, t, owner, s');
        } else {
          SetPointer(s.waiting, t, owner);
          FreeMoves(s.waiting, s.next, s.cursor, s.left, t, owner);
        }
      }
    case Withdraws(t) =>
      if Free(s, t) {
        FewerAcyclic(Pointers(s.waiting), Pointers(s.waiting[t := -1]));
        FreeMoves(s.waiting, s.next, s.cursor, s.left, t, -1);
      }
    case Repoints(t) =>
      if t in s.cursor { TurnedSound(s, t); }
  }

  // ----- runs -----

  /** A run of events without an upset. */
  ghost predicate Runs(es: seq<Event>, r: seq<Moment>) {
    |r| == |es| + 1 && forall i {:trigger es[i]} :: 0 <= i < |es| ==> Stepped(es[i], r[i], r[i + 1]) && !Upsets(es[i], r[i])
  }

  /** No cycle, and every leader's loop walks the threads it has to re-point and ends at itself. */
  ghost predicate Right(s: Moment) {
    && Acyclic(Pointers(s.waiting))
    && forall u {:trigger s.cursor[u]} :: u in s.cursor ==> u in s.left && Linked(s.next, s.cursor[u], s.left[u], u)
  }

  /** Whatever happens from s on, short of an upset. */
  ghost predicate StaysRight(s: Moment) {
    forall es, r {:trigger Runs(es, r)} :: Runs(es, r) && r[0] == s ==> Right(r[|es|])
  }

  lemma SoundRight(s: Moment)
    requires Sound(s)
    ensures Right(s)
  {
    forall u | u in s.cursor
      ensures u in s.left && Linked(s.next, s.cursor[u], s.left[u], u)
    {
      assert LeaderRight(s.waiting, s.next, s.cursor[u], s.left[u], u);
    }
  }

  lemma {:induction false} RunStaysSound(es: seq<Event>, r: seq<Moment>, i: nat)
    requires Runs(es, r) && Sound(r[0]) && i <= |es|
    ensures Sound(r[i])
  {
    if i > 0 {
      RunStaysSound(es, r, i - 1);
      assert Stepped(es[i - 1], r[i - 1], r[i]);
      SteppedSound(es[i - 1], r[i - 1], r[i]);
    }
  }

  lemma SoundStaysRight(s: Moment)
    requires Sound(s)
    ensures StaysRight(s)
  {
    forall es, r | Runs(es, r) && r[0] == s
      ensures Right(r[|es|])
    {
      RunStaysSound(es, r, |es|);
      SoundRight(r[|es|]);
    }
  }

  lemma RunsOn(es: seq<Event>, r: seq<Moment>, e: Event, s: Moment)
    requires Runs(es, r) && Stepped(e, r[|es|], s) && !Upsets(e, r[|es|])
    ensures Runs(es + [e], r + [s]) && (r + [s])[|es| + 1] == s && (r + [s])[0] == r[0]
  {
    var es', r' := es + [e], r + [s];
    forall i | 0 <= i < |es'|
      ensures Stepped(es'[i], r'[i], r'[i + 1]) && !Upsets(es'[i], r'[i])
    {
      if i < |es| { assert es'[i] == es[i] && r'[i] == r[i] && r'[i + 1] == r[i + 1]; }
    }
  }

  /** Running a leader's loop to its end. */
  lemma {:induction false} LoopRuns(es: seq<Event>, r: seq<Moment>, u: nat) returns (es': seq<Event>, r': seq<Moment>)
    requires Runs(es, r) && u in r[|es|].cursor && u in r[|es|].left && |r[|es|].next| == |r[|es|].waiting|
    requires var s := r[|es|]; LeaderRight(s.waiting, s.next, s.cursor[u], s.left[u], u)
    ensures Runs(es', r') && r'[0] == r[0]
    ensures var (s, s') := (r[|es|], r'[|es'|]);
      && s'.cursor == s.cursor - {u} && s'.left == s.left - {u} && s'.next == s.next && |s'.waiting| == |s.waiting|
      && forall x :: 0 <= x < |s.waiting| ==> s'.waiting[x] == if x in s.left[u] then u else s.waiting[x]
    decreases |r[|es|].left[u]|
  {
    var s := r[|es|];
    var s1 := Turned(s, u);
    assert Stepped(Repoints(u), s, s1);
    RunsOn(es, r, Repoints(u), s1);
    es', r' := es + [Repoints(u)], r + [s1];
    if s.left[u] != [] {
      LinkedTail(s.next, s.cursor[u], s.left[u], u);
      TailLeader(s, u);
      es', r' := LoopRuns(es', r', u);
      assert s.left[u] == [s.left[u][0]] + s.left[u][1..];
      assert s1.cursor - {u} == s.cursor - {u} && s1.left - {u} == s.left - {u};
    }
  }

  lemma TailLeader(s: Moment, u: nat)
    requires u in s.cursor && u in s.left && s.left[u] != [] && |s.next| == |s.waiting|
    requires LeaderRight(s.waiting, s.next, s.cursor[u], s.left[u], u)
    ensures var (x, s1) := (s.left[u][0], Turned(s, u));
      && x < |s.waiting| && s1 == s.(waiting := s.waiting[x := u], cursor := s.cursor[u := s.next[x]], left := s.left[u := s.left[u][1..]])
      && LeaderRight(s1.waiting, s1.next, s1.cursor[u], s1.left[u], u)
  {
    LinkedTail(s.next, s.cursor[u], s.left[u], u);
    assert s.left[u][0] in s.left[u];
    assert NoRepeats(s.left[u][1..]) by {
      forall i, j | 0 <= i < j < |s.left[u][1..]|
        ensures s.left[u][1..][i] != s.left[u][1..][j]
      {
        assert s.left[u][i + 1] != s.left[u][j + 1];
      }
    }
  }

  /** Every thread that leads to u still does once some threads point to u directly. */
  lemma {:induction false} StillLeadsTo(g: Graph, g': Graph, u: nat, p: seq<nat>)
    requires |g'| == |g| && (forall x, y :: Edge(g, x, y) ==> Edge(g', x, y) || Edge(g', x, u)) && IsPath(g, p) && p[|p| - 1] == u
    ensures Reach(g', p[0], u)
    decreases |p|
  {
    if |p| == 1 {
      ReachRefl(g', u);
    } else {
      PathTail(g, p);
      StillLeadsTo(g, g', u, p[1..]);
      assert Edge(g, p[0], p[1]);
      if Edge(g', p[0], u) {
        ReachEdge(g', p[0], u);
      } else {
        ReachEdge(g', p[0], p[1]);
        ReachTrans(g', p[0], p[1], u);
      }
    }
  }

  /** Where the pointers from t end. */
  lemma {:induction false} PathEnd(waiting: seq<int>, p: seq<nat>) returns (e: nat)
    requires Acyclic(Pointers(waiting)) && IsPath(Pointers(waiting), p) && NoRepeats(p)
    requires forall x :: 0 <= x < |waiting| ==> waiting[x] == -1 || 0 <= waiting[x] < |waiting|
    ensures e < |waiting| && waiting[e] == -1 && Reach(Pointers(waiting), p[0], e)
    decreases |waiting| - |p|
  {
    var g := Pointers(waiting);
    e := p[|p| - 1];
    PathLength(g, p);
    if waiting[e] == -1 {
      assert PathFromTo(g, p, p[0], e);
    } else {
      var v: nat := waiting[e];
      assert Edge(g, e, v);
      NotMetBefore(g, p, v);
      PathSnoc(g, p, v);
      PathLength(g, p + [v]);
      e := PathEnd(waiting, p + [v]);
    }
  }

  lemma MoreReach(waiting: seq<int>, x: nat, v: int, a: nat, b: nat)
    requires x < |waiting| && waiting[x] == -1 && Reach(Pointers(waiting), a, b)
    ensures Reach(Pointers(waiting[x := v]), a, b)
  {
    var g, g' := Pointers(waiting), Pointers(waiting[x := v]);
    var p :| PathFromTo(g, p, a, b);
    FewerReach(g', g, p);
    assert PathFromTo(g', p, a, b);
  }

  /** Thread e, at the end of the leader's pointers, waits for the first of the leader's chain just before that is re-pointed. */
  lemma ClosesCycle(es: seq<Event>, r: seq<Moment>, t: nat, owner: nat, e: nat) returns (es': seq<Event>, r': seq<Moment>)
    requires Runs(es, r)
    requires var s := r[|es|];
      && t in s.cursor && s.cursor[t] == owner != t && t < |s.waiting| && owner < |s.waiting| && |s.next| == |s.waiting|
      && s.waiting[owner] == -1 && Free(s, e) && e != owner && s.waiting[e] == -1 && Reach(Pointers(s.waiting), t, e)
    ensures Runs(es', r') && r'[0] == r[0] && !Acyclic(Pointers(r'[|es'|].waiting))
  {
    var s := r[|es|];
    var g := Pointers(s.waiting);
    if Reach(g, owner, e) { ReachesOnlyItself(g, owner, e); }
    var s1 := s.(waiting := s.waiting[e := owner]);
    assert Stepped(Waits(e, owner), s, s1);
    RunsOn(es, r, Waits(e, owner), s1);
    var s2 := Turned(s1, t);
    assert Stepped(Repoints(t), s1, s2);
    RunsOn(es + [Waits(e, owner)], r + [s1], Repoints(t), s2);
    es', r' := es + [Waits(e, owner)] + [Repoints(t)], r + [s1] + [s2];
    MoreReach(s.waiting, owner, t, t, e);
    MoreReach(s.waiting[owner := t], e, owner, t, e);
    assert s2.waiting == s.waiting[owner := t][e := owner];
    var h := Pointers(s2.waiting);
    assert Edge(h, e, owner) && Edge(h, owner, t);
    ReachEdge(h, owner, t);
    ReachTrans(h, owner, t, e);
  }

  /** Chains of two leaders that share a thread cannot both lead back, unless they meet in the other leader. */
  lemma {:induction false} SharedChain(next: seq<int>, owner: int, chain: seq<nat>, t: nat, cursor: int, left: seq<nat>, u: nat, i: nat, j: nat)
    requires Linked(next, owner, chain, t) && Linked(next, cursor, left, u) && i < |left| && j < |chain| && left[i] == chain[j]
    ensures t in left || u in chain || t == u
    decreases |left| - i
  {
    assert Stop(left, u, i + 1) == Stop(chain, t, j + 1);
    if i + 1 < |left| && j + 1 < |chain| {
      SharedChain(next, owner, chain, t, cursor, left, u, i + 1, j + 1);
    } else if i + 1 < |left| {
      assert left[i + 1] == t;
    } else if j + 1 < |chain| {
      assert chain[j + 1] == u;
    }
  }

  /** What is known once a thread has collected a chain. */
  lemma CollectedFacts(s0: Moment, t: nat, owner: nat, s: Moment)
    requires Sound(s0) && FindsCycle(Waits(t, owner), s0) && Collected(s0, t, owner, s)
    ensures Acyclic(Pointers(s.waiting)) && owner in s.left[t] && owner !in s.cursor && s.waiting[owner] == -1 && |s.next| == |s.waiting|
    ensures s.waiting[t] == s0.waiting[t] && !Reach(Pointers(s.waiting), t, owner)
    ensures forall u :: u in s0.cursor ==> u != t && u in s.cursor && u in s.left && u !in s.left[t] && u != owner && s.waiting[u] == -1
  {
    var chain := s.left[t];
    ChainFacts(s0.waiting, chain, t);
    ClearedAcyclic(s0.waiting, chain, s.waiting);
    assert owner == Stop(chain, t, 0) && chain != [] && owner == chain[0];
    ChainNotReached(s0.waiting, chain, t, s.waiting, owner);
    ChainUntouched(s0.waiting, s0.next, s0.cursor, s0.left, chain, t, owner);
    forall u | u in s0.cursor
      ensures u !in chain && s0.waiting[u] == -1
    {
      LeaderIdle(s0.waiting, s0.next, s0.cursor, s0.left, u);
      if u in chain { ChainUntouched(s0.waiting, s0.next, s0.cursor, s0.left, chain, t, u); }
    }
  }

  /** If the chain has a thread another leader still has to re-point, that leader's loop goes astray, or re-points t itself. */
  lemma TangledGoesAstray(s0: Moment, t: nat, owner: nat, s: Moment)
    requires Sound(s0) && Tangles(Waits(t, owner), s0) && Collected(s0, t, owner, s) && Right(s)
    ensures Pending(s0.left, t)
  {
    var chain := s.left[t];
    CollectedFacts(s0, t, owner, s);
    var x: nat :| x != t && Pending(s0.left, x) && Between(s0.waiting, owner, x, t);
    OnChainIff(s0.waiting, chain, t, owner, x);
    var u :| u in s0.left && x in s0.left[u];
    assert u in s.cursor && s.left[u] == s0.left[u];
    assert Linked(s.next, s.cursor[u], s.left[u], u) && Linked(s.next, s.cursor[t], s.left[t], t);
    var i :| 0 <= i < |s.left[u]| && s.left[u][i] == x;
    var j :| 0 <= j < |chain| && chain[j] == x;
    SharedChain(s.next, owner, chain, t, s.cursor[u], s.left[u], u, i, j);
  }

  /** Another leader re-points t; then it waits for the first thread of t's chain, which has woken in the meantime. */
  lemma PendingClosesCycle(s0: Moment, t: nat, owner: nat, s: Moment) returns (es: seq<Event>, r: seq<Moment>)
    requires Sound(s0) && FindsCycle(Waits(t, owner), s0) && Pending(s0.left, t) && Collected(s0, t, owner, s) && Right(s)
    ensures Runs(es, r) && r[0] == s && !Acyclic(Pointers(r[|es|].waiting))
  {
    CollectedFacts(s0, t, owner, s);
    es, r := [], [s];
    var e: nat :| e in s0.left && t in s0.left[e];
    assert LeaderRight(s0.waiting, s0.next, s0.cursor[e], s0.left[e], e);
    assert Linked(s.next, s.cursor[e], s.left[e], e);
    assert e in s0.left[e] ==> Pending(s0.left, e);
    es, r := LoopRuns(es, r, e);
    var s1 := r[|es|];
    if s1.waiting[owner] != -1 {
      var s2 := s1.(waiting := s1.waiting[owner := -1]);
      assert Stepped(Withdraws(owner), s1, s2);
      RunsOn(es, r, Withdraws(owner), s2);
      es, r := es + [Withdraws(owner)], r + [s2];
    }
    var g := Pointers(r[|es|].waiting);
    assert Edge(g, t, e);
    ReachEdge(g, t, e);
    es, r := ClosesCycle(es, r, t, owner, e);
  }

  /** The thread at the end of t's own pointers leaves its loop; the pointers still lead to it, and t's chain is as it was. */
  lemma EndLeavesLoop(s0: Moment, t: nat, owner: nat, s: Moment, e: nat) returns (es: seq<Event>, r: seq<Moment>)
    requires Sound(s0) && FindsCycle(Waits(t, owner), s0) && s0.waiting[t] != -1 && !Tangles(Waits(t, owner), s0)
    requires Collected(s0, t, owner, s) && Right(s) && e in s.cursor && e != t && Reach(Pointers(s.waiting), t, e)
    ensures Runs(es, r) && r[0] == s
    ensures var s' := r[|es|];
      && s'.cursor == s.cursor - {e} && |s'.waiting| == |s'.next| == |s.waiting| && s'.waiting[owner] == -1
      && e < |s.waiting| && s'.waiting[e] == -1 && Reach(Pointers(s'.waiting), t, e)
  {
    CollectedFacts(s0, t, owner, s);
    assert LeaderRight(s0.waiting, s0.next, s0.cursor[e], s0.left[e], e);
    assert Linked(s.next, s.cursor[e], s.left[e], e);
    es, r := LoopRuns([], [s], e);
    var g := Pointers(s.waiting);
    var p :| PathFromTo(g, p, t, e);
    StillLeadsTo(g, Pointers(r[|es|].waiting), e, p);
    OnChainIff(s0.waiting, s.left[t], t, owner, owner);
    assert owner in s0.left[e] ==> Pending(s0.left, owner);
    assert e in s0.left[e] ==> Pending(s0.left, e);
  }

  /** The thread at the end of t's own pointers leaves its loop, if it is in one, and waits for the first thread of t's chain. */
  lemma WaitingClosesCycle(s0: Moment, t: nat, owner: nat, s: Moment) returns (es: seq<Event>, r: seq<Moment>)
    requires Sound(s0) && FindsCycle(Waits(t, owner), s0) && s0.waiting[t] != -1 && !Tangles(Waits(t, owner), s0)
    requires Collected(s0, t, owner, s) && Right(s)
    ensures Runs(es, r) && r[0] == s && !Acyclic(Pointers(r[|es|].waiting))
  {
    CollectedFacts(s0, t, owner, s);
    es, r := [], [s];
    var g := Pointers(s.waiting);
    var e := PathEnd(s.waiting, [t]);
    if e in s.cursor { es, r := EndLeavesLoop(s0, t, owner, s, e); }
    es, r := ClosesCycle(es, r, t, owner, e);
  }

  /**
   When a thread finds a cycle and collects its chain, the guard for all going well
   from there on is that it waits for nobody itself, and that no other leader is still to re-point it
   or a thread of its chain.
   */
  lemma LeadsSafelyIff(s: Moment, t: nat, owner: nat, s': Moment)
    requires Sound(s) && FindsCycle(Waits(t, owner), s) && Stepped(Waits(t, owner), s, s')
    ensures StaysRight(s') <==> !Upsets(Waits(t, owner), s)
  {
    var e := Waits(t, owner);
    assert Open(0);
    if !Upsets(e, s) {
      SteppedSound(e, s, s');
      SoundStaysRight(s');
    } else {
      var es, r := [], [s'];
      assert Runs(es, r) && r[0] == s';
      if Right(s') {
        if Pending(s.left, t) {
          es, r := PendingClosesCycle(s, t, owner, s');
        } else {
          if Tangles(e, s) { TangledGoesAstray(s, t, owner, s'); }
          es, r := WaitingClosesCycle(s, t, owner, s');
        }
      }
      assert !Right(r[|es|]);
    }
  }

  // ----- the threads -----

  class WaitGraph {
    /** For each thread the thread it waits for, or -1. */
    var waiting: seq<int>
    /** For each thread in a chain being re-pointed, the next one. */
    var next: seq<int>
    /** For each leader in its loop, the thread to be re-pointed next. */
    var cursor: map<nat, int>
    /** For each such leader, all threads still to be re-pointed. */
    var left: map<nat, seq<nat>>

    ghost function Now(): Moment
      reads this
    {
      Moment(waiting, next, cursor, left)
    }

    ghost predicate Valid()
      reads this
    {
      Sound(Now())
    }

    constructor (n: nat)
      ensures Valid() && Now() == Start(n)
    {
      waiting, next := seq(n, _ => -1), seq(n, _ => -1);
      cursor, left := map[], map[];
    }

    /** The thread that found a cycle collects the chain that leads back to it; has it or the chain to do with another leader, or does it wait itself? */
    method Lead(t: nat, owner: nat) returns (upset: bool)
      requires Valid() && FindsCycle(Waits(t, owner), Now())
      modifies this
      ensures upset <==> Upsets(Waits(t, owner), old(Now()))
      ensures Collected(old(Now()), t, owner, Now()) && (!upset ==> Valid())
    {
      var waiting', next', chain := Collect(waiting, next, t, owner);
      upset := waiting[t] != -1 || Pending(left, t) || exists x | x in chain :: Pending(left, x);
      UpsetsIff(Now(), t, owner, chain);
      ghost var s := Now();
      waiting, next, cursor, left := waiting', next', cursor[t := owner], left[t := chain];
      if !upset { CollectedSound(s, t, owner, Now()); }
    }

    /** A thread about to wait for owner follows the pointers first; it waits, or becomes a leader. */
    method TryWait(t: nat, owner: nat) returns (deadlock: bool, upset: bool)
      requires Valid() && Free(Now(), t) && owner < |waiting| && owner != t
      modifies this
      ensures deadlock <==> !Acyclic(Pointers(old(waiting)[t := owner]))
      ensures !deadlock ==> Now() == old(Now()).(waiting := old(waiting)[t := owner])
      ensures deadlock ==> Collected(old(Now()), t, owner, Now())
      ensures (upset <==> Upsets(Waits(t, owner), old(Now()))) && (!upset ==> Valid())
    {
      SetPointer(waiting, t, owner);
      deadlock := WouldDeadlock(waiting, owner, t);
      if deadlock {
        upset := Lead(t, owner);
      } else {
        upset := false;
        FreeMoves(waiting, next, cursor, left, t, owner);
        waiting := waiting[t := owner];
      }
    }

    /** The table a thread waited for is complete. */
    method Withdraw(t: nat)
      requires Valid() && Free(Now(), t)
      modifies this`waiting
      ensures Valid() && waiting == old(waiting)[t := -1]
    {
      FreeMoves(waiting, next, cursor, left, t, -1);
      FewerAcyclic(Pointers(waiting), Pointers(waiting[t := -1]));
      waiting := waiting[t := -1];
    }

    /** One turn of a leader's loop; it ends when the chain is back at the leader, and that is when all of the chain has been re-pointed. */
    method RepointOne(t: nat) returns (finished: bool)
      requires Valid() && t in cursor
      modifies this`waiting, this`cursor, this`left
      ensures Valid() && Now() == Turned(old(Now()), t)
      ensures t in old(left) && (finished <==> old(left)[t] == [])
      ensures finished ==> waiting == old(waiting) && t !in cursor
      ensures !finished ==> waiting == old(waiting)[old(left)[t][0] := t]
    {
      TurnedSound(Now(), t);
      LeaderRightNow(Now(), t);
      var x := cursor[t];
      finished := x == t;
      if finished {
        cursor, left := cursor - {t}, left - {t};
      } else {
        waiting, cursor, left := waiting[x := t], cursor[t := next[x]], left[t := left[t][1..]];
      }
    }

    /** One event, if the thread is free for it. */
    method Happen(e: Event) returns (upset: bool)
      requires Valid()
      modifies this
      ensures upset <==> Upsets(e, old(Now()))
      ensures Stepped(e, old(Now()), Now()) && (!upset ==> Valid())
    {
      upset := false;
      match e
      case Waits(t, owner) =>
        if t < |waiting| && t !in cursor && owner < |waiting| && owner != t {
          SetPointer(waiting, t, owner);
          var deadlock;
          deadlock, upset := TryWait(t, owner);
        }
      case Withdraws(t) =>
        if t < |waiting| && t !in cursor { Withdraw(t); }
      case Repoints(t) =>
        if t in cursor { var finished := RepointOne(t); }
    }
  }

  /** What the leader can tell from the chain it has collected. */
  lemma UpsetsIff(s: Moment, t: nat, owner: nat, chain: seq<nat>)
    requires Sound(s) && FindsCycle(Waits(t, owner), s) && ChainTo(s.waiting, chain, t) && owner == Stop(chain, t, 0)
    ensures Upsets(Waits(t, owner), s) <==> s.waiting[t] != -1 || Pending(s.left, t) || exists x :: x in chain && Pending(s.left, x)
  {
    ChainFacts(s.waiting, chain, t);
    forall x: nat
      ensures x in chain <==> x != t && Between(s.waiting, owner, x, t)
    {
      OnChainIff(s.waiting, chain, t, owner, x);
    }
  }

  lemma LeaderRightNow(s: Moment, t: nat)
    requires Sound(s) && t in s.cursor
    ensures t in s.left && (s.left[t] == [] <==> s.cursor[t] == t) && s.cursor[t] == Stop(s.left[t], t, 0)
    ensures s.cursor[t] != t ==> s.cursor[t] == s.left[t][0] < |s.waiting|
  {
    assert LeaderRight(s.waiting, s.next, s.cursor[t], s.left[t], t);
    if s.left[t] != [] {
      assert s.left[t][0] in s.left[t];
      assert Pending(s.left, s.left[t][0]);
    }
  }

  /** Any interleaving, up to the first upset: every event does what it should, no cycle ever closes, and no leader's loop goes astray. */
  method RunAll(n: nat, events: seq<Event>) returns (g: WaitGraph, upset: bool, ghost run: seq<Moment>)
    ensures 0 < |run| <= |events| + 1 && run[0] == Start(n)
    ensures forall i :: 0 <= i < |run| - 1 ==> Stepped(events[i], run[i], run[i + 1])
    ensures forall i :: 0 <= i < |run| - 1 ==> Right(run[i]) && !Upsets(events[i], run[i])
    ensures Right(run[|run| - 1]) && fresh(g)
    ensures if upset then |run| <= |events| && Upsets(events[|run| - 1], run[|run| - 1])
            else |run| == |events| + 1 && g.Valid() && g.Now() == run[|events|]
  {
    g := new WaitGraph(n);
    upset := false;
    run := [g.Now()];
    SoundRight(g.Now());
    for i := 0 to |events|
      invariant fresh(g) && 0 < |run| <= i + 1 && run[0] == Start(n) && Right(run[|run| - 1])
      invariant if upset then |run| <= i && Upsets(events[|run| - 1], run[|run| - 1])
                else |run| == i + 1 && g.Valid() && run[i] == g.Now()
      invariant forall i :: 0 <= i < |run| - 1 ==> Stepped(events[i], run[i], run[i + 1])
      invariant forall i :: 0 <= i < |run| - 1 ==> Right(run[i]) && !Upsets(events[i], run[i])
    {
      if !upset {
        upset := g.Happen(events[i]);
        if !upset {
          SoundRight(g.Now());
          run := run + [g.Now()];
        }
      }
    }
  }

  /** Thread 0 waits for 1; 2 waits for 0; 0 wakes and finds the table it waits for owned by 2. Before 2 is re-pointed, 1 comes to wait for 2. */
  function Example(): seq<Event> {
    [Waits(0, 1), Waits(2, 0), Waits(0, 2), Waits(1, 2), Repoints(0)]
  }

  function At(waiting: seq<int>): Moment {
    Moment(waiting, [-1, -1, -1], map[], map[])
  }

  function Collecting(waiting: seq<int>, at: int, chain: seq<nat>): Moment {
    Moment(waiting, [-1, -1, 0], map[0 := at], map[0 := chain])
  }

  function ExampleRun(): seq<Moment> {
    [Start(3), At([1, -1, -1]), At([1, -1, 0]), Collecting([1, -1, -1], 2, [2]), Collecting([1, 2, -1], 2, [2]), Collecting([1, 2, 0], 0, [])]
  }

  lemma FirstWaits()
    ensures Stepped(Waits(0, 1), Start(3), At([1, -1, -1])) && Acyclic(Pointers(Start(3).waiting)) && !FindsCycle(Waits(0, 1), Start(3))
  {
    var g := Pointers(Start(3).waiting);
    if Reach(g, 1, 0) { ReachesOnlyItself(g, 1, 0); }
    assert Start(3).waiting[0 := 1] == [1, -1, -1];
    assert At([1, -1, -1]).next == Start(3).next;
  }

  lemma SecondWaits()
    ensures Stepped(Waits(2, 0), At([1, -1, -1]), At([1, -1, 0]))
    ensures Acyclic(Pointers([1, -1, -1])) && !FindsCycle(Waits(2, 0), At([1, -1, -1]))
  {
    OnePointer([1, -1, -1], 0, 1, 2);
    ThreeInARow([1, -1, 0], 2, 0, 1);
    FewerAcyclic(Pointers([1, -1, 0]), Pointers([1, -1, -1]));
  }

  lemma FirstCollects()
    ensures Stepped(Waits(0, 2), At([1, -1, 0]), Collecting([1, -1, -1], 2, [2]))
    ensures Acyclic(Pointers([1, -1, 0])) && Upsets(Waits(0, 2), At([1, -1, 0]))
  {
    ThreeInARow([1, -1, 0], 2, 0, 1);
    assert PathFromTo(Pointers([1, -1, 0]), [2, 0], 2, 0);
    assert [2] + [0] == [2, 0];
    assert Collected(At([1, -1, 0]), 0, 2, Collecting([1, -1, -1], 2, [2]));
  }

  lemma ThirdWaits()
    ensures Stepped(Waits(1, 2), Collecting([1, -1, -1], 2, [2]), Collecting([1, 2, -1], 2, [2]))
    ensures !FindsCycle(Waits(1, 2), Collecting([1, -1, -1], 2, [2]))
  {
    var g := Pointers([1, -1, -1]);
    if Reach(g, 2, 1) { ReachesOnlyItself(g, 2, 1); }
    assert [1, -1, -1][1 := 2] == [1, 2, -1];
  }

  lemma FirstRepoints()
    ensures Stepped(Repoints(0), Collecting([1, 2, -1], 2, [2]), Collecting([1, 2, 0], 0, []))
    ensures Acyclic(Pointers([1, 2, -1])) && !Acyclic(Pointers([1, 2, 0]))
  {
    ThreeInARow([1, 2, -1], 0, 1, 2);
    assert [1, 2, -1][2 := 0] == [1, 2, 0];
    var c := Pointers([1, 2, 0]);
    assert Edge(c, 0, 1) && PathFromTo(c, [1, 2, 0], 1, 0);
  }

  /** A run of three threads in which a thread that still waits collects a chain, and a cycle closes. */
  lemma WaitingLeaderClosesCycle()
    ensures var (es, r) := (Example(), ExampleRun());
      && r[0] == Start(3) && (forall i :: 0 <= i < 5 ==> Stepped(es[i], r[i], r[i + 1]))
      && (forall i :: 0 <= i < 5 ==> Acyclic(Pointers(r[i].waiting)) && (Upsets(es[i], r[i]) <==> i == 2))
      && !Acyclic(Pointers(r[5].waiting))
  {
    FirstWaits();
    SecondWaits();
    FirstCollects();
    ThirdWaits();
    FirstRepoints();
  }

  lemma OnePointer(waiting: seq<int>, a: nat, b: nat, c: nat)
    requires |waiting| == 3 && a < 3 && b < 3 && c < 3 && c != a && c != b && waiting[a] == b && waiting[b] == -1
    ensures !Reach(Pointers(waiting), a, c)
  {
    var g := Pointers(waiting);
    if Reach(g, a, c) {
      var w := ReachFirstStep(g, a, c);
      ReachesOnlyItself(g, b, c);
    }
  }

  lemma ThreeInARow(waiting: seq<int>, a: nat, b: nat, c: nat)
    requires |waiting| == 3 && a < 3 && b < 3 && c < 3 && a != b && b != c && a != c
    requires waiting[a] == b && waiting[b] == c && waiting[c] == -1
    ensures Acyclic(Pointers(waiting))
  {
    var g := Pointers(waiting);
    forall u, v | Edge(g, u, v)
      ensures !Reach(g, v, u)
    {
      if Reach(g, v, u) {
        if v == c {
          ReachesOnlyItself(g, c, u);
        } else {
          var w := ReachFirstStep(g, v, u);
          ReachesOnlyItself(g, c, u);
        }
      }
    }
  }
}
