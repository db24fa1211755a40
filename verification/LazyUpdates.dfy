/**
 The schedule of a lazy update: before a call is used, the tabled calls it depends on
 that have been affected by a change are listed for recomputation, dependencies first.
 */
module LazyUpdates {
  import opened Reachability

  /** The engine's records, by call number; inedges are the calls depended on. */
  datatype Calls = Calls(inedges: Graph, tabled: seq<bool>, falsecount: seq<int>, completed: seq<bool>, visited: seq<bool>)

  ghost predicate WellMade(c: Calls) {
    var n := |c.inedges|;
    WellFormed(c.inedges) && |c.tabled| == n && |c.falsecount| == n && |c.completed| == n && |c.visited| == n
  }

  /** Only tabled calls that have been affected are followed. */
  predicate Followed(c: Calls, u: nat)
    requires u < |c.tabled| && u < |c.falsecount|
  {
    c.tabled[u] && c.falsecount[u] > 0
  }

  /** The dependencies that are followed. */
  ghost function Deps(c: Calls): (g: Graph)
    requires WellMade(c)
    ensures |g| == |c.inedges|
    ensures forall u, v :: Edge(g, u, v) <==> Edge(c.inedges, u, v) && Followed(c, v)
  {
    var g := seq(|c.inedges|, u requires 0 <= u < |c.inedges| => Kept(c, c.inedges[u]));
    assert forall u :: 0 <= u < |g| ==> g[u] == Kept(c, c.inedges[u]);
    g
  }

  ghost function Kept(c: Calls, s: seq<nat>): (r: seq<nat>)
    requires WellMade(c) && forall i :: 0 <= i < |s| ==> s[i] < |c.inedges|
    ensures forall v :: v in r <==> v in s && Followed(c, v)
  {
    if s == [] then [] else (if Followed(c, s[0]) then [s[0]] else []) + Kept(c, s[1..])
  }

  /** The table of a call can be recomputed: it is complete and nobody is reading it. */
  predicate Updatable(c: Calls, u: nat)
    requires u < |c.tabled| && u < |c.completed| && u < |c.visited|
  {
    c.tabled[u] ==> c.completed[u] && !c.visited[u]
  }

  datatype Outcome = Listed | CannotUpdate | Thrown

  // ----- the call at which the search gives up -----

  function Position(s: seq<nat>, x: nat): (i: nat)
    requires x in s
    ensures i < |s| && s[i] == x && x !in s[..i]
  {
    if s[0] == x then 0 else 1 + Position(s[1..], x)
  }

  /** A way along followed dependencies that meets no call twice, through calls in `white`, to the first that cannot be updated. */
  ghost predicate WayToBad(c: Calls, v: nat, white: set<nat>, p: seq<nat>)
    requires WellMade(c)
  {
    && IsPath(Deps(c), p) && p[0] == v && Distinct(p) && (forall i :: 0 < i < |p| ==> p[i] in white)
    && (forall i :: 0 <= i < |p| - 1 ==> Updatable(c, p[i])) && !Updatable(c, p[|p| - 1])
  }

  /** Where p and q part, p takes the dependency that is listed first; or they are the same. */
  ghost predicate Sooner(c: Calls, p: seq<nat>, q: seq<nat>)
    requires WellMade(c)
    decreases |p|
  {
    && p != [] && q != [] && p[0] == q[0] && p[0] < |c.inedges|
    && if |p| == 1 || |q| == 1 then p == q
       else if p[1] == q[1] then Sooner(c, p[1..], q[1..])
       else p[1] in c.inedges[p[0]] && q[1] in c.inedges[p[0]] && Position(c.inedges[p[0]], p[1]) < Position(c.inedges[p[0]], q[1])
  }

  /** Of all such ways p is the first in the order of the dependency lists. */
  ghost predicate FirstWay(c: Calls, v: nat, white: set<nat>, p: seq<nat>)
    requires WellMade(c)
  {
    WayToBad(c, v, white, p) && forall q {:trigger WayToBad(c, v, white, q)} :: WayToBad(c, v, white, q) ==> Sooner(c, p, q)
  }

  /** The outcome is decided by the last call of the first way: an error if it is incomplete, else it is being read. */
  ghost predicate Refused(c: Calls, v: nat, white: set<nat>, r: Outcome)
    requires WellMade(c)
  {
    exists p {:trigger FirstWay(c, v, white, p)} :: FirstWay(c, v, white, p) && r == if c.completed[p[|p| - 1]] then CannotUpdate else Thrown
  }

  lemma BadEnd(c: Calls, v: nat, white: set<nat>, p: seq<nat>)
    requires WellMade(c) && WayToBad(c, v, white, p)
    ensures p[|p| - 1] < |c.inedges| && Reach(Deps(c), v, p[|p| - 1]) && !Updatable(c, p[|p| - 1])
  {
    assert PathFromTo(Deps(c), p, v, p[|p| - 1]);
  }

  lemma WayIsLonger(c: Calls, v: nat, white: set<nat>, q: seq<nat>)
    requires WellMade(c) && v < |c.inedges| && WayToBad(c, v, white, q) && Updatable(c, v)
    ensures |q| > 1 && Edge(Deps(c), v, q[1]) && q[1] in c.inedges[v] && Followed(c, q[1])
    ensures WayToBad(c, q[1], white - {v}, q[1..])
  {
    PathTail(Deps(c), q);
    forall i | 0 < i < |q[1..]|
      ensures q[1..][i] in white - {v}
    {
      assert q[1..][i] == q[i + 1] && q[i + 1] != q[0];
    }
  }

  /** The call itself cannot be updated. */
  lemma RefusedHere(c: Calls, v: nat, white: set<nat>, r: Outcome)
    requires WellMade(c) && v < |c.inedges| && !Updatable(c, v) && r == if c.completed[v] then CannotUpdate else Thrown
    ensures Refused(c, v, white, r)
  {
    var p := [v];
    forall q | WayToBad(c, v, white, q)
      ensures Sooner(c, p, q)
    {
      if |q| > 1 { assert false; }
      assert q == p;
    }
    assert FirstWay(c, v, white, p);
  }

  /** From calls that are done only calls that are done are reached, if the way avoids v. */
  lemma {:induction false} StaysDone(c: Calls, was: set<nat>, todo: set<nat>, v: nat, q: seq<nat>)
    requires WellMade(c) && ClosedFrom(Deps(c), was, todo, v) && IsPath(Deps(c), q) && q[0] !in todo
    requires forall i :: 0 <= i < |q| ==> q[i] in was && q[i] != v
    ensures q[|q| - 1] !in todo
  {
    if |q| > 1 {
      PathTail(Deps(c), q);
      assert Edge(Deps(c), q[0], q[1]);
      StaysDone(c, was, todo, v, q[1..]);
    }
  }

  /** A way to a bad call goes through calls still to do only. */
  lemma WayIsWhite(c: Calls, was: set<nat>, todo: set<nat>, v: nat, q: seq<nat>)
    requires WellMade(c) && v < |c.inedges| && Updatable(c, v) && WayToBad(c, v, was, q)
    requires ClosedFrom(Deps(c), was, todo, v) && forall u: nat :: u < |c.inedges| && u !in todo ==> Updatable(c, u)
    ensures |q| > 1 && q[1] in todo && WayToBad(c, q[1], todo, q[1..])
  {
    WayIsLonger(c, v, was, q);
    forall j | 0 < j < |q|
      ensures q[j] in todo
    {
      assert q[j] != q[0];
      if q[j] !in todo {
        PathSuffix(Deps(c), q, j);
        assert forall i :: 0 <= i < |q[j..]| ==> q[j..][i] == q[j + i] && q[j + i] != q[0];
        StaysDone(c, was, todo, v, q[j..]);
      }
    }
  }

  lemma {:induction false} PathSuffix(g: Graph, q: seq<nat>, j: nat)
    requires IsPath(g, q) && j < |q|
    ensures IsPath(g, q[j..])
  {
    if j > 0 {
      PathTail(g, q);
      PathSuffix(g, q[1..], j - 1);
      assert q[1..][j - 1..] == q[j..];
    }
  }

  lemma SoonerThanAny(c: Calls, v: nat, was: set<nat>, todo: set<nat>, i: nat, p: seq<nat>, q: seq<nat>)
    requires WellMade(c) && v < |c.inedges| && i < |c.inedges[v]| && Updatable(c, v)
    requires FollowedUpTo(c, v, i, todo) && WayToBad(c, v, was, q) && FirstWay(c, c.inedges[v][i], todo, p)
    requires ClosedFrom(Deps(c), was, todo, v) && forall u: nat :: u < |c.inedges| && u !in todo ==> Updatable(c, u)
    ensures Sooner(c, [v] + p, q)
  {
    var u, p' := c.inedges[v][i], [v] + p;
    assert p'[1..] == p && p'[1] == u;
    WayIsLonger(c, v, was, q);
    WayIsWhite(c, was, todo, v, q);
    if q[1] != u {
      assert Position(c.inedges[v], u) <= i <= Position(c.inedges[v], q[1]);
    }
  }

  lemma WayFromBefore(c: Calls, v: nat, u: nat, was: set<nat>, todo: set<nat>, p: seq<nat>)
    requires WellMade(c) && v < |c.inedges| && Updatable(c, v) && v !in todo && u in todo && todo <= was && Edge(Deps(c), v, u) && WayToBad(c, u, todo, p)
    ensures WayToBad(c, v, was, [v] + p)
  {
    PathCons(Deps(c), v, p);
    assert forall k :: 0 <= k < |p| ==> p[k] in todo;
  }

  /** The i-th dependency of v is the first from which the search gives up. */
  lemma RefusedThere(c: Calls, v: nat, was: set<nat>, todo: set<nat>, i: nat, r: Outcome)
    requires WellMade(c) && v < |c.inedges| && i < |c.inedges[v]| && Updatable(c, v) && Followed(c, c.inedges[v][i])
    requires v !in todo && c.inedges[v][i] in todo && todo <= was && FollowedUpTo(c, v, i, todo)
    requires ClosedFrom(Deps(c), was, todo, v) && forall u: nat :: u < |c.inedges| && u !in todo ==> Updatable(c, u)
    requires Refused(c, c.inedges[v][i], todo, r)
    ensures Refused(c, v, was, r)
  {
    var u := c.inedges[v][i];
    var p :| FirstWay(c, u, todo, p) && r == if c.completed[p[|p| - 1]] then CannotUpdate else Thrown;
    var p' := [v] + p;
    assert Edge(Deps(c), v, u);
    WayFromBefore(c, v, u, was, todo, p);
    forall q | WayToBad(c, v, was, q)
      ensures Sooner(c, p', q)
    {
      SoonerThanAny(c, v, was, todo, i, p, q);
    }
    assert FirstWay(c, v, was, p') && p'[|p'| - 1] == p[|p| - 1];
  }

  lemma {:induction false} SoonerBoth(c: Calls, p: seq<nat>, q: seq<nat>)
    requires WellMade(c) && Sooner(c, p, q) && Sooner(c, q, p)
    ensures p == q
  {
    if |p| > 1 && |q| > 1 {
      if p[1] == q[1] { SoonerBoth(c, p[1..], q[1..]); }
      assert p == [p[0]] + p[1..] && q == [q[0]] + q[1..];
    }
  }

  /** There is at most one first way. */
  lemma RefusedOnce(c: Calls, v: nat, white: set<nat>, r: Outcome, o: Outcome)
    requires WellMade(c) && Refused(c, v, white, r) && Refused(c, v, white, o)
    ensures r == o && exists u :: Reach(Deps(c), v, u) && !Updatable(c, u)
  {
    var p :| FirstWay(c, v, white, p) && r == if c.completed[p[|p| - 1]] then CannotUpdate else Thrown;
    var q :| FirstWay(c, v, white, q) && o == if c.completed[q[|q| - 1]] then CannotUpdate else Thrown;
    assert WayToBad(c, v, white, p) && WayToBad(c, v, white, q);
    SoonerBoth(c, p, q);
    BadEnd(c, v, white, p);
  }

  lemma RefusedBy(c: Calls, v: nat, white: set<nat>, r: Outcome)
    requires WellMade(c) && Refused(c, v, white, r)
    ensures r == Thrown ==> exists u: nat :: Reach(Deps(c), v, u) && u < |c.tabled| && c.tabled[u] && !c.completed[u]
    ensures r == CannotUpdate ==> exists u: nat :: Reach(Deps(c), v, u) && u < |c.tabled| && c.tabled[u] && c.completed[u] && c.visited[u]
  {
    var p :| FirstWay(c, v, white, p) && r == if c.completed[p[|p| - 1]] then CannotUpdate else Thrown;
    BadEnd(c, v, white, p);
  }

  // ----- what the search keeps -----

  ghost predicate Distinct(s: seq<nat>) {
    forall i, j :: 0 <= i < j < |s| ==> s[i] != s[j]
  }

  /** Later pushes, nearer the head, depend on earlier ones only. */
  ghost predicate Ordered(g: Graph, list: seq<nat>) {
    forall i, w {:trigger Edge(g, list[i], w)} :: 0 <= i < |list| && Edge(g, list[i], w) ==> w in list[i + 1..]
  }

  /** Nothing that root depends on depends on itself. */
  ghost predicate AcyclicFrom(g: Graph, root: nat) {
    forall u, v {:trigger Edge(g, u, v)} :: Reach(g, root, u) && Edge(g, u, v) ==> !Reach(g, v, u)
  }

  /** What has been reached is listed, or on the way from the root to the current call v. */
  ghost predicate OnTheWay(g: Graph, todo: set<nat>, list: seq<nat>, way: set<nat>, v: nat) {
    && (forall u :: u in way ==> Reach(g, u, v))
    && (forall u: nat :: u < |g| && u !in todo ==> u in list || u in way)
  }

  ghost predicate ClosedFrom(g: Graph, was: set<nat>, todo: set<nat>, except: nat) {
    forall u, w {:trigger Edge(g, u, w)} :: u in was && u !in todo && u != except && Edge(g, u, w) ==> w !in todo
  }

  /**
   Since `was` was to do and `before` listed: what has been reached from v can be updated,
   has its dependencies reached, and is listed if tabled; all but call `except`.
   */
  ghost predicate Searched(c: Calls, v: nat, was: set<nat>, todo: set<nat>, before: seq<nat>, list: seq<nat>, except: nat)
    requires WellMade(c) && forall u :: u in was ==> u < |c.inedges|
  {
    && todo <= was
    && (forall u :: u in was && u !in todo ==> Reach(Deps(c), v, u) && Updatable(c, u))
    && ClosedFrom(Deps(c), was, todo, except)
    && (forall u :: u in list <==> u in before || (u in was && u !in todo && u != except && c.tabled[u]))
  }

  /** Following one more dependency. */
  lemma SearchedMore(c: Calls, v: nat, u: nat, was: set<nat>, mid: set<nat>, todo: set<nat>, before: seq<nat>, listed: seq<nat>, list: seq<nat>)
    requires WellMade(c) && (forall x :: x in was ==> x < |c.inedges|) && v !in mid && Edge(Deps(c), v, u)
    requires Searched(c, v, was, mid, before, listed, v) && Searched(c, u, mid, todo, listed, list, |c.inedges|)
    ensures Searched(c, v, was, todo, before, list, v)
  {
    ReachEdge(Deps(c), v, u);
    forall x | x in was && x !in todo
      ensures Reach(Deps(c), v, x) && Updatable(c, x)
    {
      if x in mid { ReachTrans(Deps(c), v, u, x); }
    }
  }

  /** All dependencies of v have been followed. */
  lemma SearchedAll(c: Calls, v: nat, was: set<nat>, todo: set<nat>, before: seq<nat>, list: seq<nat>, list': seq<nat>)
    requires WellMade(c) && (forall x :: x in was ==> x < |c.inedges|) && v in was && v !in todo
    requires Searched(c, v, was, todo, before, list, v) && forall w :: Edge(Deps(c), v, w) ==> w !in todo
    requires list' == if c.tabled[v] then [v] + list else list
    ensures Searched(c, v, was, todo, before, list', |c.inedges|)
  {
  }

  class Search {
    const c: Calls
    /** The calls whose dependencies have yet to be computed. */
    var todo: set<nat>
    /** The calls to be recomputed, the last one listed first. */
    var list: seq<nat>

    constructor (c: Calls, todo: set<nat>)
      ensures this.c == c && this.todo == todo && list == []
    {
      this.c, this.todo, this.list := c, todo, [];
    }

    ghost predicate Proper()
      reads this
    {
      && WellMade(c) && Distinct(list) && (forall u :: u in list ==> u !in todo) && (forall u :: u in todo ==> u < |c.inedges|)
      && forall u: nat :: u < |c.inedges| && u !in todo ==> Updatable(c, u)
    }

    /** Lists v after what it depends on; `way` are the calls whose dependencies are being followed. */
    method DfsInedges(v: nat, ghost root: nat, ghost way: set<nat>) returns (r: Outcome)
      requires Proper() && v < |c.inedges| && Reach(Deps(c), root, v) && OnTheWay(Deps(c), todo, list, way, v)
      requires AcyclicFrom(Deps(c), root) ==> Ordered(Deps(c), list)
      modifies this`todo, this`list
      ensures Proper() && todo <= old(todo)
      ensures r == Listed ==> Updatable(c, v) && v !in todo && Searched(c, v, old(todo), todo, old(list), list, |c.inedges|)
      ensures r == Listed ==> forall u: nat :: u < |c.inedges| && u !in todo ==> u in list || u in way || (u == v && !c.tabled[v])
      ensures r == Listed && AcyclicFrom(Deps(c), root) ==> Ordered(Deps(c), list)
      ensures r != Listed ==> list == [] && v in old(todo) && Refused(c, v, old(todo), r)
      decreases |todo|, 1
    {
      ReachRefl(Deps(c), v);
      if !Updatable(c, v) { RefusedHere(c, v, todo, if c.completed[v] then CannotUpdate else Thrown); }
      if c.tabled[v] {
        if !c.completed[v] {
          list := [];
          return Thrown;
        }
        if c.visited[v] {
          list := [];
          return CannotUpdate;
        }
      }
      if v !in todo { return Listed; }
      ghost var was, before := todo, list;
      todo := todo - {v};
      r := FollowInedges(v, root, way + {v}, was);
      if r == Listed {
        SearchedAll(c, v, was, todo, before, list, if c.tabled[v] then [v] + list else list);
        if c.tabled[v] {
          if AcyclicFrom(Deps(c), root) { PushedAfter(c, root, todo, list, way + {v}, v); }
          list := [v] + list;
        }
      }
    }

    /** Follows the affected tabled calls among the dependencies of v. */
    method FollowInedges(v: nat, ghost root: nat, ghost way: set<nat>, ghost was: set<nat>) returns (r: Outcome)
      requires Proper() && v < |c.inedges| && OnTheWay(Deps(c), todo, list, way, v) && Updatable(c, v)
      requires Reach(Deps(c), root, v)
      requires v in was && todo == was - {v} && v !in list && forall u :: u in was ==> u < |c.inedges|
      requires AcyclicFrom(Deps(c), root) ==> Ordered(Deps(c), list)
      modifies this`todo, this`list
      ensures Proper() && todo <= old(todo)
      ensures r == Listed ==> Searched(c, v, was, todo, old(list), list, v) && forall w :: Edge(Deps(c), v, w) ==> w !in todo
      ensures r == Listed ==> OnTheWay(Deps(c), todo, list, way, v) && v !in list
      ensures r == Listed && AcyclicFrom(Deps(c), root) ==> Ordered(Deps(c), list)
      ensures r != Listed ==> list == [] && Refused(c, v, was, r)
      decreases |todo| + 1, 0
    {
      r := Listed;
      ReachRefl(Deps(c), v);
      ghost var before := list;
      var i := 0;
      while i < |c.inedges[v]| && r == Listed
        invariant 0 <= i <= |c.inedges[v]| && Proper() && todo <= old(todo)
        invariant r == Listed ==> Searched(c, v, was, todo, before, list, v) && OnTheWay(Deps(c), todo, list, way, v) && v !in list
        invariant r == Listed ==> FollowedUpTo(c, v, i, todo)
        invariant r == Listed && AcyclicFrom(Deps(c), root) ==> Ordered(Deps(c), list)
        invariant r != Listed ==> list == [] && Refused(c, v, was, r)
        decreases |c.inedges[v]| - i
      {
        var u := c.inedges[v][i];
        ghost var earlier := todo;
        if c.tabled[u] && c.falsecount[u] > 0 {
          assert Edge(Deps(c), v, u);
          ReachEdge(Deps(c), v, u);
          Smaller(todo, old(todo));
          Onward(Deps(c), way, v, u);
          ghost var mid, listed := todo, list;
          ReachTrans(Deps(c), root, v, u);
          r := DfsInedges(u, root, way);
          if r == Listed { SearchedMore(c, v, u, was, mid, todo, before, listed, list); } else { RefusedThere(c, v, was, mid, i, r); }
        }
        if r == Listed { FollowedNext(c, v, i, earlier, todo); }
        i := i + 1;
      }
      if r == Listed { FollowedAll(c, v, i, todo); }
    }
  }

  /** The first n dependencies of v have been dealt with. */
  ghost predicate FollowedUpTo(c: Calls, v: nat, n: nat, todo: set<nat>)
    requires WellMade(c) && v < |c.inedges| && n <= |c.inedges[v]|
  {
    forall k :: 0 <= k < n && Followed(c, c.inedges[v][k]) ==> c.inedges[v][k] !in todo
  }

  lemma FollowedNext(c: Calls, v: nat, n: nat, todo: set<nat>, todo': set<nat>)
    requires WellMade(c) && v < |c.inedges| && n < |c.inedges[v]| && FollowedUpTo(c, v, n, todo) && todo' <= todo
    requires Followed(c, c.inedges[v][n]) ==> c.inedges[v][n] !in todo'
    ensures FollowedUpTo(c, v, n + 1, todo')
  {
  }

  lemma FollowedAll(c: Calls, v: nat, n: nat, todo: set<nat>)
    requires WellMade(c) && v < |c.inedges| && n == |c.inedges[v]| && FollowedUpTo(c, v, n, todo)
    ensures forall w :: Edge(Deps(c), v, w) ==> w !in todo
  {
  }

  lemma Smaller(a: set<nat>, b: set<nat>)
    requires a <= b
    ensures |a| <= |b|
  {
    assert b == a + (b - a);
  }

  lemma Onward(g: Graph, way: set<nat>, v: nat, u: nat)
    requires Edge(g, v, u) && forall x :: x in way ==> Reach(g, x, v)
    ensures forall x :: x in way ==> Reach(g, x, u)
  {
    ReachEdge(g, v, u);
    forall x | x in way
      ensures Reach(g, x, u)
    {
      ReachTrans(g, x, v, u);
    }
  }

  /** Where nothing depends on itself, what v depends on has been listed, for it cannot be on the way to v. */
  lemma PushedAfter(c: Calls, root: nat, todo: set<nat>, list: seq<nat>, way: set<nat>, v: nat)
    requires WellMade(c) && Reach(Deps(c), root, v) && AcyclicFrom(Deps(c), root) && Ordered(Deps(c), list) && OnTheWay(Deps(c), todo, list, way, v)
    requires forall w :: Edge(Deps(c), v, w) ==> w !in todo
    ensures Ordered(Deps(c), [v] + list)
  {
    var g, list' := Deps(c), [v] + list;
    forall i, w | 0 <= i < |list'| && Edge(g, list'[i], w)
      ensures w in list'[i + 1..]
    {
      if i == 0 {
        assert w in list;
        assert list'[1..] == list;
      } else {
        assert Edge(g, list[i - 1], w) && list'[i + 1..] == list[i..];
      }
    }
  }

  /** In an ordered list what a call reaches comes later. */
  lemma {:induction false} ReachedLater(g: Graph, list: seq<nat>, i: nat, p: seq<nat>) returns (j: nat)
    requires Ordered(g, list) && i < |list| && IsPath(g, p) && p[0] == list[i]
    ensures i <= j < |list| && list[j] == p[|p| - 1]
    decreases |p|
  {
    if |p| == 1 {
      j := i;
    } else {
      PathTail(g, p);
      var k := NextLater(g, list, i, p[1]);
      j := ReachedLater(g, list, k, p[1..]);
    }
  }

  lemma NextLater(g: Graph, list: seq<nat>, i: nat, w: nat) returns (k: nat)
    requires Ordered(g, list) && i < |list| && Edge(g, list[i], w)
    ensures i < k < |list| && list[k] == w
  {
    assert Edge(g, list[i], w);
    var l :| 0 <= l < |list[i + 1..]| && list[i + 1..][l] == w;
    k := i + 1 + l;
  }

  /** A list of all that the root reaches over an edge can only be ordered if nothing there depends on itself. */
  lemma OrderedIsAcyclic(g: Graph, list: seq<nat>, root: nat)
    requires Ordered(g, list) && Distinct(list) && forall u, v :: Reach(g, root, u) && Edge(g, u, v) ==> v in list
    ensures AcyclicFrom(g, root)
  {
    forall u, v | Reach(g, root, u) && Edge(g, u, v)
      ensures !Reach(g, v, u)
    {
      if Reach(g, v, u) {
        var p :| PathFromTo(g, p, v, u);
        var i: nat :| i < |list| && list[i] == v;
        var j := ReachedLater(g, list, i, p);
        var k := NextLater(g, list, j, v);
      }
    }
  }

  /**
   With all flags fresh the schedule is the calls the root depends on, each once, and the root;
   dependencies come first exactly if none of these calls depends on itself.
   */
  method Schedule(c: Calls, root: nat) returns (r: Outcome, list: seq<nat>)
    requires WellMade(c) && root < |c.inedges|
    ensures r == Listed <==> forall u :: Reach(Deps(c), root, u) ==> Updatable(c, u)
    ensures r == Listed ==> Distinct(list) && forall u: nat :: u in list <==> Reach(Deps(c), root, u) && u < |c.tabled| && c.tabled[u]
    ensures r == Listed ==> (Ordered(Deps(c), list) <==> AcyclicFrom(Deps(c), root))
    ensures r == Listed ==> forall u: nat :: u in list ==> u < |c.tabled| && c.tabled[u] && c.completed[u] && !c.visited[u]
    ensures r == Listed ==> forall u: nat :: u in list ==> u == root || c.falsecount[u] > 0
    ensures r == Listed ==> forall u: nat, w :: u in list && w in c.inedges[u] && c.tabled[w] && c.falsecount[w] > 0 ==> w in list
    ensures r != Listed ==> list == []
    ensures r == Thrown ==> exists u: nat :: Reach(Deps(c), root, u) && u < |c.tabled| && c.tabled[u] && !c.completed[u]
    ensures r == CannotUpdate ==> exists u: nat :: Reach(Deps(c), root, u) && u < |c.tabled| && c.tabled[u] && c.completed[u] && c.visited[u]
    ensures forall o {:trigger Refused(c, root, Upto(|c.inedges|), o)} :: Refused(c, root, Upto(|c.inedges|), o) <==> o == r && r != Listed
  {
    var s := new Search(c, Upto(|c.inedges|));
    ReachRefl(Deps(c), root);
    r := s.DfsInedges(root, root, {});
    list := s.list;
    if r == Listed {
      AllReached(c, root, s.todo);
      ListedDirectly(c, root, list);
      if Ordered(Deps(c), list) { OrderedIsAcyclic(Deps(c), list, root); }
    }
    if r != Listed { RefusedBy(c, root, Upto(|c.inedges|), r); }
    forall o | Refused(c, root, Upto(|c.inedges|), o)
      ensures o == r && exists u :: Reach(Deps(c), root, u) && !Updatable(c, u)
    {
      RefusedOnce(c, root, Upto(|c.inedges|), if r == Listed then o else r, o);
    }
  }

  /** Apart from the root only affected tabled calls are listed, and all of those that a listed call depends on. */
  lemma ListedDirectly(c: Calls, root: nat, list: seq<nat>)
    requires WellMade(c) && root < |c.inedges| && forall u: nat :: u in list <==> Reach(Deps(c), root, u) && u < |c.tabled| && c.tabled[u]
    ensures forall u: nat :: u in list ==> u == root || c.falsecount[u] > 0
    ensures forall u: nat, w :: u in list && w in c.inedges[u] && c.tabled[w] && c.falsecount[w] > 0 ==> w in list
  {
    forall u: nat | u in list && u != root
      ensures c.falsecount[u] > 0
    {
      var x := ReachLastStep(Deps(c), root, u);
    }
    forall u: nat, w | u in list && w in c.inedges[u] && c.tabled[w] && c.falsecount[w] > 0
      ensures w in list
    {
      assert Edge(Deps(c), u, w);
      ReachEdge(Deps(c), u, w);
      ReachTrans(Deps(c), root, u, w);
    }
  }

  function Upto(n: nat): (s: set<nat>)
    ensures forall u: nat :: u in s <==> u < n
  {
    if n == 0 then {} else Upto(n - 1) + {n - 1}
  }

  lemma AllReached(c: Calls, root: nat, todo: set<nat>)
    requires WellMade(c) && root < |c.inedges| && root !in todo
    requires ClosedFrom(Deps(c), Upto(|c.inedges|), todo, |c.inedges|)
    ensures forall u :: Reach(Deps(c), root, u) ==> u in Upto(|c.inedges|) && u !in todo
  {
    var s := Upto(|c.inedges|) - todo;
    forall u, w | u in s && Edge(Deps(c), u, w)
      ensures w in s
    {
    }
    forall u | Reach(Deps(c), root, u)
      ensures u in s
    {
      ClosedUnderReach(Deps(c), s, root, u);
    }
  }
}
