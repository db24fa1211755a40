/**
 The dependency lists of concurrent completion. A thread lists, for each other
 thread it depends on, the oldest subgoal of that thread it depends on; the lists of
 blocked threads are folded in until nothing changes. Completion stacks grow downward,
 so of two subgoals of one thread the one with the larger stack pointer is the older.
 */
module ThreadDeps {
  const MAX_THREAD_DEPS := 256

  datatype Subgoal = Subgoal(id: nat, tid: int, ptr: int)

  datatype Dep = Dep(subgoal: Subgoal, last: int)

  /** What the threads share about one of them. */
  datatype Context = Context(completing: bool, completed: bool, lastAns: int, ccLeader: int,
                             tdl: seq<Dep>, stack: seq<Subgoal>)

  /** The other threads' state while one thread holds the completion mutex. */
  datatype Env = Env(self: int, ctx: map<int, Context>, done: set<Subgoal>)

  // ----- lists -----

  predicate AsOld(d: Subgoal, g: Subgoal) {
    d.tid == g.tid && d.ptr >= g.ptr
  }

  /** The list has the subgoal's thread with a subgoal at least as old. */
  ghost predicate Covers(l: seq<Dep>, g: Subgoal) {
    exists i :: 0 <= i < |l| && AsOld(l[i].subgoal, g)
  }

  ghost predicate Lists(l: seq<Dep>, t: int) {
    exists i :: 0 <= i < |l| && l[i].subgoal.tid == t
  }

  ghost predicate OnePerThread(l: seq<Dep>) {
    forall i, j :: 0 <= i < j < |l| ==> l[i].subgoal.tid != l[j].subgoal.tid
  }

  /** Every dependency of l is one of m, on a subgoal at least as old. */
  ghost predicate Within(l: seq<Dep>, m: seq<Dep>) {
    forall i :: 0 <= i < |l| ==> Covers(m, l[i].subgoal)
  }

  ghost function Tids(l: seq<Dep>): set<int> {
    set i | 0 <= i < |l| :: l[i].subgoal.tid
  }

  lemma {:induction false} TidsAtMost(l: seq<Dep>)
    ensures |Tids(l)| <= |l|
    ensures OnePerThread(l) ==> |Tids(l)| == |l|
  {
    if l == [] {
      assert Tids(l) == {};
    } else {
      var init, d := l[..|l| - 1], l[|l| - 1];
      TidsAtMost(init);
      assert l == init + [d];
      assert Tids(l) == Tids(init) + {d.subgoal.tid};
    }
  }

  lemma WithinLonger(l: seq<Dep>, m: seq<Dep>)
    requires OnePerThread(l) && forall i :: 0 <= i < |l| ==> Lists(m, l[i].subgoal.tid)
    ensures |l| <= |m|
  {
    TidsAtMost(l);
    TidsAtMost(m);
    forall t | t in Tids(l)
      ensures t in Tids(m)
    {
      var i :| 0 <= i < |l| && l[i].subgoal.tid == t;
      assert Lists(m, l[i].subgoal.tid);
    }
    Subset(Tids(l), Tids(m));
  }

  lemma Subset(a: set<int>, b: set<int>)
    requires a <= b
    ensures |a| <= |b|
  {
    assert b == a + (b - a);
  }

  lemma SameEntry(l: seq<Dep>, i: int, j: int)
    requires OnePerThread(l) && 0 <= i < |l| && 0 <= j < |l| && l[i].subgoal.tid == l[j].subgoal.tid
    ensures i == j
  {
  }

  lemma CoversWithin(l: seq<Dep>, m: seq<Dep>, g: Subgoal)
    requires Covers(l, g) && Within(l, m)
    ensures Covers(m, g)
  {
    var i :| 0 <= i < |l| && AsOld(l[i].subgoal, g);
    assert Covers(m, l[i].subgoal);
    var j :| 0 <= j < |m| && AsOld(m[j].subgoal, l[i].subgoal);
    assert AsOld(m[j].subgoal, g);
  }

  // ----- inserting -----

  method FindTid(l: seq<Dep>, t: int) returns (k: int)
    ensures k == -1 <==> !Lists(l, t)
    ensures k != -1 ==> 0 <= k < |l| && l[k].subgoal.tid == t
  {
    k := 0;
    while k < |l|
      invariant 0 <= k <= |l| && forall i :: 0 <= i < k ==> l[i].subgoal.tid != t
    {
      if l[k].subgoal.tid == t { return; }
      k := k + 1;
    }
    k := -1;
  }

  /** The list after g went in: unchanged, an older subgoal for its thread, or one entry more. */
  ghost predicate Inserted(l: seq<Dep>, g: Subgoal, l': seq<Dep>) {
    if Lists(l, g.tid) then
      |l'| == |l| && forall i :: 0 <= i < |l| ==>
        l'[i] == if l[i].subgoal.tid == g.tid && g.ptr > l[i].subgoal.ptr then l[i].(subgoal := g) else l[i]
    else
      |l'| == |l| + 1 && l'[..|l|] == l && l'[|l|].subgoal == g
  }

  /** Reports whether the list changed; gives up on the 256th thread. The new entry's number is not set. */
  method CheckInsSubg(l: seq<Dep>, g: Subgoal) returns (l': seq<Dep>, changed: bool, aborted: bool)
    requires OnePerThread(l)
    ensures aborted <==> !Lists(l, g.tid) && |l| == MAX_THREAD_DEPS - 1
    ensures !aborted ==> Inserted(l, g, l') && (changed <==> !Covers(l, g))
  {
    l', changed, aborted := l, false, false;
    var i := 0;
    while i < |l|
      invariant 0 <= i <= |l| && forall j :: 0 <= j < i ==> l[j].subgoal.tid != g.tid
    {
      if l[i].subgoal.tid == g.tid {
        if g.ptr > l[i].subgoal.ptr {
          l' := l[i := l[i].(subgoal := g)];
          changed := true;
        }
        return;
      }
      i := i + 1;
    }
    if |l| == MAX_THREAD_DEPS - 1 {
      aborted := true;
      return;
    }
    var unset: int := *;
    l' := l + [Dep(g, unset)];
    changed := true;
  }

  /** Inserting adds exactly what g stands for. */
  lemma InsertedCovers(l: seq<Dep>, g: Subgoal, l': seq<Dep>, h: Subgoal)
    requires OnePerThread(l) && Inserted(l, g, l')
    ensures Covers(l', h) <==> Covers(l, h) || AsOld(g, h)
  {
    if Lists(l, g.tid) {
      var k :| 0 <= k < |l| && l[k].subgoal.tid == g.tid;
      assert AsOld(l'[k].subgoal, g);
      if AsOld(g, h) { assert AsOld(l'[k].subgoal, h); }
      if Covers(l, h) {
        var i :| 0 <= i < |l| && AsOld(l[i].subgoal, h);
        assert AsOld(l'[i].subgoal, h);
      }
      if Covers(l', h) {
        var i :| 0 <= i < |l'| && AsOld(l'[i].subgoal, h);
        if l'[i] == l[i] { assert Covers(l, h); }
      }
    } else {
      assert forall i :: 0 <= i < |l| ==> l'[i] == l[i];
      if AsOld(g, h) { assert AsOld(l'[|l|].subgoal, h); }
      if Covers(l, h) {
        var i :| 0 <= i < |l| && AsOld(l[i].subgoal, h);
        assert AsOld(l'[i].subgoal, h);
      }
    }
  }

  lemma InsertedKeeps(l: seq<Dep>, g: Subgoal, l': seq<Dep>)
    requires OnePerThread(l) && Inserted(l, g, l')
    ensures OnePerThread(l') && Within(l, l') && Covers(l', g)
    ensures Covers(l, g) ==> l' == l
    ensures forall i :: 0 <= i < |l'| ==> (i < |l| && l'[i].subgoal == l[i].subgoal) || l'[i].subgoal == g
    ensures forall t :: Lists(l', t) <==> Lists(l, t) || t == g.tid
  {
    InsertedCovers(l, g, l', g);
    forall i | 0 <= i < |l|
      ensures Covers(l', l[i].subgoal)
    {
      InsertedCovers(l, g, l', l[i].subgoal);
      assert AsOld(l[i].subgoal, l[i].subgoal);
    }
    InsertedListed(l, g, l');
  }

  lemma InsertedListed(l: seq<Dep>, g: Subgoal, l': seq<Dep>)
    requires OnePerThread(l) && Inserted(l, g, l')
    ensures forall t :: Lists(l', t) <==> Lists(l, t) || t == g.tid
    ensures Covers(l, g) ==> l' == l
  {
    assert forall i :: 0 <= i < |l| ==> l'[i].subgoal.tid == l[i].subgoal.tid;
    forall t
      ensures Lists(l', t) <==> Lists(l, t) || t == g.tid
    {
      if Lists(l, t) {
        var i :| 0 <= i < |l| && l[i].subgoal.tid == t;
        assert l'[i].subgoal.tid == t;
      } else if t == g.tid {
        assert l'[|l|].subgoal.tid == t;
      }
    }
    if Covers(l, g) {
      var k :| 0 <= k < |l| && AsOld(l[k].subgoal, g);
      forall i | 0 <= i < |l|
        ensures l'[i] == l[i]
      {
        if i < k { assert l[i].subgoal.tid != l[k].subgoal.tid; }
        if k < i { assert l[k].subgoal.tid != l[i].subgoal.tid; }
      }
    }
  }

  // ----- what the fixpoint is -----

  /** Blocked thread u lists the subgoal g, which is not completed. */
  ghost predicate Feeds(env: Env, u: int, g: Subgoal) {
    && u in env.ctx && env.ctx[u].completing && g !in env.done
    && exists i :: 0 <= i < |env.ctx[u].tdl| && env.ctx[u].tdl[i].subgoal == g
  }

  /** Nothing more follows from the lists of the blocked threads on l. */
  ghost predicate Closed(env: Env, l: seq<Dep>) {
    forall u, g {:trigger Feeds(env, u, g)} :: Lists(l, u) && Feeds(env, u, g) && g.tid != env.self ==> Covers(l, g)
  }

  /** l is within every closed list that l0 is within. */
  ghost predicate Least(env: Env, l0: seq<Dep>, l: seq<Dep>) {
    forall m {:trigger Closed(env, m)} :: Closed(env, m) && Within(l0, m) ==> Within(l, m)
  }

  /** g was on the first list, or some thread on l feeds it. */
  ghost predicate Seen(env: Env, l0: seq<Dep>, l: seq<Dep>, g: Subgoal) {
    || (exists i :: 0 <= i < |l0| && l0[i].subgoal == g)
    || (exists u :: Lists(l, u) && Feeds(env, u, g))
  }

  /** The context of another thread exists. */
  ghost predicate Foreign(env: Env, g: Subgoal) {
    g.tid != env.self && g.tid in env.ctx
  }

  ghost predicate WellListed(env: Env, l0: seq<Dep>) {
    && (forall i :: 0 <= i < |l0| ==> Foreign(env, l0[i].subgoal))
    && (forall u, g {:trigger Feeds(env, u, g)} :: Feeds(env, u, g) ==> g.tid in env.ctx)
  }

  /** A list on the way from l0 to the fixpoint. */
  ghost predicate Growing(env: Env, l0: seq<Dep>, l: seq<Dep>) {
    && OnePerThread(l) && |l| < MAX_THREAD_DEPS && Least(env, l0, l)
    && (forall i :: 0 <= i < |l| ==> Foreign(env, l[i].subgoal))
    && (forall i {:trigger Seen(env, l0, l, l[i].subgoal)} :: 0 <= i < |l| ==> Seen(env, l0, l, l[i].subgoal))
  }

  /** Too many threads for any list: every closed list above l0 has more than 255 entries. */
  ghost predicate TooMany(env: Env, l0: seq<Dep>) {
    forall m {:trigger Closed(env, m)} :: Closed(env, m) && Within(l0, m) ==> |m| >= MAX_THREAD_DEPS
  }

  lemma LeastInsert(env: Env, l0: seq<Dep>, l: seq<Dep>, g: Subgoal, l': seq<Dep>)
    requires OnePerThread(l) && Least(env, l0, l) && Seen(env, l0, l, g) && g.tid != env.self && Inserted(l, g, l')
    ensures Least(env, l0, l')
  {
    InsertedKeeps(l, g, l');
    forall m | Closed(env, m) && Within(l0, m)
      ensures Within(l', m)
    {
      SeenCovered(env, l0, l, g, m);
    }
  }

  lemma SeenCovered(env: Env, l0: seq<Dep>, l: seq<Dep>, g: Subgoal, m: seq<Dep>)
    requires Seen(env, l0, l, g) && g.tid != env.self && Within(l, m) && Within(l0, m) && Closed(env, m)
    ensures Covers(m, g)
  {
    if !exists i :: 0 <= i < |l0| && l0[i].subgoal == g {
      var u :| Lists(l, u) && Feeds(env, u, g);
      var j :| 0 <= j < |l| && l[j].subgoal.tid == u;
      assert Covers(m, l[j].subgoal);
      assert Lists(m, u);
    }
  }

  lemma SeenLater(env: Env, l0: seq<Dep>, l: seq<Dep>, l': seq<Dep>, g: Subgoal)
    requires Seen(env, l0, l, g) && forall t :: Lists(l, t) ==> Lists(l', t)
    ensures Seen(env, l0, l', g)
  {
  }

  lemma GrowingInsert(env: Env, l0: seq<Dep>, l: seq<Dep>, g: Subgoal, l': seq<Dep>)
    requires Growing(env, l0, l) && Seen(env, l0, l, g) && Foreign(env, g) && Inserted(l, g, l')
    requires Lists(l, g.tid) || |l| < MAX_THREAD_DEPS - 1
    ensures Growing(env, l0, l')
  {
    InsertedKeeps(l, g, l');
    LeastInsert(env, l0, l, g, l');
    forall i | 0 <= i < |l'|
      ensures Foreign(env, l'[i].subgoal) && Seen(env, l0, l', l'[i].subgoal)
    {
      if l'[i].subgoal != g { assert Seen(env, l0, l, l[i].subgoal); }
      SeenLater(env, l0, l, l', l'[i].subgoal);
    }
  }

  lemma InsertFails(env: Env, l0: seq<Dep>, l: seq<Dep>, g: Subgoal)
    requires Growing(env, l0, l) && Seen(env, l0, l, g) && Foreign(env, g)
    requires !Lists(l, g.tid) && |l| == MAX_THREAD_DEPS - 1
    ensures TooMany(env, l0)
  {
    var l' := l + [Dep(g, 0)];
    assert l'[..|l|] == l;
    InsertedKeeps(l, g, l');
    LeastInsert(env, l0, l, g, l');
    forall m | Closed(env, m) && Within(l0, m)
      ensures |m| >= MAX_THREAD_DEPS
    {
      forall i | 0 <= i < |l'|
        ensures Lists(m, l'[i].subgoal.tid)
      {
        assert Covers(m, l'[i].subgoal);
      }
      WithinLonger(l', m);
    }
  }

  // ----- progress -----

  ghost function Universe(env: Env, l0: seq<Dep>): set<Subgoal> {
    (set i | 0 <= i < |l0| :: l0[i].subgoal)
    + (set u, i | u in env.ctx && 0 <= i < |env.ctx[u].tdl| :: env.ctx[u].tdl[i].subgoal)
  }

  ghost function Missing(env: Env, l0: seq<Dep>, l: seq<Dep>): set<Subgoal> {
    set g | g in Universe(env, l0) && !Covers(l, g)
  }

  lemma MissingInsert(env: Env, l0: seq<Dep>, l: seq<Dep>, g: Subgoal, l': seq<Dep>)
    requires OnePerThread(l) && Inserted(l, g, l') && Seen(env, l0, l, g)
    ensures Missing(env, l0, l') <= Missing(env, l0, l)
    ensures !Covers(l, g) ==> Missing(env, l0, l') < Missing(env, l0, l)
  {
    forall h | h in Missing(env, l0, l')
      ensures h in Missing(env, l0, l)
    {
      InsertedCovers(l, g, l', h);
    }
    InsertedCovers(l, g, l', g);
    assert g in Universe(env, l0) by {
      if !exists i :: 0 <= i < |l0| && l0[i].subgoal == g {
        var u :| Lists(l, u) && Feeds(env, u, g);
      }
    }
    if !Covers(l, g) {
      assert g in Missing(env, l0, l) && g !in Missing(env, l0, l');
    }
  }

  /** Entries stay where they are, and keep their recorded number. */
  ghost predicate SameLasts(l: seq<Dep>, l': seq<Dep>) {
    |l| <= |l'| && forall i :: 0 <= i < |l| ==> l'[i].last == l[i].last && l'[i].subgoal.tid == l[i].subgoal.tid
  }

  /** From l to l', with `grew` saying whether anything was added. */
  ghost predicate Advances(env: Env, l0: seq<Dep>, l: seq<Dep>, l': seq<Dep>, grew: bool) {
    && Within(l, l') && SameLasts(l, l')
    && Missing(env, l0, l') <= Missing(env, l0, l)
    && (if grew then Missing(env, l0, l') < Missing(env, l0, l) else l' == l)
  }

  lemma AdvancesNot(env: Env, l0: seq<Dep>, l: seq<Dep>)
    ensures Advances(env, l0, l, l, false)
  {
    forall i | 0 <= i < |l|
      ensures Covers(l, l[i].subgoal)
    {
      assert AsOld(l[i].subgoal, l[i].subgoal);
    }
  }

  lemma AdvancesInsert(env: Env, l0: seq<Dep>, l: seq<Dep>, g: Subgoal, l': seq<Dep>)
    requires OnePerThread(l) && Seen(env, l0, l, g) && Inserted(l, g, l')
    ensures Advances(env, l0, l, l', !Covers(l, g))
  {
    InsertedKeeps(l, g, l');
    MissingInsert(env, l0, l, g, l');
    InsertedInPlace(l, g, l');
  }

  lemma InsertedInPlace(l: seq<Dep>, g: Subgoal, l': seq<Dep>)
    requires Inserted(l, g, l')
    ensures SameLasts(l, l')
  {
    if !Lists(l, g.tid) { assert forall i :: 0 <= i < |l| ==> l'[i] == l[i]; }
  }

  lemma AdvancesTrans(env: Env, l0: seq<Dep>, a: seq<Dep>, b: seq<Dep>, c: seq<Dep>, x: bool, y: bool)
    requires Advances(env, l0, a, b, x) && Advances(env, l0, b, c, y)
    ensures Advances(env, l0, a, c, x || y)
  {
    forall i | 0 <= i < |a|
      ensures Covers(c, a[i].subgoal)
    {
      CoversWithin(b, c, a[i].subgoal);
    }
  }

  // ----- propagating -----

  /** The leader only moves to the oldest own subgoal that some thread on the list depends on. */
  ghost predicate LeaderSeen(env: Env, l: seq<Dep>, leader0: int, leader: int) {
    && leader0 <= leader
    && (leader == leader0 || exists u, g :: Lists(l, u) && Feeds(env, u, g) && g.tid == env.self && g.ptr == leader)
  }

  /** Dependency g has been taken into account. */
  ghost predicate Heeded(env: Env, l: seq<Dep>, leader: int, g: Subgoal) {
    if g.tid == env.self then g.ptr <= leader else Covers(l, g)
  }

  lemma HeededLater(env: Env, l0: seq<Dep>, l: seq<Dep>, l': seq<Dep>, grew: bool, leader: int, leader': int, g: Subgoal)
    requires Heeded(env, l, leader, g) && Advances(env, l0, l, l', grew) && leader <= leader'
    ensures Heeded(env, l', leader', g)
  {
    if g.tid != env.self { CoversWithin(l, l', g); }
  }

  lemma LeaderSeenLater(env: Env, l0: seq<Dep>, l: seq<Dep>, l': seq<Dep>, grew: bool, leader0: int, leader: int)
    requires LeaderSeen(env, l, leader0, leader) && Advances(env, l0, l, l', grew)
    ensures LeaderSeen(env, l', leader0, leader)
  {
    if leader != leader0 {
      var u, g :| Lists(l, u) && Feeds(env, u, g) && g.tid == env.self && g.ptr == leader;
      ListsLater(l, l', u);
    }
  }

  lemma ListsLater(l: seq<Dep>, l': seq<Dep>, u: int)
    requires Lists(l, u) && SameLasts(l, l')
    ensures Lists(l', u)
  {
    var i :| 0 <= i < |l| && l[i].subgoal.tid == u;
    assert l'[i].subgoal.tid == u;
  }

  method PropagateDep(env: Env, ghost l0: seq<Dep>, u: int, g: Subgoal, l: seq<Dep>, leader: int, newDeps: bool, ghost leader0: int)
    returns (l': seq<Dep>, leader': int, newDeps': bool, aborted: bool, ghost grew: bool)
    requires Feeds(env, u, g) && Lists(l, u) && g.tid in env.ctx && Growing(env, l0, l) && LeaderSeen(env, l, leader0, leader)
    ensures aborted ==> TooMany(env, l0)
    ensures !aborted ==> Growing(env, l0, l') && LeaderSeen(env, l', leader0, leader') && leader <= leader'
    ensures !aborted ==> Advances(env, l0, l, l', grew) && newDeps' == (newDeps || grew)
    ensures !aborted ==> Heeded(env, l', leader', g)
  {
    l', leader', newDeps', aborted, grew := l, leader, newDeps, false, false;
    AdvancesNot(env, l0, l);
    if g.tid == env.self {
      if g.ptr > leader { leader' := g.ptr; }
    } else {
      var changed;
      l', changed, aborted := CheckInsSubg(l, g);
      if aborted {
        InsertFails(env, l0, l, g);
      } else {
        GrowingInsert(env, l0, l, g, l');
        AdvancesInsert(env, l0, l, g, l');
        LeaderSeenLater(env, l0, l, l', changed, leader0, leader);
        InsertedKeeps(l, g, l');
        if changed { newDeps' := true; }
        grew := changed;
      }
    }
  }

  /** The first n dependencies of thread u that are not completed have been heeded. */
  ghost predicate HeededUpTo(env: Env, u: int, n: int, l: seq<Dep>, leader: int)
    requires u in env.ctx && n <= |env.ctx[u].tdl|
  {
    forall i {:trigger Heeded(env, l, leader, env.ctx[u].tdl[i].subgoal)} ::
      0 <= i < n && env.ctx[u].tdl[i].subgoal !in env.done ==> Heeded(env, l, leader, env.ctx[u].tdl[i].subgoal)
  }

  lemma HeededUpToNext(env: Env, l0: seq<Dep>, u: int, n: int, l: seq<Dep>, l': seq<Dep>, grew: bool, leader: int, leader': int)
    requires u in env.ctx && 0 <= n < |env.ctx[u].tdl|
    requires HeededUpTo(env, u, n, l, leader) && Advances(env, l0, l, l', grew) && leader <= leader'
    requires var g := env.ctx[u].tdl[n].subgoal; g in env.done || Heeded(env, l', leader', g)
    ensures HeededUpTo(env, u, n + 1, l', leader')
  {
    forall i | 0 <= i < n && env.ctx[u].tdl[i].subgoal !in env.done
      ensures Heeded(env, l', leader', env.ctx[u].tdl[i].subgoal)
    {
      assert Heeded(env, l, leader, env.ctx[u].tdl[i].subgoal);
      HeededLater(env, l0, l, l', grew, leader, leader', env.ctx[u].tdl[i].subgoal);
    }
  }

  /** All dependencies of a blocked thread u go into the list, or to the leader. */
  method PropagateDeps(env: Env, ghost l0: seq<Dep>, u: int, l: seq<Dep>, leader: int, newDeps: bool, ghost leader0: int)
    returns (l': seq<Dep>, leader': int, newDeps': bool, aborted: bool, ghost grew: bool)
    requires u in env.ctx && env.ctx[u].completing && Lists(l, u) && WellListed(env, l0)
    requires Growing(env, l0, l) && LeaderSeen(env, l, leader0, leader)
    ensures aborted ==> TooMany(env, l0)
    ensures !aborted ==> Growing(env, l0, l') && LeaderSeen(env, l', leader0, leader') && leader <= leader'
    ensures !aborted ==> Advances(env, l0, l, l', grew) && newDeps' == (newDeps || grew)
    ensures !aborted ==> HeededUpTo(env, u, |env.ctx[u].tdl|, l', leader')
  {
    l', leader', newDeps', aborted, grew := l, leader, newDeps, false, false;
    AdvancesNot(env, l0, l);
    var tdl := env.ctx[u].tdl;
    var k := 0;
    while k < |tdl|
      invariant 0 <= k <= |tdl| && Growing(env, l0, l') && LeaderSeen(env, l', leader0, leader') && leader <= leader'
      invariant Advances(env, l0, l, l', grew) && newDeps' == (newDeps || grew)
      invariant HeededUpTo(env, u, k, l', leader')
    {
      var g := tdl[k].subgoal;
      ghost var was, wasLeader, more := l', leader', false;
      if g !in env.done {
        assert Feeds(env, u, g);
        ListsLater(l, l', u);
        l', leader', newDeps', aborted, more := PropagateDep(env, l0, u, g, l', leader', newDeps', leader0);
        if aborted { return; }
        AdvancesTrans(env, l0, l, was, l', grew, more);
      } else {
        AdvancesNot(env, l0, l');
      }
      HeededUpToNext(env, l0, u, k, was, l', more, wasLeader, leader');
      grew := grew || more;
      k := k + 1;
    }
  }

  // ----- one thread of the list -----

  /** The answer count recorded for the thread: its current one if it is blocked, else 0. */
  ghost predicate Fresh(env: Env, d: Dep) {
    && d.subgoal.tid in env.ctx
    && d.last == if env.ctx[d.subgoal.tid].completing then env.ctx[d.subgoal.tid].lastAns else 0
  }

  ghost predicate FreshFor(env: Env, l: seq<Dep>, t: int) {
    forall i :: 0 <= i < |l| && l[i].subgoal.tid == t ==> Fresh(env, l[i])
  }

  /** Thread t is on the list with a fresh count, and its own list has been folded in if it is blocked. */
  ghost predicate Visited(env: Env, l: seq<Dep>, leader: int, busy: bool, t: int) {
    && Lists(l, t) && FreshFor(env, l, t) && t in env.ctx
    && if env.ctx[t].completing then HeededUpTo(env, t, |env.ctx[t].tdl|, l, leader) else busy
  }

  /** busy is raised only by a listed thread that is not blocked. */
  ghost predicate BusySeen(env: Env, l: seq<Dep>, busy: bool) {
    busy ==> exists t :: Lists(l, t) && t in env.ctx && !env.ctx[t].completing
  }

  /** From l to l' the list only improves, strictly if `grew`. */
  ghost predicate Progress(env: Env, l0: seq<Dep>, l: seq<Dep>, l': seq<Dep>, grew: bool) {
    && Within(l, l') && Missing(env, l0, l') <= Missing(env, l0, l)
    && (grew ==> Missing(env, l0, l') < Missing(env, l0, l))
    && (forall t :: Lists(l, t) ==> Lists(l', t))
  }

  ghost predicate SameSubgoals(l: seq<Dep>, l': seq<Dep>) {
    |l| == |l'| && forall i :: 0 <= i < |l| ==> l'[i].subgoal == l[i].subgoal
  }

  lemma SameSubgoalsSame(l: seq<Dep>, l': seq<Dep>)
    requires SameSubgoals(l, l')
    ensures forall g {:trigger Covers(l', g)} :: Covers(l', g) <==> Covers(l, g)
    ensures forall t {:trigger Lists(l', t)} :: Lists(l', t) <==> Lists(l, t)
  {
    forall g
      ensures Covers(l', g) <==> Covers(l, g)
    {
      if Covers(l, g) {
        var i :| 0 <= i < |l| && AsOld(l[i].subgoal, g);
        assert AsOld(l'[i].subgoal, g);
      }
    }
    forall t
      ensures Lists(l', t) <==> Lists(l, t)
    {
      if Lists(l, t) {
        var i :| 0 <= i < |l| && l[i].subgoal.tid == t;
        assert l'[i].subgoal.tid == t;
      }
    }
  }

  lemma SetLastGrowing(env: Env, l0: seq<Dep>, l: seq<Dep>, l': seq<Dep>)
    requires Growing(env, l0, l) && SameSubgoals(l, l')
    ensures Growing(env, l0, l')
  {
    SameSubgoalsSame(l, l');
    forall m | Closed(env, m) && Within(l0, m)
      ensures Within(l', m)
    {
      assert Within(l, m);
    }
    forall i | 0 <= i < |l'|
      ensures Seen(env, l0, l', l'[i].subgoal)
    {
      assert Seen(env, l0, l, l[i].subgoal);
      SeenLater(env, l0, l, l', l'[i].subgoal);
    }
  }

  /** Setting the recorded number of the entry at k, for the thread visited now. */
  lemma SetLastProgress(env: Env, l0: seq<Dep>, l: seq<Dep>, k: int, last: int, l': seq<Dep>)
    requires OnePerThread(l) && 0 <= k < |l| && l' == l[k := l[k].(last := last)] && Fresh(env, l'[k])
    ensures SameSubgoals(l, l') && Progress(env, l0, l, l', false) && FreshFor(env, l', l[k].subgoal.tid)
    ensures forall t :: FreshFor(env, l, t) ==> FreshFor(env, l', t)
  {
    SameSubgoalsSame(l, l');
    AdvancesNot(env, l0, l);
    assert Within(l, l') by {
      forall i | 0 <= i < |l|
        ensures Covers(l', l[i].subgoal)
      {
        assert Covers(l, l[i].subgoal);
      }
    }
  }

  lemma AdvancesProgress(env: Env, l0: seq<Dep>, l: seq<Dep>, l': seq<Dep>, grew: bool)
    requires Advances(env, l0, l, l', grew) && OnePerThread(l')
    ensures Progress(env, l0, l, l', grew)
    ensures forall t :: Lists(l, t) && FreshFor(env, l, t) ==> FreshFor(env, l', t)
  {
    forall t | Lists(l, t)
      ensures Lists(l', t)
    {
      ListsLater(l, l', t);
    }
    forall t | Lists(l, t) && FreshFor(env, l, t)
      ensures FreshFor(env, l', t)
    {
      FreshForLater(env, l, l', t);
    }
  }

  lemma FreshForLater(env: Env, l: seq<Dep>, l': seq<Dep>, t: int)
    requires SameLasts(l, l') && OnePerThread(l') && Lists(l, t) && FreshFor(env, l, t)
    ensures FreshFor(env, l', t)
  {
    var k :| 0 <= k < |l| && l[k].subgoal.tid == t;
    forall i | 0 <= i < |l'| && l'[i].subgoal.tid == t
      ensures Fresh(env, l'[i])
    {
      SameEntry(l', i, k);
    }
  }

  lemma ProgressTrans(env: Env, l0: seq<Dep>, a: seq<Dep>, b: seq<Dep>, c: seq<Dep>, x: bool, y: bool)
    requires Progress(env, l0, a, b, x) && Progress(env, l0, b, c, y)
    ensures Progress(env, l0, a, c, x || y)
  {
    forall i | 0 <= i < |a|
      ensures Covers(c, a[i].subgoal)
    {
      CoversWithin(b, c, a[i].subgoal);
    }
  }

  lemma VisitedLater(env: Env, l0: seq<Dep>, l: seq<Dep>, l': seq<Dep>, grew: bool, leader: int, leader': int, busy: bool, busy': bool, t: int)
    requires Visited(env, l, leader, busy, t) && Progress(env, l0, l, l', grew) && leader <= leader' && (busy ==> busy')
    requires FreshFor(env, l', t)
    ensures Visited(env, l', leader', busy', t)
  {
    if env.ctx[t].completing {
      forall i | 0 <= i < |env.ctx[t].tdl| && env.ctx[t].tdl[i].subgoal !in env.done
        ensures Heeded(env, l', leader', env.ctx[t].tdl[i].subgoal)
      {
        var g := env.ctx[t].tdl[i].subgoal;
        assert Heeded(env, l, leader, g);
        if g.tid != env.self { CoversWithin(l, l', g); }
      }
    }
  }

  lemma VisitedAllLater(env: Env, l0: seq<Dep>, l: seq<Dep>, l': seq<Dep>, grew: bool, leader: int, leader': int, busy: bool, busy': bool)
    requires Progress(env, l0, l, l', grew) && leader <= leader' && (busy ==> busy')
    requires forall t :: Lists(l, t) && FreshFor(env, l, t) ==> FreshFor(env, l', t)
    ensures forall t :: Visited(env, l, leader, busy, t) ==> Visited(env, l', leader', busy', t)
  {
    forall t | Visited(env, l, leader, busy, t)
      ensures Visited(env, l', leader', busy', t)
    {
      VisitedLater(env, l0, l, l', grew, leader, leader', busy, busy', t);
    }
  }

  /** Inserts dependency g and records its thread's answer count. */
  method Record(env: Env, ghost l0: seq<Dep>, g: Subgoal, l: seq<Dep>) returns (l': seq<Dep>, aborted: bool)
    requires Growing(env, l0, l) && Seen(env, l0, l, g) && Foreign(env, g)
    ensures aborted ==> TooMany(env, l0)
    ensures !aborted ==> Growing(env, l0, l') && Progress(env, l0, l, l', false) && Covers(l', g) && FreshFor(env, l', g.tid)
    ensures !aborted ==> forall t :: Lists(l', t) ==> Lists(l, t) || t == g.tid
    ensures !aborted ==> forall t :: Lists(l, t) && FreshFor(env, l, t) ==> FreshFor(env, l', t)
  {
    var changed;
    l', changed, aborted := CheckInsSubg(l, g);
    if aborted {
      InsertFails(env, l0, l, g);
      return;
    }
    GrowingInsert(env, l0, l, g, l');
    InsertedKeeps(l, g, l');
    AdvancesInsert(env, l0, l, g, l');
    AdvancesProgress(env, l0, l, l', changed);
    assert Lists(l', g.tid);
    var k := FindTid(l', g.tid);
    var th := env.ctx[g.tid];
    ghost var l1 := l';
    var last := if th.completing then th.lastAns else 0;
    l' := l'[k := l'[k].(last := last)];
    SetLastProgress(env, l0, l1, k, last, l');
    SetLastGrowing(env, l0, l1, l');
    SameSubgoalsSame(l1, l');
    ProgressTrans(env, l0, l, l1, l', false, false);
  }

  /** One dependency of the list being updated. */
  method TakeDep(env: Env, ghost l0: seq<Dep>, g: Subgoal, l: seq<Dep>, leader: int, newDeps: bool, busy: bool, ghost leader0: int)
    returns (l': seq<Dep>, leader': int, newDeps': bool, busy': bool, aborted: bool, ghost grew: bool)
    requires WellListed(env, l0) && Growing(env, l0, l) && Seen(env, l0, l, g) && Foreign(env, g)
    requires LeaderSeen(env, l, leader0, leader) && BusySeen(env, l, busy)
    ensures aborted ==> TooMany(env, l0)
    ensures !aborted ==> Growing(env, l0, l') && LeaderSeen(env, l', leader0, leader') && BusySeen(env, l', busy')
    ensures !aborted ==> Progress(env, l0, l, l', grew) && newDeps' == (newDeps || grew) && Covers(l', g)
    ensures !aborted && !grew ==> forall t :: Lists(l', t) ==> Lists(l, t) || t == g.tid
    ensures !aborted ==> Visited(env, l', leader', busy', g.tid)
    ensures !aborted ==> forall t :: Visited(env, l, leader, busy, t) ==> Visited(env, l', leader', busy', t)
  {
    leader', newDeps', busy', grew := leader, newDeps, busy, false;
    l', aborted := Record(env, l0, g, l);
    if aborted { return; }
    ghost var l1 := l';
    assert Lists(l1, g.tid);
    assert LeaderSeen(env, l1, leader0, leader);
    assert BusySeen(env, l1, busy);
    if env.ctx[g.tid].completing {
      l', leader', newDeps', aborted, grew := PropagateDeps(env, l0, g.tid, l', leader', newDeps', leader0);
      if aborted { return; }
      AdvancesProgress(env, l0, l1, l', grew);
      CoversWithin(l1, l', g);
    } else {
      busy' := true;
      AdvancesNot(env, l0, l1);
      AdvancesProgress(env, l0, l1, l1, false);
    }
    ProgressTrans(env, l0, l, l1, l', false, grew);
    VisitedAllLater(env, l0, l, l', grew, leader, leader', busy, busy');
  }

  // ----- updating a list -----

  /** One pass over the list. */
  ghost predicate PassState(env: Env, l0: seq<Dep>, tdl: seq<Dep>, k: int, l: seq<Dep>, leader0: int, leader: int, busy: bool)
    requires 0 <= k <= |tdl|
  {
    && Growing(env, l0, l) && LeaderSeen(env, l, leader0, leader) && BusySeen(env, l, busy)
    && (forall i {:trigger Seen(env, l0, l, tdl[i].subgoal)} :: 0 <= i < |tdl| ==> Seen(env, l0, l, tdl[i].subgoal))
    && (forall j {:trigger Visited(env, l, leader, busy, tdl[j].subgoal.tid)} :: 0 <= j < k ==> Visited(env, l, leader, busy, tdl[j].subgoal.tid))
    && (forall j {:trigger Covers(l, tdl[j].subgoal)} :: 0 <= j < k ==> Covers(l, tdl[j].subgoal))
  }

  lemma PassNext(env: Env, l0: seq<Dep>, tdl: seq<Dep>, k: int, l: seq<Dep>, l': seq<Dep>, grew: bool, leader0: int, leader: int, leader': int, busy: bool, busy': bool)
    requires 0 <= k < |tdl| && PassState(env, l0, tdl, k, l, leader0, leader, busy)
    requires Growing(env, l0, l') && LeaderSeen(env, l', leader0, leader') && BusySeen(env, l', busy')
    requires Progress(env, l0, l, l', grew) && Covers(l', tdl[k].subgoal) && Visited(env, l', leader', busy', tdl[k].subgoal.tid)
    requires forall t :: Visited(env, l, leader, busy, t) ==> Visited(env, l', leader', busy', t)
    ensures PassState(env, l0, tdl, k + 1, l', leader0, leader', busy')
  {
    forall i | 0 <= i < |tdl|
      ensures Seen(env, l0, l', tdl[i].subgoal)
    {
      assert Seen(env, l0, l, tdl[i].subgoal);
      SeenLater(env, l0, l, l', tdl[i].subgoal);
    }
    forall j | 0 <= j < k
      ensures Covers(l', tdl[j].subgoal) && Visited(env, l', leader', busy', tdl[j].subgoal.tid)
    {
      assert Covers(l, tdl[j].subgoal) && Visited(env, l, leader, busy, tdl[j].subgoal.tid);
      CoversWithin(l, l', tdl[j].subgoal);
    }
  }

  method Pass(env: Env, ghost l0: seq<Dep>, tdl: seq<Dep>, l: seq<Dep>, leader: int, busy: bool, ghost leader0: int)
    returns (l': seq<Dep>, leader': int, newDeps: bool, busy': bool, aborted: bool)
    requires WellListed(env, l0) && PassState(env, l0, tdl, 0, l, leader0, leader, busy)
    requires forall i :: 0 <= i < |tdl| ==> Foreign(env, tdl[i].subgoal)
    requires forall t :: Lists(l, t) ==> Lists(tdl, t)
    ensures aborted ==> TooMany(env, l0)
    ensures !aborted ==> PassState(env, l0, tdl, |tdl|, l', leader0, leader', busy') && Progress(env, l0, l, l', newDeps)
    ensures !aborted && !newDeps ==> forall t :: Lists(l', t) ==> Lists(tdl, t)
  {
    l', leader', newDeps, busy', aborted := l, leader, false, busy, false;
    AdvancesNot(env, l0, l);
    AdvancesProgress(env, l0, l, l, false);
    var k := 0;
    while k < |tdl|
      invariant 0 <= k <= |tdl| && PassState(env, l0, tdl, k, l', leader0, leader', busy')
      invariant Progress(env, l0, l, l', newDeps)
      invariant !newDeps ==> forall t :: Lists(l', t) ==> Lists(tdl, t)
    {
      var g := tdl[k].subgoal;
      ghost var was, wasLeader, wasNew, wasBusy := l', leader', newDeps, busy';
      ghost var grew;
      assert Seen(env, l0, was, tdl[k].subgoal) && Lists(tdl, g.tid);
      l', leader', newDeps, busy', aborted, grew := TakeDep(env, l0, g, l', leader', newDeps, busy', leader0);
      if aborted { return; }
      PassNext(env, l0, tdl, k, was, l', grew, leader0, wasLeader, leader', wasBusy, busy');
      ProgressTrans(env, l0, l, was, l', wasNew, grew);
      k := k + 1;
    }
  }

  ghost predicate AnyWorking(env: Env, l: seq<Dep>) {
    exists t :: Lists(l, t) && t in env.ctx && !env.ctx[t].completing
  }

  /** The own subgoals the listed threads depend on are no older than the leader. */
  ghost predicate LeaderHeeds(env: Env, l: seq<Dep>, leader: int) {
    forall u, g {:trigger Feeds(env, u, g)} :: Lists(l, u) && Feeds(env, u, g) && g.tid == env.self ==> g.ptr <= leader
  }

  /**
   l is the least closed list above l0: one entry per thread, each on a subgoal that was seen,
   with fresh counts; leader is the oldest own subgoal depended on, if older than leader0.
   */
  ghost predicate Updated(env: Env, l0: seq<Dep>, l: seq<Dep>, leader0: int, leader: int, busy: bool) {
    && Growing(env, l0, l) && Within(l0, l) && Closed(env, l)
    && (forall i :: 0 <= i < |l| ==> Fresh(env, l[i]))
    && LeaderSeen(env, l, leader0, leader) && LeaderHeeds(env, l, leader)
    && (busy <==> AnyWorking(env, l))
  }

  lemma VisitedAll(env: Env, l: seq<Dep>, leader: int, busy: bool)
    requires forall t :: Lists(l, t) ==> Visited(env, l, leader, busy, t)
    ensures Closed(env, l) && LeaderHeeds(env, l, leader)
    ensures forall i :: 0 <= i < |l| ==> Fresh(env, l[i])
    ensures AnyWorking(env, l) ==> busy
  {
    forall u, g | Lists(l, u) && Feeds(env, u, g)
      ensures Heeded(env, l, leader, g)
    {
      assert Visited(env, l, leader, busy, u);
      var i :| 0 <= i < |env.ctx[u].tdl| && env.ctx[u].tdl[i].subgoal == g;
      assert Heeded(env, l, leader, env.ctx[u].tdl[i].subgoal);
    }
    forall i | 0 <= i < |l|
      ensures Fresh(env, l[i])
    {
      assert Lists(l, l[i].subgoal.tid);
    }
  }

  /** A pass that added no dependency reached the fixpoint. */
  lemma PassSettles(env: Env, l0: seq<Dep>, tdl: seq<Dep>, l: seq<Dep>, leader0: int, leader: int, busy: bool)
    requires PassState(env, l0, tdl, |tdl|, l, leader0, leader, busy)
    requires Within(l0, tdl) && forall t :: Lists(l, t) ==> Lists(tdl, t)
    ensures Updated(env, l0, l, leader0, leader, busy)
  {
    forall t | Lists(l, t)
      ensures Visited(env, l, leader, busy, t)
    {
      var j :| 0 <= j < |tdl| && tdl[j].subgoal.tid == t;
      assert Visited(env, l, leader, busy, tdl[j].subgoal.tid);
    }
    VisitedAll(env, l, leader, busy);
    forall i | 0 <= i < |l0|
      ensures Covers(l, l0[i].subgoal)
    {
      CoversWithin(tdl, l, l0[i].subgoal);
    }
  }

  /** A pass over the list and back: what it found is the list of the next pass. */
  lemma PassAgain(env: Env, l0: seq<Dep>, tdl: seq<Dep>, l: seq<Dep>, leader0: int, leader: int, busy: bool)
    requires PassState(env, l0, tdl, |tdl|, l, leader0, leader, busy) && Within(l0, tdl)
    ensures PassState(env, l0, l, 0, l, leader0, leader, busy) && Within(l0, l)
  {
    forall i | 0 <= i < |l|
      ensures Seen(env, l0, l, l[i].subgoal)
    {
    }
    forall i | 0 <= i < |l0|
      ensures Covers(l, l0[i].subgoal)
    {
      CoversWithin(tdl, l, l0[i].subgoal);
    }
  }

  /** Folds in the lists of the blocked threads until no dependency is new. */
  method UpdateDeps(env: Env, l0: seq<Dep>, leader0: int) returns (l: seq<Dep>, leader: int, busy: bool, aborted: bool)
    requires WellListed(env, l0) && OnePerThread(l0)
    ensures aborted ==> TooMany(env, l0)
    ensures !aborted ==> Updated(env, l0, l, leader0, leader, busy)
  {
    var newDeps, tdl := true, l0;
    l, leader, busy, aborted := [], leader0, false, false;
    AdvancesNot(env, l0, l0);
    while newDeps
      invariant PassState(env, l0, tdl, 0, l, leader0, leader, busy) && Within(l0, tdl)
      invariant forall i :: 0 <= i < |tdl| ==> Foreign(env, tdl[i].subgoal)
      invariant forall t :: Lists(l, t) ==> Lists(tdl, t)
      invariant !newDeps ==> Updated(env, l0, l, leader0, leader, busy)
      decreases Missing(env, l0, l), newDeps
    {
      ghost var was := tdl;
      l, leader, newDeps, busy, aborted := Pass(env, l0, tdl, l, leader, busy, leader0);
      if aborted { return; }
      PassAgain(env, l0, was, l, leader0, leader, busy);
      if !newDeps { PassSettles(env, l0, was, l, leader0, leader, busy); }
      tdl := l;
    }
  }

  /** Giving up and succeeding exclude each other: the fixpoint itself is a closed list. */
  lemma AbortsOnlyIfTooMany(env: Env, l0: seq<Dep>, l: seq<Dep>, leader0: int, leader: int, busy: bool)
    requires Updated(env, l0, l, leader0, leader, busy)
    ensures !TooMany(env, l0)
  {
    assert Closed(env, l) && Within(l0, l);
  }

  /** The fixpoint is unique up to order: same threads, and for each the same age of subgoal. */
  lemma FixpointUnique(env: Env, l0: seq<Dep>, a: seq<Dep>, b: seq<Dep>, leader0: int, leaderA: int, leaderB: int, busyA: bool, busyB: bool)
    requires Updated(env, l0, a, leader0, leaderA, busyA) && Updated(env, l0, b, leader0, leaderB, busyB)
    ensures |a| == |b| && leaderA == leaderB && busyA == busyB
    ensures forall i, j :: 0 <= i < |a| && 0 <= j < |b| && a[i].subgoal.tid == b[j].subgoal.tid
              ==> a[i].subgoal.ptr == b[j].subgoal.ptr && a[i].last == b[j].last
  {
    assert Within(a, b) && Within(b, a);
    WithinLists(a, b);
    WithinLists(b, a);
    WithinLonger(a, b);
    WithinLonger(b, a);
    LeaderAtMost(env, a, b, leader0, leaderA, leaderB);
    LeaderAtMost(env, b, a, leader0, leaderB, leaderA);
    SameAges(env, a, b);
  }

  lemma SameAges(env: Env, a: seq<Dep>, b: seq<Dep>)
    requires Within(a, b) && Within(b, a) && OnePerThread(a) && OnePerThread(b)
    requires forall i :: 0 <= i < |a| ==> Fresh(env, a[i])
    requires forall j :: 0 <= j < |b| ==> Fresh(env, b[j])
    ensures forall i, j :: 0 <= i < |a| && 0 <= j < |b| && a[i].subgoal.tid == b[j].subgoal.tid
              ==> a[i].subgoal.ptr == b[j].subgoal.ptr && a[i].last == b[j].last
  {
    forall i, j | 0 <= i < |a| && 0 <= j < |b| && a[i].subgoal.tid == b[j].subgoal.tid
      ensures a[i].subgoal.ptr == b[j].subgoal.ptr && a[i].last == b[j].last
    {
      SameAge(env, a, i, b, j);
    }
  }

  lemma SameAge(env: Env, a: seq<Dep>, i: int, b: seq<Dep>, j: int)
    requires Within(a, b) && Within(b, a) && OnePerThread(a) && OnePerThread(b)
    requires 0 <= i < |a| && 0 <= j < |b| && a[i].subgoal.tid == b[j].subgoal.tid && Fresh(env, a[i]) && Fresh(env, b[j])
    ensures a[i].subgoal.ptr == b[j].subgoal.ptr && a[i].last == b[j].last
  {
    OlderThan(a, i, b, j);
    OlderThan(b, j, a, i);
  }

  lemma LeaderAtMost(env: Env, a: seq<Dep>, b: seq<Dep>, leader0: int, leaderA: int, leaderB: int)
    requires LeaderSeen(env, a, leader0, leaderA) && LeaderHeeds(env, b, leaderB) && leader0 <= leaderB
    requires forall t :: Lists(a, t) ==> Lists(b, t)
    ensures leaderA <= leaderB
  {
  }

  lemma WithinLists(a: seq<Dep>, b: seq<Dep>)
    requires Within(a, b)
    ensures forall t :: Lists(a, t) ==> Lists(b, t)
    ensures forall i :: 0 <= i < |a| ==> Lists(b, a[i].subgoal.tid)
  {
    forall t | Lists(a, t)
      ensures Lists(b, t)
    {
      var i :| 0 <= i < |a| && a[i].subgoal.tid == t;
      assert Covers(b, a[i].subgoal);
    }
    forall i | 0 <= i < |a|
      ensures Lists(b, a[i].subgoal.tid)
    {
      assert Lists(a, a[i].subgoal.tid);
    }
  }

  lemma OlderThan(a: seq<Dep>, i: int, b: seq<Dep>, j: int)
    requires Within(a, b) && OnePerThread(b) && 0 <= i < |a| && 0 <= j < |b| && a[i].subgoal.tid == b[j].subgoal.tid
    ensures a[i].subgoal.ptr <= b[j].subgoal.ptr
  {
    assert Covers(b, a[i].subgoal);
    var k :| 0 <= k < |b| && AsOld(b[k].subgoal, a[i].subgoal);
    SameEntry(b, k, j);
  }
}
