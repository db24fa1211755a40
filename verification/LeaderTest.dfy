/**
 Why a thread that is about to complete a group asks, of each listed thread, whether it
 would complete the subgoal depended on: a run of two threads in which every other test
 passes and completing would be wrong.
 */
module LeaderTest {
  import opened Hiding
  import opened ThreadDeps
  import opened Completion

  // ----- a thread with one dependency -----

  /** g is the one incomplete subgoal of another thread that t's section refers to; the list of g's thread refers to t only. */
  ghost predicate OneNeeded(ctx: map<int, Context>, done: set<Subgoal>, t: int, csPtr: int, g: Subgoal)
    requires t in ctx
  {
    && g.tid in ctx && g.tid != t && g !in done && OnStack(ctx, g) && InSection(ctx[t].stack, csPtr, g)
    && (forall i :: 0 <= -csPtr <= i < |ctx[t].stack| && ctx[t].stack[i].tid != t && ctx[t].stack[i] !in done ==> ctx[t].stack[i] == g)
    && (forall i :: 0 <= i < |ctx[g.tid].tdl| ==> ctx[g.tid].tdl[i].subgoal.tid == t)
  }

  function Recorded(c: Context, g: Subgoal): Dep {
    Dep(g, if c.completing then c.lastAns else 0)
  }

  lemma AloneFits(ctx: map<int, Context>, done: set<Subgoal>, t: int, csPtr: int, g: Subgoal)
    requires t in ctx && OneNeeded(ctx, done, t, csPtr, g)
    ensures SectionListed(done, t, ctx[t].stack, csPtr, [Dep(g, 0)]) && Closed(Env(t, ctx, done), [Dep(g, 0)])
    ensures forall l0: seq<Dep> :: FirstList(ctx, done, t, csPtr, l0) ==> Within(l0, [Dep(g, 0)])
  {
    var m := [Dep(g, 0)];
    assert m[0].subgoal == g && AsOld(g, g);
    assert forall u :: Lists(m, u) ==> u == g.tid;
    assert Covers(m, g) && CoversLive(done, m, g);
    forall l0: seq<Dep> | FirstList(ctx, done, t, csPtr, l0)
      ensures Within(l0, m)
    {
      forall i | 0 <= i < |l0|
        ensures Covers(m, l0[i].subgoal)
      {
        IsTheOne(ctx, done, t, csPtr, g, l0, i);
      }
    }
  }

  lemma IsTheOne(ctx: map<int, Context>, done: set<Subgoal>, t: int, csPtr: int, g: Subgoal, l0: seq<Dep>, i: int)
    requires t in ctx && OneNeeded(ctx, done, t, csPtr, g) && FirstList(ctx, done, t, csPtr, l0) && 0 <= i < |l0|
    ensures l0[i].subgoal == g
  {
    assert Open(0);
    assert LiveElsewhere(ctx, done, t, l0[i].subgoal) && InSection(ctx[t].stack, csPtr, l0[i].subgoal);
  }

  /** The entries of the updated list can only be that one. */
  lemma EntryIsTheOne(ctx: map<int, Context>, done: set<Subgoal>, t: int, csPtr: int, g: Subgoal, l0: seq<Dep>, l: seq<Dep>, leader: int, busy: bool, i: int)
    requires t in ctx && OneNeeded(ctx, done, t, csPtr, g) && FirstList(ctx, done, t, csPtr, l0)
    requires Updated(Env(t, ctx, done), l0, l, csPtr, leader, busy) && Within(l, [Dep(g, 0)]) && 0 <= i < |l|
    ensures l[i] == Recorded(ctx[g.tid], g)
  {
    var env, m, x := Env(t, ctx, done), [Dep(g, 0)], l[i].subgoal;
    assert Covers(m, l[i].subgoal) && Seen(env, l0, l, l[i].subgoal);
    WithinLists(l, m);
    assert forall u :: Lists(m, u) ==> u == g.tid;
    assert forall u :: Lists(l, u) ==> !Feeds(env, u, x);
    var j :| 0 <= j < |l0| && l0[j].subgoal == x;
    IsTheOne(ctx, done, t, csPtr, g, l0, j);
    assert Fresh(env, l[i]);
  }

  lemma JustOne(l: seq<Dep>, d: Dep)
    requires OnePerThread(l) && l != [] && forall i :: 0 <= i < |l| ==> l[i] == d
    ensures l == [d] && forall u {:trigger Lists(l, u)} :: Lists(l, u) <==> u == d.subgoal.tid
  {
    assert l[0] == d;
    TidsAtMost(l);
    assert Tids(l) == {d.subgoal.tid};
  }

  /** Such a thread's list has exactly this entry. */
  lemma OneListed(ctx: map<int, Context>, done: set<Subgoal>, t: int, csPtr: int, g: Subgoal, busy: bool)
    requires t in ctx && OneNeeded(ctx, done, t, csPtr, g) && ListedAnew(ctx, done, t, csPtr, busy)
    ensures ctx[t].tdl == [Recorded(ctx[g.tid], g)] && (busy <==> !ctx[g.tid].completing)
  {
    var env, l, m := Env(t, ctx, done), ctx[t].tdl, [Dep(g, 0)];
    var l0: seq<Dep>, leader: int :| FirstList(ctx, done, t, csPtr, l0) && Updated(env, l0, l, csPtr, leader, busy);
    AloneFits(ctx, done, t, csPtr, g);
    assert Closed(env, m) && Within(l0, m) && Within(l, m);
    var k :| 0 <= -csPtr <= k < |ctx[t].stack| && ctx[t].stack[k] == g;
    assert CoversLive(done, l0, ctx[t].stack[k]);
    CoversWithin(l0, l, g);
    forall i | 0 <= i < |l|
      ensures l[i] == Recorded(ctx[g.tid], g)
    {
      EntryIsTheOne(ctx, done, t, csPtr, g, l0, l, leader, busy, i);
    }
    JustOne(l, Recorded(ctx[g.tid], g));
  }

  lemma SomeListFits(ctx: map<int, Context>, done: set<Subgoal>, t: int, csPtr: int, g: Subgoal)
    requires t in ctx && OneNeeded(ctx, done, t, csPtr, g)
    ensures !NoListFits(ctx, done, t, csPtr)
  {
    AloneFits(ctx, done, t, csPtr, g);
    assert |[Dep(g, 0)]| == 1;
  }

  /** A turn of such a thread, if the other's list asks for nothing older than its leader. */
  lemma Turn(ctx: map<int, Context>, done: set<Subgoal>, t: int, csPtr: int, settles: bool, g: Subgoal,
             outcome: Outcome, mid: map<int, Context>, busy: bool, ctx': map<int, Context>, done': set<Subgoal>)
    requires t in ctx && OneNeeded(ctx, done, t, csPtr, g)
    requires forall i :: 0 <= i < |ctx[g.tid].tdl| ==> ctx[g.tid].tdl[i].subgoal.ptr <= csPtr
    requires TurnTaken(ctx, done, t, csPtr, false, settles, outcome, mid, busy, ctx', done')
    ensures mid == ctx[t := ctx[t].(tdl := [Recorded(ctx[g.tid], g)])] && (busy <==> !ctx[g.tid].completing)
    ensures ListedAnew(mid, done, t, csPtr, busy) && !OlderNeeded(mid, done, t, csPtr)
    ensures if GroupReady(mid, t) then
              outcome == CompletedGroup && GroupSafe(mid, done, t, csPtr) && GroupCompleted(mid, done, t, csPtr, ctx', done')
            else
              outcome == Waits && done' == done && ctx' == mid[t := mid[t].(completing := true, completed := false, ccLeader := csPtr)]
  {
    SomeListFits(ctx, done, t, csPtr, g);
    assert OneNeeded(mid, done, t, csPtr, g) by {
      assert mid[t].stack == ctx[t].stack && mid[g.tid] == ctx[g.tid];
    }
    OneListed(mid, done, t, csPtr, g, busy);
    NoneOlder(mid, done, t, csPtr, g);
  }

  lemma NoneOlder(ctx: map<int, Context>, done: set<Subgoal>, t: int, csPtr: int, g: Subgoal)
    requires t in ctx && g.tid in ctx && ctx[t].tdl == [Recorded(ctx[g.tid], g)]
    requires forall i :: 0 <= i < |ctx[g.tid].tdl| ==> ctx[g.tid].tdl[i].subgoal.ptr <= csPtr
    ensures !OlderNeeded(ctx, done, t, csPtr)
  {
    assert forall u :: Lists(ctx[t].tdl, u) ==> u == g.tid;
  }

  // ----- single events -----

  lemma OwnCalled(ctx: map<int, Context>, done: set<Subgoal>, t: int, id: nat, stack: seq<Subgoal>, ctx': map<int, Context>, done': set<Subgoal>)
    requires t in ctx && !ctx[t].completing && Happened(CallsOwn(t, id), ctx, done, ctx', done')
    requires stack == ctx[t].stack + [Subgoal(id, t, -|ctx[t].stack|)]
    ensures ctx' == ctx[t := ctx[t].(stack := stack)] && done' == done
  {
    assert Open(0);
  }

  lemma OtherCalled(ctx: map<int, Context>, done: set<Subgoal>, t: int, g: Subgoal, stack: seq<Subgoal>, ctx': map<int, Context>, done': set<Subgoal>)
    requires t in ctx && !ctx[t].completing && g.tid != t && OnStack(ctx, g) && Happened(CallsOther(t, g), ctx, done, ctx', done')
    requires stack == ctx[t].stack + [g]
    ensures ctx' == ctx[t := ctx[t].(stack := stack)] && done' == done
  {
    assert Open(0);
  }

  /** What a turn of a thread with one dependency leads to. */
  ghost predicate Turned(ctx: map<int, Context>, done: set<Subgoal>, t: int, csPtr: int, g: Subgoal, ctx': map<int, Context>, done': set<Subgoal>)
    requires t in ctx && g.tid in ctx
  {
    var mid := ctx[t := ctx[t].(tdl := [Recorded(ctx[g.tid], g)])];
    if GroupReady(mid, t)
    then GroupSafe(mid, done, t, csPtr) && GroupCompleted(mid, done, t, csPtr, ctx', done')
    else done' == done && ctx' == mid[t := mid[t].(completing := true, completed := false, ccLeader := csPtr)]
  }

  lemma Checked(ctx: map<int, Context>, done: set<Subgoal>, t: int, csPtr: int, settles: bool, g: Subgoal, ctx': map<int, Context>, done': set<Subgoal>)
    requires t in ctx && !ctx[t].completing && 0 <= -csPtr < |ctx[t].stack| && OneNeeded(ctx, done, t, csPtr, g)
    requires forall i :: 0 <= i < |ctx[g.tid].tdl| ==> ctx[g.tid].tdl[i].subgoal.ptr <= csPtr
    requires Happened(Checks(t, csPtr, false, settles), ctx, done, ctx', done')
    ensures Turned(ctx, done, t, csPtr, g, ctx', done')
    ensures ListedAnew(ctx[t := ctx[t].(tdl := [Recorded(ctx[g.tid], g)])], done, t, csPtr, !ctx[g.tid].completing)
    ensures !OlderNeeded(ctx[t := ctx[t].(tdl := [Recorded(ctx[g.tid], g)])], done, t, csPtr)
  {
    assert Open(0);
    var outcome: Outcome, mid: map<int, Context>, busy: bool :| TurnTaken(ctx, done, t, csPtr, false, settles, outcome, mid, busy, ctx', done');
    Turn(ctx, done, t, csPtr, settles, g, outcome, mid, busy, ctx', done');
  }

  lemma Woken(ctx: map<int, Context>, done: set<Subgoal>, t: int, settles: bool, g: Subgoal, ctx': map<int, Context>, done': set<Subgoal>)
    requires t in ctx && ctx[t].completing && !ctx[t].completed
    requires var ctx0 := ctx[t := ctx[t].(completing := false)];
      OneNeeded(ctx0, done, t, ctx[t].ccLeader, g) && forall i :: 0 <= i < |ctx0[g.tid].tdl| ==> ctx0[g.tid].tdl[i].subgoal.ptr <= ctx[t].ccLeader
    requires Happened(Wakes(t, false, settles), ctx, done, ctx', done')
    ensures Turned(ctx[t := ctx[t].(completing := false)], done, t, ctx[t].ccLeader, g, ctx', done')
  {
    assert Open(0);
    var ctx0, csPtr := ctx[t := ctx[t].(completing := false)], ctx[t].ccLeader;
    var outcome: Outcome, mid: map<int, Context>, busy: bool :| TurnTaken(ctx0, done, t, csPtr, false, settles, outcome, mid, busy, ctx', done');
    Turn(ctx0, done, t, csPtr, settles, g, outcome, mid, busy, ctx', done');
  }

  // ----- the run -----

  const A := Subgoal(0, 1, 0)
  const B := Subgoal(1, 1, -1)
  const C := Subgoal(2, 0, 0)
  const D := Subgoal(3, 0, 0)

  /**
   Thread 1 calls a and b, thread 0 calls c; b needs c and c needs b. Thread 0 completes both and
   goes on before thread 1 wakes; its next subgoal d needs a, which thread 1 has not completed.
   */
  function Example(settles: bool): seq<Event> {
    [CallsOwn(1, 0), CallsOwn(1, 1), CallsOwn(0, 2), CallsOther(0, B), CallsOther(1, C),
     Checks(0, 0, false, settles), Checks(1, -1, false, settles), Wakes(0, false, settles),
     CallsOwn(0, 3), CallsOther(0, A), Checks(0, 0, false, settles)]
  }

  function Two(c0: Context, c1: Context): map<int, Context> {
    map[0 := c0, 1 := c1]
  }

  function Working(tdl: seq<Dep>, stack: seq<Subgoal>): Context {
    Context(false, false, 1, 0, tdl, stack)
  }

  function Blocked(completed: bool, leader: int, tdl: seq<Dep>, stack: seq<Subgoal>): Context {
    Context(true, completed, 1, leader, tdl, stack)
  }

  /** Both call their subgoals. */
  lemma Called(settles: bool, run: seq<(map<int, Context>, set<Subgoal>)>)
    requires |run| > 5 && run[0] == (Start({0, 1}), {})
    requires Happened(CallsOwn(1, 0), run[0].0, run[0].1, run[1].0, run[1].1)
    requires Happened(CallsOwn(1, 1), run[1].0, run[1].1, run[2].0, run[2].1)
    requires Happened(CallsOwn(0, 2), run[2].0, run[2].1, run[3].0, run[3].1)
    requires Happened(CallsOther(0, B), run[3].0, run[3].1, run[4].0, run[4].1)
    requires Happened(CallsOther(1, C), run[4].0, run[4].1, run[5].0, run[5].1)
    ensures run[5] == (Two(Working([], [C, B]), Working([], [A, B, C])), {})
  {
    assert run[0].0 == Two(Working([], []), Working([], []));
    OwnCalled(run[0].0, {}, 1, 0, [A], run[1].0, run[1].1);
    assert run[1].0 == Two(Working([], []), Working([], [A]));
    OwnCalled(run[1].0, {}, 1, 1, [A, B], run[2].0, run[2].1);
    assert run[2].0 == Two(Working([], []), Working([], [A, B]));
    OwnCalled(run[2].0, {}, 0, 2, [C], run[3].0, run[3].1);
    assert run[3].0 == Two(Working([], [C]), Working([], [A, B]));
    OtherCalled(run[3].0, {}, 0, B, [C, B], run[4].0, run[4].1);
    assert run[4].0 == Two(Working([], [C, B]), Working([], [A, B]));
    OtherCalled(run[4].0, {}, 1, C, [A, B, C], run[5].0, run[5].1);
    assert run[5].0 == Two(Working([], [C, B]), Working([], [A, B, C]));
  }

  lemma NeedsB(tdl: seq<Dep>, c1: Context)
    requires c1.stack == [A, B, C] && forall i :: 0 <= i < |c1.tdl| ==> c1.tdl[i].subgoal.tid == 0
    ensures OneNeeded(Two(Working(tdl, [C, B]), c1), {}, 0, 0, B)
  {
    assert Two(Working(tdl, [C, B]), c1)[0].stack[1] == B;
  }

  lemma NeedsC(c0: Context)
    requires c0.stack == [C, B] && forall i :: 0 <= i < |c0.tdl| ==> c0.tdl[i].subgoal.tid == 1
    ensures OneNeeded(Two(c0, Working([], [A, B, C])), {}, 1, -1, C)
  {
    assert Two(c0, Working([], [A, B, C]))[1].stack[2] == C;
  }

  lemma NeedsA(tdl: seq<Dep>, c1: Context)
    requires c1.stack == [A] && forall i :: 0 <= i < |c1.tdl| ==> c1.tdl[i].subgoal.tid == 0
    ensures OneNeeded(Two(Working(tdl, [D, A]), c1), {B, C}, 0, 0, A)
  {
    assert Two(Working(tdl, [D, A]), c1)[0].stack[1] == A;
  }

  /** Thread 0 waits, for thread 1 still works. */
  lemma FirstWaits(settles: bool, ctx: map<int, Context>, done: set<Subgoal>)
    requires Happened(Checks(0, 0, false, settles), Two(Working([], [C, B]), Working([], [A, B, C])), {}, ctx, done)
    ensures ctx == Two(Blocked(false, 0, [Dep(B, 0)], [C, B]), Working([], [A, B, C])) && done == {}
  {
    NeedsB([], Working([], [A, B, C]));
    Checked(Two(Working([], [C, B]), Working([], [A, B, C])), {}, 0, 0, settles, B, ctx, done);
  }

  /** Thread 1 waits, for thread 0 has not recorded its answers. */
  lemma SecondWaits(settles: bool, ctx: map<int, Context>, done: set<Subgoal>)
    requires Happened(Checks(1, -1, false, settles), Two(Blocked(false, 0, [Dep(B, 0)], [C, B]), Working([], [A, B, C])), {}, ctx, done)
    ensures ctx == Two(Blocked(false, 0, [Dep(B, 0)], [C, B]), Blocked(false, -1, [Dep(C, 1)], [A, B, C])) && done == {}
  {
    var ctx0 := Two(Blocked(false, 0, [Dep(B, 0)], [C, B]), Working([], [A, B, C]));
    NeedsC(ctx0[0]);
    Checked(ctx0, {}, 1, -1, settles, C, ctx, done);
    Stale(ctx0[1 := Working([Dep(C, 1)], [A, B, C])]);
  }

  lemma Stale(mid: map<int, Context>)
    requires mid == Two(Blocked(false, 0, [Dep(B, 0)], [C, B]), Working([Dep(C, 1)], [A, B, C]))
    ensures !GroupReady(mid, 1)
  {
    assert mid[1].tdl[0].subgoal == C && mid[0].tdl[0] == Dep(B, 0);
    assert !RecordedNow(mid, mid[0].tdl[0]) && !MemberAgrees(mid, 1, C);
  }

  /** Thread 0 wakes, finds all current and completes c, b and itself. */
  lemma GroupCompletes(settles: bool, ctx: map<int, Context>, done: set<Subgoal>)
    requires Happened(Wakes(0, false, settles), Two(Blocked(false, 0, [Dep(B, 0)], [C, B]), Blocked(false, -1, [Dep(C, 1)], [A, B, C])), {}, ctx, done)
    ensures ctx == Two(Working([Dep(B, 1)], []), Blocked(true, -1, [Dep(C, 1)], [A])) && done == {B, C}
  {
    var ctx0 := Two(Blocked(false, 0, [Dep(B, 0)], [C, B]), Blocked(false, -1, [Dep(C, 1)], [A, B, C]));
    NeedsB([Dep(B, 0)], ctx0[1]);
    assert ctx0[0 := ctx0[0].(completing := false)] == Two(Working([Dep(B, 0)], [C, B]), ctx0[1]);
    Woken(ctx0, {}, 0, settles, B, ctx, done);
    var mid := Two(Working([Dep(B, 1)], [C, B]), Blocked(false, -1, [Dep(C, 1)], [A, B, C]));
    assert Two(Working([Dep(B, 0)], [C, B]), ctx0[1])[0 := Working([Dep(B, 1)], [C, B])] == mid;
    AllPass(mid);
    Completes(mid, ctx, done);
  }

  lemma AllPass(mid: map<int, Context>)
    requires mid == Two(Working([Dep(B, 1)], [C, B]), Blocked(false, -1, [Dep(C, 1)], [A, B, C]))
    ensures GroupReady(mid, 0)
  {
    var mine, theirs := mid[0].tdl, mid[1].tdl;
    assert mine[0] == Dep(B, 1) && theirs[0] == Dep(C, 1) && mid[1].stack[1] == B;
    assert Tids(mine) == {1} && Tids(theirs) == {0};
    assert Tids(theirs) + {0, 1} == {0, 1} && Tids(mine) + {0, 1} == {0, 1};
  }

  lemma Completes(mid: map<int, Context>, ctx: map<int, Context>, done: set<Subgoal>)
    requires mid == Two(Working([Dep(B, 1)], [C, B]), Blocked(false, -1, [Dep(C, 1)], [A, B, C]))
    requires GroupSafe(mid, {}, 0, 0) && GroupCompleted(mid, {}, 0, 0, ctx, done)
    ensures ctx == Two(Working([Dep(B, 1)], []), Blocked(true, -1, [Dep(C, 1)], [A])) && done == {B, C}
  {
    assert mid[0].tdl[0] == Dep(B, 1);
    assert Lists(mid[0].tdl, 1) && InGroup(mid, 0, 1) && InGroup(mid, 0, 0);
    forall g
      ensures g in done <==> g == B || g == C
    {
      InSectionOf(mid, g);
    }
    assert [A, B, C][..1] == [A];
  }

  lemma InSectionOf(mid: map<int, Context>, g: Subgoal)
    requires mid == Two(Working([Dep(B, 1)], [C, B]), Blocked(false, -1, [Dep(C, 1)], [A, B, C]))
    ensures InSection(mid[0].stack, 0, g) <==> g == C || g == B
    ensures InSection(mid[1].stack, -1, g) <==> g == C || g == B
  {
    assert mid[0].stack[0] == C && mid[0].stack[1] == B && mid[1].stack[1] == B && mid[1].stack[2] == C;
  }

  /** The list has just been brought up to date and every other test passes, but completing would be wrong. */
  ghost predicate OnlyLeaderTestFails(ctx: map<int, Context>, done: set<Subgoal>, t: int, csPtr: int)
    requires t in ctx
  {
    && ListedAnew(ctx, done, t, csPtr, false) && !OlderNeeded(ctx, done, t, csPtr)
    && ctx[t].tdl != [] && AnswersCurrent(ctx, t)
    && (forall k :: 0 <= k < |ctx[t].tdl| ==> ctx[t].tdl[k].subgoal.tid in ctx && SameListAs(ctx, t, ctx[t].tdl[k].subgoal.tid))
    && !GroupSafe(ctx, done, t, csPtr)
  }

  /** Thread 0 goes on: all tests but one pass, though thread 1 has been completed and would not complete a. */
  lemma LastCheck(settles: bool, ctx0: map<int, Context>, ctx: map<int, Context>, done: set<Subgoal>)
    requires ctx0 == Two(Working([Dep(B, 1)], [D, A]), Blocked(true, -1, [Dep(C, 1)], [A]))
    requires Happened(Checks(0, 0, false, settles), ctx0, {B, C}, ctx, done)
    ensures OnlyLeaderTestFails(ctx0[0 := ctx0[0].(tdl := [Dep(A, 1)])], {B, C}, 0, 0)
  {
    NeedsA([Dep(B, 1)], ctx0[1]);
    Checked(ctx0, {B, C}, 0, 0, settles, A, ctx, done);
    OthersPass(ctx0[0 := ctx0[0].(tdl := [Dep(A, 1)])]);
  }

  lemma OthersPass(mid: map<int, Context>)
    requires mid == Two(Working([Dep(A, 1)], [D, A]), Blocked(true, -1, [Dep(C, 1)], [A]))
    ensures AnswersCurrent(mid, 0) && SameListAs(mid, 0, 1) && !GroupSafe(mid, {B, C}, 0, 0)
  {
    var mine, theirs := mid[0].tdl, mid[1].tdl;
    assert mine[0] == Dep(A, 1) && theirs[0] == Dep(C, 1);
    assert forall u :: Lists(mine, u) ==> u == 1;
    assert Lists(mine, 1) && !MemberReady(mid, 0, 1);
  }

  /** A run in which the events happen in order. */
  ghost predicate Runs(es: seq<Event>, run: seq<(map<int, Context>, set<Subgoal>)>) {
    |run| == |es| + 1 && forall i {:trigger es[i]} :: 0 <= i < |es| ==> Happened(es[i], run[i].0, run[i].1, run[i + 1].0, run[i + 1].1)
  }

  lemma FirstHalf(settles: bool, run: seq<(map<int, Context>, set<Subgoal>)>)
    requires Runs(Example(settles), run) && run[0] == (Start({0, 1}), {})
    ensures run[8] == (Two(Working([Dep(B, 1)], []), Blocked(true, -1, [Dep(C, 1)], [A])), {B, C})
  {
    var es := Example(settles);
    assert es[0] == CallsOwn(1, 0) && es[1] == CallsOwn(1, 1) && es[2] == CallsOwn(0, 2) && es[3] == CallsOther(0, B) && es[4] == CallsOther(1, C);
    Called(settles, run);
    assert es[5] == Checks(0, 0, false, settles) && es[6] == Checks(1, -1, false, settles) && es[7] == Wakes(0, false, settles);
    FirstWaits(settles, run[6].0, run[6].1);
    SecondWaits(settles, run[7].0, run[7].1);
    GroupCompletes(settles, run[8].0, run[8].1);
  }

  /** Whatever run the example has, its last check is such a moment. */
  lemma LeaderTestNeeded(settles: bool, run: seq<(map<int, Context>, set<Subgoal>)>)
    requires Runs(Example(settles), run) && run[0] == (Start({0, 1}), {})
    ensures 0 in run[10].0 && exists tdl: seq<Dep> :: OnlyLeaderTestFails(run[10].0[0 := run[10].0[0].(tdl := tdl)], run[10].1, 0, 0)
  {
    var es := Example(settles);
    FirstHalf(settles, run);
    assert es[8] == CallsOwn(0, 3) && es[9] == CallsOther(0, A) && es[10] == Checks(0, 0, false, settles);
    OwnCalled(run[8].0, {B, C}, 0, 3, [D], run[9].0, run[9].1);
    assert run[9].0 == Two(Working([Dep(B, 1)], [D]), Blocked(true, -1, [Dep(C, 1)], [A]));
    OtherCalled(run[9].0, {B, C}, 0, A, [D, A], run[10].0, run[10].1);
    assert run[10].0 == Two(Working([Dep(B, 1)], [D, A]), Blocked(true, -1, [Dep(C, 1)], [A]));
    LastCheck(settles, run[10].0, run[11].0, run[11].1);
  }

  /** There is such a run: the one of RunAll. */
  method RunExample(settles: bool) returns (threads: Threads, ghost run: seq<(map<int, Context>, set<Subgoal>)>)
    ensures Runs(Example(settles), run) && run[0] == (Start({0, 1}), {}) && threads.Valid()
    ensures 0 in run[10].0 && exists tdl: seq<Dep> :: OnlyLeaderTestFails(run[10].0[0 := run[10].0[0].(tdl := tdl)], run[10].1, 0, 0)
  {
    threads, run := RunAll({0, 1}, Example(settles));
    LeaderTestNeeded(settles, run);
  }
}
