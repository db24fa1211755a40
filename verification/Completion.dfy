/**
 Concurrent completion: threads evaluate tabled subgoals that may depend on each
 other's, and a thread that runs out of work either waits for the threads it depends
 on or, when they all wait for each other, completes the whole group. One step below
 is what a thread does between taking the completion mutex and giving it back.

 A completion stack is held oldest frame first; frame i has address -i, so that, as on
 the real downward-growing stack, older frames have larger addresses. A frame holds a
 subgoal of the thread itself or one of another thread that it consumes from.
 */
module Completion {
  import opened Hiding
  import opened ThreadDeps

  // ----- what every state keeps -----

  ghost predicate OnStack(ctx: map<int, Context>, g: Subgoal) {
    g.tid in ctx && 0 <= -g.ptr < |ctx[g.tid].stack| && ctx[g.tid].stack[-g.ptr] == g
  }

  /** A subgoal someone refers to is completed, or on its thread's stack. */
  ghost predicate Placed(ctx: map<int, Context>, done: set<Subgoal>, g: Subgoal) {
    g.tid in ctx && (g in done || OnStack(ctx, g))
  }

  ghost predicate StackRight(ctx: map<int, Context>, done: set<Subgoal>, t: int)
    requires t in ctx
  {
    forall i :: 0 <= i < |ctx[t].stack| ==>
      Placed(ctx, done, ctx[t].stack[i]) && (ctx[t].stack[i].tid == t ==> ctx[t].stack[i].ptr == -i)
  }

  /** The list of a blocked thread: other threads, with counts that were current when they were recorded. */
  ghost predicate ListRight(ctx: map<int, Context>, done: set<Subgoal>, t: int)
    requires t in ctx
  {
    forall i :: 0 <= i < |ctx[t].tdl| ==> EntryRight(ctx, done, t, ctx[t].tdl[i])
  }

  ghost predicate EntryRight(ctx: map<int, Context>, done: set<Subgoal>, t: int, d: Dep) {
    Placed(ctx, done, d.subgoal) && d.subgoal.tid != t && d.last <= ctx[d.subgoal.tid].lastAns
  }

  /** A listed subgoal that is not completed and at least as old as g. */
  ghost predicate CoversLive(done: set<Subgoal>, l: seq<Dep>, g: Subgoal) {
    exists i :: 0 <= i < |l| && AsOld(l[i].subgoal, g) && l[i].subgoal !in done
  }

  /** From the leader's frame up, the subgoals of other threads are completed or on the list. */
  ghost predicate SectionListed(done: set<Subgoal>, t: int, stack: seq<Subgoal>, leader: int, l: seq<Dep>) {
    forall i {:trigger stack[i]} :: 0 <= -leader <= i < |stack| && stack[i].tid != t && stack[i] !in done ==> CoversLive(done, l, stack[i])
  }

  ghost predicate BlockedRight(ctx: map<int, Context>, done: set<Subgoal>, t: int)
    requires t in ctx
  {
    var c := ctx[t];
    c.completing ==>
      && ListRight(ctx, done, t)
      && (if c.completed then |c.stack| <= -c.ccLeader
          else 0 <= -c.ccLeader < |c.stack| && SectionListed(done, t, c.stack, c.ccLeader, c.tdl))
  }

  ghost predicate Inv(ctx: map<int, Context>, done: set<Subgoal>) {
    forall t {:trigger ThreadRight(ctx, done, t)} :: t in ctx ==> ThreadRight(ctx, done, t)
  }

  ghost predicate ThreadRight(ctx: map<int, Context>, done: set<Subgoal>, t: int)
    requires t in ctx
  {
    ctx[t].lastAns > 0 && StackRight(ctx, done, t) && BlockedRight(ctx, done, t)
  }

  // ----- completing safely -----

  ghost predicate InGroup(ctx: map<int, Context>, t: int, u: int)
    requires t in ctx
  {
    u == t || Lists(ctx[t].tdl, u)
  }

  /** The frame up to which thread u's stack is completed. */
  ghost function LeaderOf(ctx: map<int, Context>, t: int, csPtr: int, u: int): int
    requires u in ctx
  {
    if u == t then csPtr else ctx[u].ccLeader
  }

  /** g is completed already, or in the part of its own thread's stack that is about to be. */
  ghost predicate Accounted(ctx: map<int, Context>, done: set<Subgoal>, t: int, csPtr: int, g: Subgoal)
    requires t in ctx
  {
    g in done || (OnStack(ctx, g) && InGroup(ctx, t, g.tid) && g.ptr <= LeaderOf(ctx, t, csPtr, g.tid))
  }

  /** The section of a group member refers to no subgoal outside the group's sections. */
  ghost predicate SectionClosed(ctx: map<int, Context>, done: set<Subgoal>, t: int, csPtr: int, u: int)
    requires t in ctx && u in ctx
  {
    forall i {:trigger ctx[u].stack[i]} :: 0 <= -LeaderOf(ctx, t, csPtr, u) <= i < |ctx[u].stack| ==> Accounted(ctx, done, t, csPtr, ctx[u].stack[i])
  }

  /** Blocked, not yet completed by another, on threads of the group only, and every count it recorded is current. */
  ghost predicate MemberReady(ctx: map<int, Context>, t: int, u: int)
    requires t in ctx && u in ctx
  {
    && ctx[u].completing && !ctx[u].completed
    && forall i :: 0 <= i < |ctx[u].tdl| ==> CurrentEntry(ctx, t, ctx[u].tdl[i])
  }

  ghost predicate CurrentEntry(ctx: map<int, Context>, t: int, d: Dep)
    requires t in ctx
  {
    d.subgoal.tid in ctx && InGroup(ctx, t, d.subgoal.tid) && d.last == ctx[d.subgoal.tid].lastAns
  }

  ghost predicate GroupSafe(ctx: map<int, Context>, done: set<Subgoal>, t: int, csPtr: int) {
    && t in ctx && 0 <= -csPtr < |ctx[t].stack| && !Lists(ctx[t].tdl, t)
    && (forall u {:trigger Lists(ctx[t].tdl, u)} :: Lists(ctx[t].tdl, u) ==>
          u in ctx && MemberReady(ctx, t, u) && 0 <= -ctx[u].ccLeader < |ctx[u].stack|)
    && (forall u {:trigger SectionClosed(ctx, done, t, csPtr, u)} :: u in ctx && InGroup(ctx, t, u) ==> SectionClosed(ctx, done, t, csPtr, u))
  }

  function Completed(c: Context): Context
    requires 0 <= -c.ccLeader <= |c.stack|
  {
    c.(completed := true, stack := c.stack[..-c.ccLeader])
  }

  /** What completing the group does: every member's section is popped and all it refers to is completed. */
  ghost predicate GroupCompleted(ctx: map<int, Context>, done: set<Subgoal>, t: int, csPtr: int, ctx': map<int, Context>, done': set<Subgoal>)
    requires t in ctx && 0 <= -csPtr <= |ctx[t].stack|
    requires forall u :: u in ctx && Lists(ctx[t].tdl, u) ==> 0 <= -ctx[u].ccLeader <= |ctx[u].stack|
  {
    && ctx'.Keys == ctx.Keys
    && ctx'[t] == ctx[t].(stack := ctx[t].stack[..-csPtr])
    && (forall u :: u in ctx && u != t ==> ctx'[u] == if Lists(ctx[t].tdl, u) then Completed(ctx[u]) else ctx[u])
    && (forall g :: g in done' <==> g in done || exists u :: u in ctx && InGroup(ctx, t, u) && InSection(ctx[u].stack, LeaderOf(ctx, t, csPtr, u), g))
  }

  ghost predicate InSection(stack: seq<Subgoal>, leader: int, g: Subgoal) {
    exists i :: 0 <= -leader <= i < |stack| && stack[i] == g
  }

  /** Given closed sections, what is newly completed is exactly the group's own part of the stacks. */
  lemma NewlyDone(ctx: map<int, Context>, done: set<Subgoal>, t: int, csPtr: int, ctx': map<int, Context>, done': set<Subgoal>, g: Subgoal)
    requires GroupSafe(ctx, done, t, csPtr) && GroupCompleted(ctx, done, t, csPtr, ctx', done')
    requires OnStack(ctx, g)
    ensures g in done' <==> g in done || (InGroup(ctx, t, g.tid) && g.ptr <= LeaderOf(ctx, t, csPtr, g.tid))
  {
    if g in done' && g !in done {
      var u :| u in ctx && InGroup(ctx, t, u) && InSection(ctx[u].stack, LeaderOf(ctx, t, csPtr, u), g);
      assert SectionClosed(ctx, done, t, csPtr, u);
    }
    if InGroup(ctx, t, g.tid) && g.ptr <= LeaderOf(ctx, t, csPtr, g.tid) {
      assert InSection(ctx[g.tid].stack, LeaderOf(ctx, t, csPtr, g.tid), g);
    }
  }

  lemma PlacedAfter(ctx: map<int, Context>, done: set<Subgoal>, t: int, csPtr: int, ctx': map<int, Context>, done': set<Subgoal>, g: Subgoal)
    requires GroupSafe(ctx, done, t, csPtr) && GroupCompleted(ctx, done, t, csPtr, ctx', done')
    requires Placed(ctx, done, g)
    ensures Placed(ctx', done', g)
  {
    if g !in done {
      NewlyDone(ctx, done, t, csPtr, ctx', done', g);
    }
  }

  /** What was covered by something not completed stays so: completion takes the younger along. */
  lemma CoversAfter(ctx: map<int, Context>, done: set<Subgoal>, t: int, csPtr: int, ctx': map<int, Context>, done': set<Subgoal>, v: int, g: Subgoal)
    requires GroupSafe(ctx, done, t, csPtr) && GroupCompleted(ctx, done, t, csPtr, ctx', done')
    requires v in ctx && ListRight(ctx, done, v) && CoversLive(done, ctx[v].tdl, g) && Placed(ctx, done, g) && g !in done'
    ensures CoversLive(done', ctx[v].tdl, g)
  {
    var i :| 0 <= i < |ctx[v].tdl| && AsOld(ctx[v].tdl[i].subgoal, g) && ctx[v].tdl[i].subgoal !in done;
    var e := ctx[v].tdl[i].subgoal;
    assert EntryRight(ctx, done, v, ctx[v].tdl[i]);
    NewlyDone(ctx, done, t, csPtr, ctx', done', e);
    NewlyDone(ctx, done, t, csPtr, ctx', done', g);
  }

  lemma GroupKeepsThread(ctx: map<int, Context>, done: set<Subgoal>, t: int, csPtr: int, ctx': map<int, Context>, done': set<Subgoal>, v: int)
    requires GroupSafe(ctx, done, t, csPtr) && GroupCompleted(ctx, done, t, csPtr, ctx', done')
    requires v in ctx && ThreadRight(ctx, done, v) && !ctx[t].completing
    ensures ThreadRight(ctx', done', v)
  {
    var s, s' := ctx[v].stack, ctx'[v].stack;
    assert |s'| <= |s| && forall i :: 0 <= i < |s'| ==> s'[i] == s[i];
    forall i | 0 <= i < |s'|
      ensures Placed(ctx', done', s'[i])
    {
      assert Placed(ctx, done, s[i]);
      PlacedAfter(ctx, done, t, csPtr, ctx', done', s[i]);
    }
    if ctx'[v].completing {
      forall i | 0 <= i < |ctx[v].tdl|
        ensures EntryRight(ctx', done', v, ctx[v].tdl[i])
      {
        assert EntryRight(ctx, done, v, ctx[v].tdl[i]);
        PlacedAfter(ctx, done, t, csPtr, ctx', done', ctx[v].tdl[i].subgoal);
      }
      if !ctx'[v].completed {
        forall i | 0 <= -ctx[v].ccLeader <= i < |s| && s[i].tid != v && s[i] !in done'
          ensures CoversLive(done', ctx[v].tdl, s[i])
        {
          assert Placed(ctx, done, s[i]);
          CoversAfter(ctx, done, t, csPtr, ctx', done', v, s[i]);
        }
      }
    }
  }

  /** Completing a closed group of waiting threads keeps the invariant for everyone. */
  lemma GroupKeeps(ctx: map<int, Context>, done: set<Subgoal>, t: int, csPtr: int, ctx': map<int, Context>, done': set<Subgoal>)
    requires GroupSafe(ctx, done, t, csPtr) && GroupCompleted(ctx, done, t, csPtr, ctx', done')
    requires Inv(ctx, done) && !ctx[t].completing
    ensures Inv(ctx', done')
  {
    forall v | v in ctx'
      ensures ThreadRight(ctx', done', v)
    {
      assert ThreadRight(ctx, done, v);
      GroupKeepsThread(ctx, done, t, csPtr, ctx', done', v);
    }
  }

  // ----- why the tests suffice -----

  /** What a thread finds on its own stack: each subgoal of another thread that is not completed. */
  ghost predicate FirstList(ctx: map<int, Context>, done: set<Subgoal>, t: int, csPtr: int, l0: seq<Dep>)
    requires t in ctx
  {
    && SectionListed(done, t, ctx[t].stack, csPtr, l0)
    && (forall i :: 0 <= i < |l0| ==> LiveElsewhere(ctx, done, t, l0[i].subgoal))
    && OnlySection(ctx[t].stack, csPtr, l0)
  }

  ghost predicate OnlySection(stack: seq<Subgoal>, csPtr: int, l0: seq<Dep>) {
    forall k {:trigger Open(k)} :: Open(k) ==> forall i :: 0 <= i < |l0| ==> InSection(stack, csPtr, l0[i].subgoal)
  }

  ghost predicate LiveElsewhere(ctx: map<int, Context>, done: set<Subgoal>, t: int, g: Subgoal) {
    g.tid != t && g !in done && OnStack(ctx, g)
  }

  /** No listed thread recorded a count that has changed since. */
  ghost predicate AnswersCurrent(ctx: map<int, Context>, t: int)
    requires t in ctx
  {
    forall u, i :: Lists(ctx[t].tdl, u) && u in ctx && 0 <= i < |ctx[u].tdl| ==>
      ctx[u].tdl[i].subgoal.tid in ctx && ctx[u].tdl[i].last >= ctx[ctx[u].tdl[i].subgoal.tid].lastAns
  }

  /** The listed threads list the same threads, and would complete the subgoals depended on. */
  ghost predicate SameScc(ctx: map<int, Context>, t: int)
    requires t in ctx
  {
    forall k :: 0 <= k < |ctx[t].tdl| ==> SameSccAs(ctx, t, ctx[t].tdl[k].subgoal)
  }

  ghost predicate SameSccAs(ctx: map<int, Context>, t: int, g: Subgoal)
    requires t in ctx
  {
    g.tid in ctx && ctx[g.tid].ccLeader >= g.ptr && SameListAs(ctx, t, g.tid)
  }

  /** The two threads list each other and the same others. */
  ghost predicate SameListAs(ctx: map<int, Context>, t: int, u: int)
    requires t in ctx && u in ctx
  {
    && (forall i :: 0 <= i < |ctx[u].tdl| ==> InGroup(ctx, t, ctx[u].tdl[i].subgoal.tid))
    && (forall i :: 0 <= i < |ctx[t].tdl| ==> ctx[t].tdl[i].subgoal.tid == u || Lists(ctx[u].tdl, ctx[t].tdl[i].subgoal.tid))
  }

  // ----- what the tests come to -----

  /**
   All listed threads are blocked, would complete the subgoals depended on, recorded counts that are
   current, and list the same threads, each other apart.
   */
  ghost predicate GroupReady(ctx: map<int, Context>, t: int)
    requires t in ctx
  {
    forall k :: 0 <= k < |ctx[t].tdl| ==> MemberAgrees(ctx, t, ctx[t].tdl[k].subgoal)
  }

  ghost predicate MemberAgrees(ctx: map<int, Context>, t: int, g: Subgoal)
    requires t in ctx
  {
    && g.tid in ctx && ctx[g.tid].completing && InSection(ctx[g.tid].stack, ctx[g.tid].ccLeader, g)
    && (forall i :: 0 <= i < |ctx[g.tid].tdl| ==> RecordedNow(ctx, ctx[g.tid].tdl[i]))
    && Tids(ctx[g.tid].tdl) + {t, g.tid} == Tids(ctx[t].tdl) + {t, g.tid}
  }

  ghost predicate RecordedNow(ctx: map<int, Context>, d: Dep) {
    d.subgoal.tid in ctx && d.last == ctx[d.subgoal.tid].lastAns
  }

  lemma SameListIff(ctx: map<int, Context>, t: int, u: int)
    requires t in ctx && u in ctx && u in Tids(ctx[t].tdl) && t !in Tids(ctx[t].tdl)
    ensures SameListAs(ctx, t, u) <==> Tids(ctx[u].tdl) + {t, u} == Tids(ctx[t].tdl) + {t, u}
  {
    var mine, theirs := Tids(ctx[t].tdl), Tids(ctx[u].tdl);
    assert (forall i :: 0 <= i < |ctx[u].tdl| ==> InGroup(ctx, t, ctx[u].tdl[i].subgoal.tid)) <==> theirs <= mine + {t} by {
      AllIn(ctx[u].tdl, mine + {t});
    }
    assert (forall i :: 0 <= i < |ctx[t].tdl| ==> ctx[t].tdl[i].subgoal.tid == u || Lists(ctx[u].tdl, ctx[t].tdl[i].subgoal.tid))
           <==> mine <= theirs + {u} by {
      AllIn(ctx[t].tdl, theirs + {u});
    }
    EachOtherApart(mine, theirs, t, u);
  }

  lemma AllIn(l: seq<Dep>, s: set<int>)
    ensures Tids(l) <= s <==> forall i :: 0 <= i < |l| ==> l[i].subgoal.tid in s
  {
    assert forall i :: 0 <= i < |l| ==> l[i].subgoal.tid in Tids(l);
  }

  lemma EachOtherApart(mine: set<int>, theirs: set<int>, t: int, u: int)
    requires u in mine && t !in mine
    ensures theirs + {t, u} == mine + {t, u} <==> theirs <= mine + {t} && mine <= theirs + {u}
  {
    if theirs + {t, u} == mine + {t, u} {
      forall x | x in theirs
        ensures x in mine + {t}
      {
        assert x in mine + {t, u};
      }
      forall x | x in mine
        ensures x in theirs + {u}
      {
        assert x in theirs + {t, u};
      }
    }
  }

  /** The leader's frame is at or below the subgoal's exactly if the subgoal is in the part that would be completed. */
  lemma InPartIff(ctx: map<int, Context>, done: set<Subgoal>, g: Subgoal)
    requires OnStack(ctx, g) && ThreadRight(ctx, done, g.tid) && ctx[g.tid].completing
    ensures InSection(ctx[g.tid].stack, ctx[g.tid].ccLeader, g) <==> ctx[g.tid].ccLeader >= g.ptr
  {
    var c := ctx[g.tid];
    if c.ccLeader >= g.ptr { assert c.stack[-g.ptr] == g; }
  }

  lemma CountsIff(ctx: map<int, Context>, done: set<Subgoal>, u: int)
    requires u in ctx && ThreadRight(ctx, done, u) && ctx[u].completing
    ensures CountsCurrent(ctx, u) <==> forall i :: 0 <= i < |ctx[u].tdl| ==> RecordedNow(ctx, ctx[u].tdl[i])
  {
    forall i | 0 <= i < |ctx[u].tdl|
      ensures RecordedNow(ctx, ctx[u].tdl[i]) <==> ctx[u].tdl[i].last >= ctx[ctx[u].tdl[i].subgoal.tid].lastAns
      ensures ctx[u].tdl[i].subgoal.tid in ctx
    {
      assert EntryRight(ctx, done, u, ctx[u].tdl[i]);
    }
  }

  lemma MemberIff(ctx: map<int, Context>, done: set<Subgoal>, t: int, g: Subgoal)
    requires Inv(ctx, done) && t in ctx && OnStack(ctx, g) && g.tid in Tids(ctx[t].tdl) && t !in Tids(ctx[t].tdl)
    ensures MemberAgrees(ctx, t, g) <==> ctx[g.tid].completing && CountsCurrent(ctx, g.tid) && SameSccAs(ctx, t, g)
  {
    assert ThreadRight(ctx, done, g.tid);
    SameListIff(ctx, t, g.tid);
    if ctx[g.tid].completing {
      InPartIff(ctx, done, g);
      CountsIff(ctx, done, g.tid);
    }
  }

  /** With the list up to date, the tests pass exactly if the group is ready. */
  lemma ReadyIff(ctx: map<int, Context>, done: set<Subgoal>, t: int, csPtr: int, l0: seq<Dep>, leader: int, busy: bool)
    requires Inv(ctx, done) && t in ctx && FirstList(ctx, done, t, csPtr, l0)
    requires Updated(Env(t, ctx, done), l0, ctx[t].tdl, csPtr, leader, busy)
    ensures GroupReady(ctx, t) <==> !busy && AnswersCurrent(ctx, t) && SameScc(ctx, t)
  {
    var l := ctx[t].tdl;
    forall k | 0 <= k < |l|
      ensures Foreign(Env(t, ctx, done), l[k].subgoal)
      ensures MemberAgrees(ctx, t, l[k].subgoal) <==>
                ctx[l[k].subgoal.tid].completing && CountsCurrent(ctx, l[k].subgoal.tid) && SameSccAs(ctx, t, l[k].subgoal)
    {
      ListLive(ctx, done, t, l0, l, k);
      assert Foreign(Env(t, ctx, done), l[k].subgoal);
      MemberIff(ctx, done, t, l[k].subgoal);
    }
    AllCurrentIff(ctx, t);
    assert busy <==> !forall k :: 0 <= k < |l| ==> ctx[l[k].subgoal.tid].completing by {
      assert forall k :: 0 <= k < |l| ==> Lists(l, l[k].subgoal.tid);
    }
  }

  lemma AllCurrentIff(ctx: map<int, Context>, t: int)
    requires t in ctx
    ensures AnswersCurrent(ctx, t) <==> forall k :: 0 <= k < |ctx[t].tdl| ==> CountsCurrent(ctx, ctx[t].tdl[k].subgoal.tid)
  {
    var l := ctx[t].tdl;
    assert forall k :: 0 <= k < |l| ==> Lists(l, l[k].subgoal.tid);
    if forall k :: 0 <= k < |l| ==> CountsCurrent(ctx, l[k].subgoal.tid) {
      forall u | Lists(l, u)
        ensures CountsCurrent(ctx, u)
      {
        var k :| 0 <= k < |l| && l[k].subgoal.tid == u;
        assert CountsCurrent(ctx, l[k].subgoal.tid);
      }
    }
  }

  /** A count just recorded looks up to date exactly if the thread is blocked: no thread's count is ever 0. */
  lemma RecordedTells(ctx: map<int, Context>, done: set<Subgoal>, t: int, csPtr: int, l0: seq<Dep>, leader: int, busy: bool, k: nat)
    requires Inv(ctx, done) && t in ctx && Updated(Env(t, ctx, done), l0, ctx[t].tdl, csPtr, leader, busy) && k < |ctx[t].tdl|
    ensures ctx[t].tdl[k].subgoal.tid in ctx
    ensures RecordedNow(ctx, ctx[t].tdl[k]) <==> ctx[ctx[t].tdl[k].subgoal.tid].completing
  {
    var d := ctx[t].tdl[k];
    assert Fresh(Env(t, ctx, done), d);
    assert ThreadRight(ctx, done, d.subgoal.tid);
  }

  lemma FedLive(ctx: map<int, Context>, done: set<Subgoal>, t: int, u: int, g: Subgoal)
    requires Inv(ctx, done) && Feeds(Env(t, ctx, done), u, g)
    ensures OnStack(ctx, g) && g !in done
  {
    assert ThreadRight(ctx, done, u);
    var i :| 0 <= i < |ctx[u].tdl| && ctx[u].tdl[i].subgoal == g;
    assert EntryRight(ctx, done, u, ctx[u].tdl[i]);
  }

  lemma ReadyToUpdate(ctx: map<int, Context>, done: set<Subgoal>, t: int, l0: seq<Dep>)
    requires Inv(ctx, done) && t in ctx && forall i :: 0 <= i < |l0| ==> LiveElsewhere(ctx, done, t, l0[i].subgoal)
    ensures WellListed(Env(t, ctx, done), l0)
  {
    var env := Env(t, ctx, done);
    forall u, g | Feeds(env, u, g)
      ensures g.tid in ctx
    {
      FedLive(ctx, done, t, u, g);
    }
    forall i | 0 <= i < |l0|
      ensures Foreign(env, l0[i].subgoal)
    {
      assert LiveElsewhere(ctx, done, t, l0[i].subgoal);
    }
  }

  /** Everything on the updated list is still incomplete. */
  lemma ListLive(ctx: map<int, Context>, done: set<Subgoal>, t: int, l0: seq<Dep>, l: seq<Dep>, i: int)
    requires Inv(ctx, done) && Growing(Env(t, ctx, done), l0, l) && 0 <= i < |l|
    requires forall k :: 0 <= k < |l0| ==> LiveElsewhere(ctx, done, t, l0[k].subgoal)
    ensures LiveElsewhere(ctx, done, t, l[i].subgoal)
  {
    var env, g := Env(t, ctx, done), l[i].subgoal;
    assert Seen(env, l0, l, l[i].subgoal);
    if exists k :: 0 <= k < |l0| && l0[k].subgoal == g {
      var k :| 0 <= k < |l0| && l0[k].subgoal == g;
      assert LiveElsewhere(ctx, done, t, l0[k].subgoal);
    } else {
      var u :| Lists(l, u) && Feeds(env, u, g);
      FedLive(ctx, done, t, u, g);
    }
  }

  /** A blocked thread whose leader is at least as old as one of its incomplete subgoals has not been completed. */
  lemma StillWaiting(ctx: map<int, Context>, done: set<Subgoal>, g: Subgoal)
    requires OnStack(ctx, g) && ThreadRight(ctx, done, g.tid) && ctx[g.tid].completing && ctx[g.tid].ccLeader >= g.ptr
    ensures !ctx[g.tid].completed && 0 <= -ctx[g.tid].ccLeader < |ctx[g.tid].stack|
  {
  }

  /** A subgoal covered by the list of the completing thread is in its thread's completed part. */
  lemma CoveredAccounted(ctx: map<int, Context>, done: set<Subgoal>, t: int, csPtr: int, g: Subgoal)
    requires t in ctx && Covers(ctx[t].tdl, g) && SameScc(ctx, t) && Placed(ctx, done, g) && g.tid != t
    ensures Accounted(ctx, done, t, csPtr, g)
  {
    var k :| 0 <= k < |ctx[t].tdl| && AsOld(ctx[t].tdl[k].subgoal, g);
    assert SameSccAs(ctx, t, ctx[t].tdl[k].subgoal);
  }

  lemma SectionOfSelf(ctx: map<int, Context>, done: set<Subgoal>, t: int, csPtr: int, l0: seq<Dep>)
    requires t in ctx && StackRight(ctx, done, t) && SameScc(ctx, t)
    requires SectionListed(done, t, ctx[t].stack, csPtr, l0) && Within(l0, ctx[t].tdl)
    ensures SectionClosed(ctx, done, t, csPtr, t)
  {
    forall i | 0 <= -csPtr <= i < |ctx[t].stack|
      ensures Accounted(ctx, done, t, csPtr, ctx[t].stack[i])
    {
      var g := ctx[t].stack[i];
      assert Placed(ctx, done, g);
      if g.tid != t && g !in done {
        var k :| 0 <= k < |l0| && AsOld(l0[k].subgoal, g) && l0[k].subgoal !in done;
        CoversWithin(l0, ctx[t].tdl, g);
        CoveredAccounted(ctx, done, t, csPtr, g);
      }
    }
  }

  lemma SectionOfMember(ctx: map<int, Context>, done: set<Subgoal>, t: int, csPtr: int, u: int)
    requires t in ctx && u in ctx && u != t && Lists(ctx[t].tdl, u) && ThreadRight(ctx, done, u) && SameScc(ctx, t)
    requires ctx[u].completing && !ctx[u].completed
    requires Closed(Env(t, ctx, done), ctx[t].tdl) && LeaderHeeds(Env(t, ctx, done), ctx[t].tdl, csPtr)
    ensures SectionClosed(ctx, done, t, csPtr, u)
  {
    var env := Env(t, ctx, done);
    var s, l := ctx[u].stack, ctx[u].tdl;
    forall i | 0 <= -ctx[u].ccLeader <= i < |s|
      ensures Accounted(ctx, done, t, csPtr, s[i])
    {
      var g := s[i];
      assert Placed(ctx, done, g);
      if g.tid != u && g !in done {
        assert CoversLive(done, l, s[i]);
        var k :| 0 <= k < |l| && AsOld(l[k].subgoal, g) && l[k].subgoal !in done;
        assert Feeds(env, u, l[k].subgoal);
        if g.tid != t {
          assert Covers(ctx[t].tdl, l[k].subgoal);
          CoversOlder(ctx[t].tdl, l[k].subgoal, g);
          CoveredAccounted(ctx, done, t, csPtr, g);
        }
      }
    }
  }

  lemma CoversOlder(l: seq<Dep>, e: Subgoal, g: Subgoal)
    requires Covers(l, e) && AsOld(e, g)
    ensures Covers(l, g)
  {
    var i :| 0 <= i < |l| && AsOld(l[i].subgoal, e);
    assert AsOld(l[i].subgoal, g);
  }

  lemma MemberIsReady(ctx: map<int, Context>, done: set<Subgoal>, t: int, u: int)
    requires t in ctx && u in ctx && Lists(ctx[t].tdl, u) && ThreadRight(ctx, done, u)
    requires ctx[u].completing && !ctx[u].completed && AnswersCurrent(ctx, t) && SameScc(ctx, t)
    ensures MemberReady(ctx, t, u)
  {
    var k :| 0 <= k < |ctx[t].tdl| && ctx[t].tdl[k].subgoal.tid == u;
    assert SameSccAs(ctx, t, ctx[t].tdl[k].subgoal);
    forall i | 0 <= i < |ctx[u].tdl|
      ensures CurrentEntry(ctx, t, ctx[u].tdl[i])
    {
      assert EntryRight(ctx, done, u, ctx[u].tdl[i]);
    }
  }

  /** The environment of an update does not look at the updating thread's own list. */
  lemma SameEnvironment(ctx: map<int, Context>, done: set<Subgoal>, t: int, l: seq<Dep>)
    requires t in ctx && !ctx[t].completing
    ensures var ctx' := ctx[t := ctx[t].(tdl := l)];
      forall u, g :: Feeds(Env(t, ctx', done), u, g) <==> Feeds(Env(t, ctx, done), u, g)
  {
  }

  lemma SetListKeeps(ctx: map<int, Context>, done: set<Subgoal>, t: int, l: seq<Dep>)
    requires Inv(ctx, done) && t in ctx && !ctx[t].completing
    ensures Inv(ctx[t := ctx[t].(tdl := l)], done)
  {
    var ctx' := ctx[t := ctx[t].(tdl := l)];
    assert forall g :: OnStack(ctx', g) <==> OnStack(ctx, g);
    forall u | u in ctx'
      ensures ThreadRight(ctx', done, u)
    {
      assert ThreadRight(ctx, done, u);
      if ctx[u].completing {
        forall i | 0 <= i < |ctx[u].tdl|
          ensures EntryRight(ctx', done, u, ctx[u].tdl[i])
        {
          assert EntryRight(ctx, done, u, ctx[u].tdl[i]);
        }
      }
    }
  }

  /** A thread that passes all tests, with its list just brought up to date, may complete the group. */
  lemma TestsSuffice(ctx: map<int, Context>, done: set<Subgoal>, t: int, csPtr: int, l0: seq<Dep>, leader: int)
    requires Inv(ctx, done) && t in ctx && !ctx[t].completing && 0 <= -csPtr < |ctx[t].stack|
    requires FirstList(ctx, done, t, csPtr, l0)
    requires Updated(Env(t, ctx, done), l0, ctx[t].tdl, csPtr, leader, false) && leader <= csPtr
    requires AnswersCurrent(ctx, t) && SameScc(ctx, t)
    ensures GroupSafe(ctx, done, t, csPtr)
  {
    var env, l := Env(t, ctx, done), ctx[t].tdl;
    assert ThreadRight(ctx, done, t);
    SectionOfSelf(ctx, done, t, csPtr, l0);
    forall u | Lists(l, u)
      ensures u in ctx && u != t && MemberReady(ctx, t, u) && 0 <= -ctx[u].ccLeader < |ctx[u].stack| && SectionClosed(ctx, done, t, csPtr, u)
    {
      var k :| 0 <= k < |l| && l[k].subgoal.tid == u;
      ListLive(ctx, done, t, l0, l, k);
      assert SameSccAs(ctx, t, l[k].subgoal);
      assert ThreadRight(ctx, done, u) && !AnyWorking(env, l);
      StillWaiting(ctx, done, l[k].subgoal);
      MemberIsReady(ctx, done, t, u);
      SectionOfMember(ctx, done, t, csPtr, u);
    }
  }

  // ----- the parts of a step -----

  /** The frames from i up have been looked at. */
  ghost predicate Collected(ctx: map<int, Context>, done: set<Subgoal>, t: int, csPtr: int, i: int, l: seq<Dep>)
    requires t in ctx
  {
    var stack := ctx[t].stack;
    && OnePerThread(l) && |l| < MAX_THREAD_DEPS
    && (forall k {:trigger stack[k]} :: 0 <= i <= k < |stack| && stack[k].tid != t && stack[k] !in done ==> Covers(l, stack[k]))
    && (forall k {:trigger Collectable(ctx, done, t, csPtr, l[k].subgoal)} :: 0 <= k < |l| ==> Collectable(ctx, done, t, csPtr, l[k].subgoal))
  }

  ghost predicate Collectable(ctx: map<int, Context>, done: set<Subgoal>, t: int, csPtr: int, g: Subgoal)
    requires t in ctx
  {
    LiveElsewhere(ctx, done, t, g) && InSection(ctx[t].stack, csPtr, g)
  }

  lemma CollectedNext(ctx: map<int, Context>, done: set<Subgoal>, t: int, csPtr: int, i: int, l: seq<Dep>, l': seq<Dep>)
    requires t in ctx && 0 <= -csPtr <= i < |ctx[t].stack| && Collected(ctx, done, t, csPtr, i + 1, l)
    requires Collectable(ctx, done, t, csPtr, ctx[t].stack[i]) && Inserted(l, ctx[t].stack[i], l') && |l'| < MAX_THREAD_DEPS
    ensures Collected(ctx, done, t, csPtr, i, l')
  {
    var stack, g := ctx[t].stack, ctx[t].stack[i];
    InsertedKeeps(l, g, l');
    forall k | i <= k < |stack| && stack[k].tid != t && stack[k] !in done
      ensures Covers(l', stack[k])
    {
      InsertedCovers(l, g, l', stack[k]);
    }
    forall k | 0 <= k < |l'|
      ensures Collectable(ctx, done, t, csPtr, l'[k].subgoal)
    {
      if l'[k].subgoal != g { assert Collectable(ctx, done, t, csPtr, l[k].subgoal); }
    }
  }

  lemma CollectedAll(ctx: map<int, Context>, done: set<Subgoal>, t: int, csPtr: int, l: seq<Dep>)
    requires t in ctx && 0 <= -csPtr && Collected(ctx, done, t, csPtr, -csPtr, l)
    ensures FirstList(ctx, done, t, csPtr, l)
  {
    var stack := ctx[t].stack;
    forall k | 0 <= k < |l|
      ensures LiveElsewhere(ctx, done, t, l[k].subgoal) && InSection(stack, csPtr, l[k].subgoal)
    {
      assert Collectable(ctx, done, t, csPtr, l[k].subgoal);
    }
    forall k | 0 <= -csPtr <= k < |stack| && stack[k].tid != t && stack[k] !in done
      ensures CoversLive(done, l, stack[k])
    {
      var j :| 0 <= j < |l| && AsOld(l[j].subgoal, stack[k]);
      assert LiveElsewhere(ctx, done, t, l[j].subgoal);
    }
  }

  lemma TooManyHere(ctx: map<int, Context>, done: set<Subgoal>, t: int, csPtr: int, i: int, l: seq<Dep>, g: Subgoal)
    requires t in ctx && Collected(ctx, done, t, csPtr, i, l) && Collectable(ctx, done, t, csPtr, g)
    requires |l| == MAX_THREAD_DEPS - 1 && !Lists(l, g.tid)
    ensures forall m {:trigger SectionListed(done, t, ctx[t].stack, csPtr, m)} ::
              SectionListed(done, t, ctx[t].stack, csPtr, m) ==> |m| >= MAX_THREAD_DEPS
  {
    var stack := ctx[t].stack;
    var l' := l + [Dep(g, 0)];
    assert forall k :: 0 <= k < |l| ==> l'[k] == l[k] && l[k].subgoal.tid != g.tid;
    forall m | SectionListed(done, t, stack, csPtr, m)
      ensures |m| >= MAX_THREAD_DEPS
    {
      forall k | 0 <= k < |l'|
        ensures Lists(m, l'[k].subgoal.tid)
      {
        if k < |l| { assert Collectable(ctx, done, t, csPtr, l[k].subgoal); }
        ListedThere(ctx, done, t, csPtr, l'[k].subgoal, m);
      }
      WithinLonger(l', m);
    }
  }

  lemma ListedThere(ctx: map<int, Context>, done: set<Subgoal>, t: int, csPtr: int, g: Subgoal, m: seq<Dep>)
    requires t in ctx && Collectable(ctx, done, t, csPtr, g) && SectionListed(done, t, ctx[t].stack, csPtr, m)
    ensures Lists(m, g.tid)
  {
    var i :| 0 <= -csPtr <= i < |ctx[t].stack| && ctx[t].stack[i] == g;
    assert CoversLive(done, m, ctx[t].stack[i]);
  }

  /** Collects the other threads' incomplete subgoals from the top frame down to the leader's. */
  method FindFixpoint(ctx: map<int, Context>, done: set<Subgoal>, t: int, csPtr: int) returns (l: seq<Dep>, aborted: bool)
    requires t in ctx && StackRight(ctx, done, t) && 0 <= -csPtr < |ctx[t].stack|
    ensures !aborted ==> FirstList(ctx, done, t, csPtr, l) && OnePerThread(l) && |l| < MAX_THREAD_DEPS
    ensures aborted ==> forall m {:trigger SectionListed(done, t, ctx[t].stack, csPtr, m)} ::
              SectionListed(done, t, ctx[t].stack, csPtr, m) ==> |m| >= MAX_THREAD_DEPS
  {
    l, aborted := [], false;
    var stack := ctx[t].stack;
    var i := |stack|;
    while i > -csPtr
      invariant -csPtr <= i <= |stack| && Collected(ctx, done, t, csPtr, i, l)
    {
      i := i - 1;
      var g := stack[i];
      if g.tid != t && g !in done {
        var changed;
        ghost var was := l;
        assert Placed(ctx, done, g) && InSection(stack, csPtr, g);
        l, changed, aborted := CheckInsSubg(l, g);
        if aborted {
          TooManyHere(ctx, done, t, csPtr, i + 1, was, g);
          return;
        }
        CollectedNext(ctx, done, t, csPtr, i, was, l);
      }
    }
    CollectedAll(ctx, done, t, csPtr, l);
  }

  /** Whether some listed thread recorded a count that is out of date. */
  method MayHaveAnswers(ctx: map<int, Context>, t: int) returns (stale: bool)
    requires t in ctx && forall k :: 0 <= k < |ctx[t].tdl| ==> ctx[t].tdl[k].subgoal.tid in ctx
    ensures stale <==> !AnswersCurrent(ctx, t)
  {
    stale := false;
    var l := ctx[t].tdl;
    for k := 0 to |l|
      invariant stale ==> !AnswersCurrent(ctx, t)
      invariant !stale ==> forall j :: 0 <= j < k ==> CountsCurrent(ctx, l[j].subgoal.tid)
    {
      var u := l[k].subgoal.tid;
      assert Lists(l, u);
      var m := ctx[u].tdl;
      ghost var before := stale;
      for i := 0 to |m|
        invariant stale ==> !AnswersCurrent(ctx, t)
        invariant before ==> stale
        invariant !stale ==> forall j :: 0 <= j < i ==> m[j].subgoal.tid in ctx && m[j].last >= ctx[m[j].subgoal.tid].lastAns
      {
        if m[i].subgoal.tid !in ctx || m[i].last < ctx[m[i].subgoal.tid].lastAns { stale := true; }
      }
    }
    if !stale {
      forall u | Lists(l, u)
        ensures u in ctx && CountsCurrent(ctx, u)
      {
        var j :| 0 <= j < |l| && l[j].subgoal.tid == u;
        assert CountsCurrent(ctx, l[j].subgoal.tid);
      }
    }
  }

  ghost predicate CountsCurrent(ctx: map<int, Context>, u: int) {
    u in ctx ==> forall i :: 0 <= i < |ctx[u].tdl| ==>
      ctx[u].tdl[i].subgoal.tid in ctx && ctx[u].tdl[i].last >= ctx[ctx[u].tdl[i].subgoal.tid].lastAns
  }

  method SameThreads(ctx: map<int, Context>, t: int, g: Subgoal) returns (same: bool)
    requires t in ctx && g.tid in ctx
    ensures same <==> SameSccAs(ctx, t, g)
  {
    if ctx[g.tid].ccLeader < g.ptr { return false; }
    var mine, theirs := ctx[t].tdl, ctx[g.tid].tdl;
    for i := 0 to |theirs|
      invariant forall j :: 0 <= j < i ==> InGroup(ctx, t, theirs[j].subgoal.tid)
    {
      var k := FindTid(mine, theirs[i].subgoal.tid);
      if theirs[i].subgoal.tid != t && k == -1 { return false; }
    }
    for i := 0 to |mine|
      invariant forall j :: 0 <= j < i ==> mine[j].subgoal.tid == g.tid || Lists(theirs, mine[j].subgoal.tid)
    {
      var k := FindTid(theirs, mine[i].subgoal.tid);
      if mine[i].subgoal.tid != g.tid && k == -1 { return false; }
    }
    same := true;
  }

  method CheckForSCC(ctx: map<int, Context>, t: int) returns (same: bool)
    requires t in ctx && forall k :: 0 <= k < |ctx[t].tdl| ==> ctx[t].tdl[k].subgoal.tid in ctx
    ensures same <==> SameScc(ctx, t)
  {
    var l := ctx[t].tdl;
    for k := 0 to |l|
      invariant forall j :: 0 <= j < k ==> SameSccAs(ctx, t, l[j].subgoal)
    {
      same := SameThreads(ctx, t, l[k].subgoal);
      if !same { return; }
    }
    same := true;
  }

  // ----- one thread's change as the others see it -----

  /** Thread t's stack and answer count only grow. */
  ghost predicate Grows(c: Context, c': Context) {
    |c.stack| <= |c'.stack| && c'.stack[..|c.stack|] == c.stack && c.lastAns <= c'.lastAns
  }

  lemma GrowsKeepsPlaced(ctx: map<int, Context>, done: set<Subgoal>, t: int, c': Context, g: Subgoal)
    requires t in ctx && Grows(ctx[t], c') && Placed(ctx, done, g)
    ensures Placed(ctx[t := c'], done, g)
  {
    if g.tid == t && g !in done { assert c'.stack[-g.ptr] == ctx[t].stack[-g.ptr]; }
  }

  lemma GrowsKeepsList(ctx: map<int, Context>, done: set<Subgoal>, t: int, c': Context, u: int, l: seq<Dep>)
    requires t in ctx && Grows(ctx[t], c')
    requires forall i :: 0 <= i < |l| ==> EntryRight(ctx, done, u, l[i])
    ensures forall i :: 0 <= i < |l| ==> EntryRight(ctx[t := c'], done, u, l[i])
  {
    forall i | 0 <= i < |l|
      ensures EntryRight(ctx[t := c'], done, u, l[i])
    {
      GrowsKeepsPlaced(ctx, done, t, c', l[i].subgoal);
    }
  }

  lemma GrowsKeepsOthers(ctx: map<int, Context>, done: set<Subgoal>, t: int, c': Context, u: int)
    requires t in ctx && Grows(ctx[t], c') && u in ctx && u != t && ThreadRight(ctx, done, u)
    ensures ThreadRight(ctx[t := c'], done, u)
  {
    var ctx' := ctx[t := c'];
    forall i | 0 <= i < |ctx[u].stack|
      ensures Placed(ctx', done, ctx[u].stack[i])
    {
      GrowsKeepsPlaced(ctx, done, t, c', ctx[u].stack[i]);
    }
    if ctx[u].completing { GrowsKeepsList(ctx, done, t, c', u, ctx[u].tdl); }
  }

  /** A thread that is not blocked may push frames and count answers. */
  lemma GrowsKeeps(ctx: map<int, Context>, done: set<Subgoal>, t: int, c': Context)
    requires Inv(ctx, done) && t in ctx && Grows(ctx[t], c') && !c'.completing
    requires forall i :: |ctx[t].stack| <= i < |c'.stack| ==>
               Placed(ctx[t := c'], done, c'.stack[i]) && (c'.stack[i].tid == t ==> c'.stack[i].ptr == -i)
    ensures Inv(ctx[t := c'], done)
  {
    var ctx' := ctx[t := c'];
    assert ThreadRight(ctx, done, t);
    forall i | 0 <= i < |c'.stack|
      ensures Placed(ctx', done, c'.stack[i]) && (c'.stack[i].tid == t ==> c'.stack[i].ptr == -i)
    {
      if i < |ctx[t].stack| {
        assert c'.stack[i] == ctx[t].stack[i];
        GrowsKeepsPlaced(ctx, done, t, c', ctx[t].stack[i]);
      }
    }
    forall u | u in ctx'
      ensures ThreadRight(ctx', done, u)
    {
      assert ThreadRight(ctx, done, u);
      if u != t { GrowsKeepsOthers(ctx, done, t, c', u); }
    }
  }

  /** A thread that goes to wait has listed all that its section depends on, with current counts. */
  lemma WaitKeeps(ctx: map<int, Context>, done: set<Subgoal>, t: int, csPtr: int, l0: seq<Dep>, leader: int, busy: bool)
    requires Inv(ctx, done) && t in ctx && !ctx[t].completing && 0 <= -csPtr < |ctx[t].stack|
    requires FirstList(ctx, done, t, csPtr, l0) && Updated(Env(t, ctx, done), l0, ctx[t].tdl, csPtr, leader, busy)
    ensures Inv(ctx[t := ctx[t].(completing := true, completed := false, ccLeader := csPtr)], done)
  {
    var env, l, stack := Env(t, ctx, done), ctx[t].tdl, ctx[t].stack;
    var c' := ctx[t].(completing := true, completed := false, ccLeader := csPtr);
    var ctx' := ctx[t := c'];
    assert ThreadRight(ctx, done, t);
    forall i | 0 <= i < |l|
      ensures EntryRight(ctx, done, t, l[i]) && l[i].subgoal !in done
    {
      ListLive(ctx, done, t, l0, l, i);
      assert Fresh(env, l[i]) && ThreadRight(ctx, done, l[i].subgoal.tid);
    }
    GrowsKeepsList(ctx, done, t, c', t, l);
    forall i | 0 <= i < |stack|
      ensures Placed(ctx', done, stack[i])
    {
      GrowsKeepsPlaced(ctx, done, t, c', stack[i]);
    }
    forall i | 0 <= -csPtr <= i < |stack| && stack[i].tid != t && stack[i] !in done
      ensures CoversLive(done, l, stack[i])
    {
      var k :| 0 <= k < |l0| && AsOld(l0[k].subgoal, stack[i]) && l0[k].subgoal !in done;
      CoversWithin(l0, l, stack[i]);
    }
    forall u | u in ctx'
      ensures ThreadRight(ctx', done, u)
    {
      assert ThreadRight(ctx, done, u);
      if u != t { GrowsKeepsOthers(ctx, done, t, c', u); }
    }
  }

  // ----- the threads -----

  /** How a thread leaves the loop, or that it goes to wait. */
  datatype Outcome = Resumed | LeaderMoved | Undelayed | CompletedAlone | CompletedGroup | Waits | Aborted

  /** No list of allowed length holds all that the thread's section depends on. */
  ghost predicate NoListFits(ctx: map<int, Context>, done: set<Subgoal>, t: int, csPtr: int)
    requires t in ctx
  {
    || (forall m {:trigger SectionListed(done, t, ctx[t].stack, csPtr, m)} ::
          SectionListed(done, t, ctx[t].stack, csPtr, m) ==> |m| >= MAX_THREAD_DEPS)
    || exists l0 :: FirstList(ctx, done, t, csPtr, l0) && TooMany(Env(t, ctx, done), l0)
  }

  /** The thread's list is the dependency fixpoint, and `busy` says whether a listed thread works. */
  ghost predicate ListedAnew(ctx: map<int, Context>, done: set<Subgoal>, t: int, csPtr: int, busy: bool)
    requires t in ctx
  {
    exists l0, leader :: FirstList(ctx, done, t, csPtr, l0) && Updated(Env(t, ctx, done), l0, ctx[t].tdl, csPtr, leader, busy)
  }

  /** A listed thread depends on a subgoal of t older than its leader. */
  ghost predicate OlderNeeded(ctx: map<int, Context>, done: set<Subgoal>, t: int, csPtr: int)
    requires t in ctx
  {
    exists u, g :: Lists(ctx[t].tdl, u) && Feeds(Env(t, ctx, done), u, g) && g.tid == t && g.ptr > csPtr
  }

  /** What a thread that holds the mutex does, by what it finds; `mid` is the state with its list brought up to date. */
  ghost predicate TurnTaken(ctx: map<int, Context>, done: set<Subgoal>, t: int, csPtr: int, found: bool, settles: bool,
                            outcome: Outcome, mid: map<int, Context>, busy: bool, ctx': map<int, Context>, done': set<Subgoal>)
    requires t in ctx
  {
    if found then outcome == Resumed && ctx' == ctx[t := ctx[t].(lastAns := ctx[t].lastAns + 1)] && done' == done
    else if outcome == Aborted then NoListFits(ctx, done, t, csPtr) && ctx' == ctx && done' == done
    else
      && t in mid && mid == ctx[t := ctx[t].(tdl := mid[t].tdl)] && ListedAnew(mid, done, t, csPtr, busy)
      && if OlderNeeded(mid, done, t, csPtr) then outcome == LeaderMoved && ctx' == mid && done' == done
         else if mid[t].tdl == [] && !settles then outcome == Undelayed && ctx' == mid && done' == done
         else if mid[t].tdl == [] || GroupReady(mid, t) then
           && outcome == (if mid[t].tdl == [] then CompletedAlone else CompletedGroup)
           && GroupSafe(mid, done, t, csPtr) && GroupCompleted(mid, done, t, csPtr, ctx', done')
         else outcome == Waits && done' == done && ctx' == mid[t := mid[t].(completing := true, completed := false, ccLeader := csPtr)]
  }

  /** The moment of a completion: who completes, and from which frame. */
  datatype Moment = Moment(ctx: map<int, Context>, done: set<Subgoal>, t: int, csPtr: int)

  datatype Event =
    | CallsOwn(t: int, id: nat)
    | CallsOther(t: int, g: Subgoal)
    | Checks(t: int, csPtr: int, found: bool, settles: bool)
    | Wakes(t: int, found: bool, settles: bool)

  /** What an event does: nothing if the thread is not in a position for it. */
  ghost predicate Happened(e: Event, ctx: map<int, Context>, done: set<Subgoal>, ctx': map<int, Context>, done': set<Subgoal>) {
    forall k {:trigger Open(k)} :: Open(k) ==>
      if e.t !in ctx || (if e.Wakes? then !ctx[e.t].completing else ctx[e.t].completing) then ctx' == ctx && done' == done
      else match e
        case CallsOwn(t, id) =>
          ctx' == ctx[t := ctx[t].(stack := ctx[t].stack + [Subgoal(id, t, -|ctx[t].stack|)])] && done' == done
        case CallsOther(t, g) =>
          && done' == done
          && ctx' == if g.tid != t && OnStack(ctx, g) then ctx[t := ctx[t].(stack := ctx[t].stack + [g])] else ctx
        case Checks(t, csPtr, found, settles) =>
          if 0 <= -csPtr < |ctx[t].stack|
          then exists outcome, mid, busy :: TurnTaken(ctx, done, t, csPtr, found, settles, outcome, mid, busy, ctx', done')
          else ctx' == ctx && done' == done
        case Wakes(t, found, settles) =>
          var ctx0 := ctx[t := ctx[t].(completing := false)];
          if ctx[t].completed then ctx' == ctx0 && done' == done
          else exists outcome, mid, busy :: TurnTaken(ctx0, done, t, ctx[t].ccLeader, found, settles, outcome, mid, busy, ctx', done')
  }

  /** Threads that have called nothing. */
  function Start(tids: set<int>): map<int, Context> {
    map t | t in tids :: Context(false, false, 1, 0, [], [])
  }

  class Threads {
    var ctx: map<int, Context>
    var done: set<Subgoal>
    /** All completions so far. */
    ghost var history: seq<Moment>

    ghost predicate Valid()
      reads this
    {
      && Inv(ctx, done)
      && forall k :: 0 <= k < |history| ==> GroupSafe(history[k].ctx, history[k].done, history[k].t, history[k].csPtr)
    }

    constructor (tids: set<int>)
      ensures Valid() && ctx == Start(tids) && done == {} && history == []
    {
      ctx := Start(tids);
      done, history := {}, [];
    }

    /** Marks what the frames from the leader up refer to, and pops them. */
    method CompleteTop(u: int, leader: int)
      requires u in ctx && 0 <= -leader <= |ctx[u].stack|
      modifies this`ctx, this`done
      ensures ctx == old(ctx)[u := old(ctx)[u].(stack := old(ctx)[u].stack[..-leader])]
      ensures forall g :: g in done <==> g in old(done) || InSection(old(ctx)[u].stack, leader, g)
    {
      var stack := ctx[u].stack;
      var i := -leader;
      while i < |stack|
        invariant -leader <= i <= |stack| && ctx == old(ctx)
        invariant forall g :: g in done <==> g in old(done) || InSection(stack[..i], leader, g)
      {
        ghost var was := done;
        done := done + {stack[i]};
        SectionNext(stack, i, leader);
        i := i + 1;
      }
      assert stack[..i] == stack;
      ctx := ctx[u := ctx[u].(stack := stack[..-leader])];
    }

    method CompleteOtherThreads(t: int)
      requires t in ctx && OnePerThread(ctx[t].tdl) && !Lists(ctx[t].tdl, t)
      requires forall u :: Lists(ctx[t].tdl, u) ==> u in ctx && 0 <= -ctx[u].ccLeader <= |ctx[u].stack|
      modifies this`ctx, this`done
      ensures ctx.Keys == old(ctx.Keys)
      ensures forall u :: u in ctx ==> ctx[u] == if Lists(old(ctx)[t].tdl, u) then Completed(old(ctx)[u]) else old(ctx)[u]
      ensures forall g :: g in done <==> g in old(done) || SomeSection(old(ctx), old(ctx)[t].tdl, g)
    {
      var l := ctx[t].tdl;
      ghost var ctx0 := ctx;
      var k := 0;
      while k < |l|
        invariant 0 <= k <= |l| && ctx.Keys == ctx0.Keys
        invariant forall u :: u in ctx ==> ctx[u] == if Lists(l[..k], u) then Completed(ctx0[u]) else ctx0[u]
        invariant forall g :: g in done <==> g in old(done) || SomeSection(ctx0, l[..k], g)
      {
        var u := l[k].subgoal.tid;
        ListsNext(l, k);
        assert Lists(l, u);
        CompleteTop(u, ctx[u].ccLeader);
        ctx := ctx[u := ctx[u].(completed := true)];
        SomeSectionNext(ctx0, l, k);
        k := k + 1;
      }
      assert l[..k] == l;
    }

    /** Completes the group of waiting threads, and this thread's own section. */
    method CompleteAll(t: int, csPtr: int)
      requires Valid() && GroupSafe(ctx, done, t, csPtr) && !ctx[t].completing && OnePerThread(ctx[t].tdl)
      modifies this
      ensures Valid() && GroupCompleted(old(ctx), old(done), t, csPtr, ctx, done)
      ensures history == old(history) + [Moment(old(ctx), old(done), t, csPtr)]
    {
      history := history + [Moment(ctx, done, t, csPtr)];
      CompleteOtherThreads(t);
      ghost var ctx1, done1 := ctx, done;
      CompleteTop(t, csPtr);
      BothParts(old(ctx), old(done), t, csPtr, ctx1, done1, ctx, done);
      GroupKeeps(old(ctx), old(done), t, csPtr, ctx, done);
    }

    /** Finds the thread's dependencies and follows them; the list is least and closed. */
    method UpdateList(t: int, csPtr: int) returns (leader: int, busy: bool, aborted: bool, ghost l0: seq<Dep>)
      requires Valid() && t in ctx && !ctx[t].completing && 0 <= -csPtr < |ctx[t].stack|
      modifies this`ctx
      ensures Valid()
      ensures !aborted ==> t in ctx && ctx == old(ctx)[t := old(ctx)[t].(tdl := ctx[t].tdl)] && FirstList(ctx, done, t, csPtr, l0)
      ensures !aborted ==> Updated(Env(t, ctx, done), l0, ctx[t].tdl, csPtr, leader, busy)
      ensures aborted ==> ctx == old(ctx) && NoListFits(ctx, done, t, csPtr)
    {
      assert ThreadRight(ctx, done, t);
      leader, busy := csPtr, false;
      var first, l;
      first, aborted := FindFixpoint(ctx, done, t, csPtr);
      l0 := first;
      if aborted { return; }
      ReadyToUpdate(ctx, done, t, l0);
      l, leader, busy, aborted := UpdateDeps(Env(t, ctx, done), first, csPtr);
      if aborted { return; }
      SetListKeeps(ctx, done, t, l);
      SetListUpdated(ctx, done, t, csPtr, l0, l, leader, busy);
      ctx := ctx[t := ctx[t].(tdl := l)];
    }

    /** With the list up to date: complete the group if every test passes, else wait. */
    method CompleteOrWait(t: int, csPtr: int, busy: bool, ghost l0: seq<Dep>, ghost leader: int) returns (outcome: Outcome)
      requires Valid() && t in ctx && !ctx[t].completing && 0 <= -csPtr < |ctx[t].stack| && leader <= csPtr
      requires FirstList(ctx, done, t, csPtr, l0) && Updated(Env(t, ctx, done), l0, ctx[t].tdl, csPtr, leader, busy)
      modifies this
      ensures Valid() && outcome in {CompletedGroup, Waits}
      ensures outcome == CompletedGroup ==>
                GroupSafe(old(ctx), old(done), t, csPtr) && GroupCompleted(old(ctx), old(done), t, csPtr, ctx, done)
                && history == old(history) + [Moment(old(ctx), old(done), t, csPtr)]
      ensures outcome == Waits ==> history == old(history) && done == old(done) && ctx == old(ctx)[t := old(ctx)[t].(completing := true, completed := false, ccLeader := csPtr)]
      ensures outcome == CompletedGroup <==> GroupReady(old(ctx), t)
    {
      ReadyIff(ctx, done, t, csPtr, l0, leader, busy);
      if !busy {
        ListedContexts(ctx, done, t, l0, leader, csPtr, busy);
        var stale := MayHaveAnswers(ctx, t);
        if !stale {
          var same := CheckForSCC(ctx, t);
          if same {
            TestsSuffice(ctx, done, t, csPtr, l0, leader);
            CompleteAll(t, csPtr);
            return CompletedGroup;
          }
        }
      }
      WaitKeeps(ctx, done, t, csPtr, l0, leader, busy);
      ctx := ctx[t := ctx[t].(completing := true, completed := false, ccLeader := csPtr)];
      return Waits;
    }

    /**
     One turn of a thread that holds the mutex: `found` says whether its section has
     unresolved answers, `settles` whether its negative literals can all be decided.
     */
    method CheckComplete(t: int, csPtr: int, found: bool, settles: bool) returns (outcome: Outcome, ghost mid: map<int, Context>, ghost busy: bool)
      requires Valid() && t in ctx && !ctx[t].completing && 0 <= -csPtr < |ctx[t].stack|
      modifies this
      ensures Valid()
      ensures TurnTaken(old(ctx), old(done), t, csPtr, found, settles, outcome, mid, busy, ctx, done)
      ensures history == old(history) + if outcome in {CompletedAlone, CompletedGroup} then [Moment(mid, old(done), t, csPtr)] else []
    {
      mid, busy := ctx, false;
      assert ThreadRight(ctx, done, t);
      if found {
        var c := ctx[t].(lastAns := ctx[t].lastAns + 1);
        GrowsKeeps(ctx, done, t, c);
        ctx := ctx[t := c];
        return Resumed, mid, busy;
      }
      var leader, working, aborted;
      ghost var l0;
      leader, working, aborted, l0 := UpdateList(t, csPtr);
      if aborted { return Aborted, mid, busy; }
      mid, busy := ctx, working;
      if leader > csPtr { return LeaderMoved, mid, busy; }
      if ctx[t].tdl == [] {
        if !settles { return Undelayed, mid, busy; }
        TestsSuffice(ctx, done, t, csPtr, l0, leader);
        CompleteAll(t, csPtr);
        return CompletedAlone, mid, busy;
      }
      outcome := CompleteOrWait(t, csPtr, working, l0, leader);
    }

    /** A blocked thread gets the mutex back: it leaves if another completed its group, else takes another turn. */
    method Wake(t: int, found: bool, settles: bool) returns (outcome: Outcome, ghost mid: map<int, Context>, ghost busy: bool)
      requires Valid() && t in ctx && ctx[t].completing
      modifies this
      ensures Valid()
      ensures var ctx0 := old(ctx)[t := old(ctx)[t].(completing := false)];
        if old(ctx)[t].completed then ctx == ctx0 && done == old(done) && history == old(history)
        else
          && TurnTaken(ctx0, old(done), t, old(ctx)[t].ccLeader, found, settles, outcome, mid, busy, ctx, done)
          && history == old(history) + if outcome in {CompletedAlone, CompletedGroup} then [Moment(mid, old(done), t, old(ctx)[t].ccLeader)] else []
    {
      assert ThreadRight(ctx, done, t);
      var c := ctx[t].(completing := false);
      GrowsKeeps(ctx, done, t, c);
      ctx := ctx[t := c];
      outcome, mid, busy := Resumed, ctx, false;
      if !c.completed {
        outcome, mid, busy := CheckComplete(t, c.ccLeader, found, settles);
      }
    }

    /** A working thread calls a new subgoal. */
    method CallOwn(t: int, id: nat)
      requires Valid() && t in ctx && !ctx[t].completing
      modifies this`ctx
      ensures Valid() && ctx == old(ctx)[t := old(ctx)[t].(stack := old(ctx)[t].stack + [Subgoal(id, t, -|old(ctx)[t].stack|)])]
    {
      var c := ctx[t].(stack := ctx[t].stack + [Subgoal(id, t, -|ctx[t].stack|)]);
      GrowsKeeps(ctx, done, t, c);
      ctx := ctx[t := c];
    }

    /** A working thread calls a subgoal that another thread is evaluating. */
    method CallOther(t: int, g: Subgoal)
      requires Valid() && t in ctx && !ctx[t].completing && g.tid != t && OnStack(ctx, g)
      modifies this`ctx
      ensures Valid() && ctx == old(ctx)[t := old(ctx)[t].(stack := old(ctx)[t].stack + [g])]
    {
      var c := ctx[t].(stack := ctx[t].stack + [g]);
      GrowsKeeps(ctx, done, t, c);
      ctx := ctx[t := c];
    }

    /** One event, if the state allows it. */
    method Happen(e: Event)
      requires Valid()
      modifies this
      ensures Valid() && Happened(e, old(ctx), old(done), ctx, done)
    {
      if e.t in ctx {
        var c := ctx[e.t];
        match e
        case CallsOwn(t, id) =>
          if !c.completing { CallOwn(t, id); }
        case CallsOther(t, g) =>
          if !c.completing && g.tid != t && g.tid in ctx && 0 <= -g.ptr < |ctx[g.tid].stack| && ctx[g.tid].stack[-g.ptr] == g {
            CallOther(t, g);
          }
        case Checks(t, csPtr, found, settles) =>
          if !c.completing && 0 <= -csPtr < |c.stack| {
            var outcome;
            ghost var mid, busy;
            outcome, mid, busy := CheckComplete(t, csPtr, found, settles);
          }
        case Wakes(t, found, settles) =>
          if c.completing {
            var outcome;
            ghost var mid, busy;
            outcome, mid, busy := Wake(t, found, settles);
          }
      }
    }
  }

  ghost predicate SomeSection(ctx: map<int, Context>, l: seq<Dep>, g: Subgoal) {
    exists u :: Lists(l, u) && u in ctx && InSection(ctx[u].stack, ctx[u].ccLeader, g)
  }

  lemma SectionNext(stack: seq<Subgoal>, i: int, leader: int)
    requires 0 <= -leader <= i < |stack|
    ensures forall g :: InSection(stack[..i + 1], leader, g) <==> InSection(stack[..i], leader, g) || g == stack[i]
  {
    forall g
      ensures InSection(stack[..i + 1], leader, g) <==> InSection(stack[..i], leader, g) || g == stack[i]
    {
      if InSection(stack[..i], leader, g) {
        var k :| 0 <= -leader <= k < i && stack[..i][k] == g;
        assert stack[..i + 1][k] == g;
      }
      if g == stack[i] { assert stack[..i + 1][i] == g; }
      if InSection(stack[..i + 1], leader, g) {
        var k :| 0 <= -leader <= k < i + 1 && stack[..i + 1][k] == g;
        if k < i { assert stack[..i][k] == g; }
      }
    }
  }

  lemma ListsNext(l: seq<Dep>, k: int)
    requires OnePerThread(l) && 0 <= k < |l|
    ensures forall t :: Lists(l[..k + 1], t) <==> Lists(l[..k], t) || t == l[k].subgoal.tid
    ensures !Lists(l[..k], l[k].subgoal.tid)
  {
    forall t
      ensures Lists(l[..k + 1], t) <==> Lists(l[..k], t) || t == l[k].subgoal.tid
    {
      if Lists(l[..k], t) {
        var i :| 0 <= i < k && l[..k][i].subgoal.tid == t;
        assert l[..k + 1][i].subgoal.tid == t;
      }
      if t == l[k].subgoal.tid { assert l[..k + 1][k].subgoal.tid == t; }
      if Lists(l[..k + 1], t) {
        var i :| 0 <= i < k + 1 && l[..k + 1][i].subgoal.tid == t;
        if i < k { assert l[..k][i].subgoal.tid == t; }
      }
    }
  }

  lemma SomeSectionNext(ctx: map<int, Context>, l: seq<Dep>, k: int)
    requires OnePerThread(l) && 0 <= k < |l| && l[k].subgoal.tid in ctx
    ensures forall g :: SomeSection(ctx, l[..k + 1], g) <==>
              SomeSection(ctx, l[..k], g) || InSection(ctx[l[k].subgoal.tid].stack, ctx[l[k].subgoal.tid].ccLeader, g)
  {
    ListsNext(l, k);
    forall g
      ensures SomeSection(ctx, l[..k + 1], g) <==>
              SomeSection(ctx, l[..k], g) || InSection(ctx[l[k].subgoal.tid].stack, ctx[l[k].subgoal.tid].ccLeader, g)
    {
      if InSection(ctx[l[k].subgoal.tid].stack, ctx[l[k].subgoal.tid].ccLeader, g) {
        assert Lists(l[..k + 1], l[k].subgoal.tid);
      }
    }
  }

  lemma BothParts(ctx: map<int, Context>, done: set<Subgoal>, t: int, csPtr: int,
                  ctx1: map<int, Context>, done1: set<Subgoal>, ctx2: map<int, Context>, done2: set<Subgoal>)
    requires GroupSafe(ctx, done, t, csPtr) && ctx1.Keys == ctx.Keys
    requires forall u :: Lists(ctx[t].tdl, u) ==> u in ctx && 0 <= -ctx[u].ccLeader <= |ctx[u].stack|
    requires forall u :: u in ctx ==> ctx1[u] == if Lists(ctx[t].tdl, u) then Completed(ctx[u]) else ctx[u]
    requires forall g :: g in done1 <==> g in done || SomeSection(ctx, ctx[t].tdl, g)
    requires ctx2 == ctx1[t := ctx1[t].(stack := ctx1[t].stack[..-csPtr])]
    requires forall g :: g in done2 <==> g in done1 || InSection(ctx1[t].stack, csPtr, g)
    ensures GroupCompleted(ctx, done, t, csPtr, ctx2, done2)
  {
    forall g
      ensures g in done2 <==> g in done || exists u :: u in ctx && InGroup(ctx, t, u) && InSection(ctx[u].stack, LeaderOf(ctx, t, csPtr, u), g)
    {
      if InSection(ctx[t].stack, csPtr, g) {
        assert InGroup(ctx, t, t) && InSection(ctx[t].stack, LeaderOf(ctx, t, csPtr, t), g);
      }
      if SomeSection(ctx, ctx[t].tdl, g) {
        var u :| Lists(ctx[t].tdl, u) && u in ctx && InSection(ctx[u].stack, ctx[u].ccLeader, g);
        assert InGroup(ctx, t, u) && InSection(ctx[u].stack, LeaderOf(ctx, t, csPtr, u), g);
      }
    }
  }

  /** Storing the list does not change what it is a fixpoint of. */
  lemma SetListUpdated(ctx: map<int, Context>, done: set<Subgoal>, t: int, csPtr: int, l0: seq<Dep>, l: seq<Dep>, leader: int, busy: bool)
    requires t in ctx && !ctx[t].completing && FirstList(ctx, done, t, csPtr, l0)
    requires Updated(Env(t, ctx, done), l0, l, csPtr, leader, busy)
    ensures FirstList(ctx[t := ctx[t].(tdl := l)], done, t, csPtr, l0)
    ensures Updated(Env(t, ctx[t := ctx[t].(tdl := l)], done), l0, l, csPtr, leader, busy)
  {
    var env, env' := Env(t, ctx, done), Env(t, ctx[t := ctx[t].(tdl := l)], done);
    SameEnvironment(ctx, done, t, l);
    forall m
      ensures Closed(env', m) <==> Closed(env, m)
    {
    }
    forall i | 0 <= i < |l|
      ensures Seen(env', l0, l, l[i].subgoal)
    {
      assert Seen(env, l0, l, l[i].subgoal);
    }
    forall i | 0 <= i < |l0|
      ensures LiveElsewhere(env'.ctx, done, t, l0[i].subgoal)
    {
      assert LiveElsewhere(ctx, done, t, l0[i].subgoal);
    }
    assert Least(env', l0, l) by {
      forall m | Closed(env', m) && Within(l0, m)
        ensures Within(l, m)
      {
        assert Closed(env, m);
      }
    }
  }

  lemma ListedContexts(ctx: map<int, Context>, done: set<Subgoal>, t: int, l0: seq<Dep>, leader: int, csPtr: int, busy: bool)
    requires t in ctx && Updated(Env(t, ctx, done), l0, ctx[t].tdl, csPtr, leader, busy)
    ensures forall k :: 0 <= k < |ctx[t].tdl| ==> ctx[t].tdl[k].subgoal.tid in ctx
  {
    assert forall k :: 0 <= k < |ctx[t].tdl| ==> Foreign(Env(t, ctx, done), ctx[t].tdl[k].subgoal);
  }

  // ----- whole runs -----

  /**
   Any interleaving of any number of threads: every event does what it should, and every
   completion is of a safe group.
   */
  method RunAll(tids: set<int>, events: seq<Event>) returns (threads: Threads, ghost run: seq<(map<int, Context>, set<Subgoal>)>)
    ensures |run| == |events| + 1 && run[0] == (Start(tids), {})
    ensures forall i {:trigger events[i]} :: 0 <= i < |events| ==> Happened(events[i], run[i].0, run[i].1, run[i + 1].0, run[i + 1].1)
    ensures forall i :: 0 <= i <= |events| ==> Inv(run[i].0, run[i].1)
    ensures threads.Valid() && run[|events|] == (threads.ctx, threads.done)
    ensures forall k :: 0 <= k < |threads.history| ==>
              var h := threads.history[k]; GroupSafe(h.ctx, h.done, h.t, h.csPtr)
  {
    threads := new Threads(tids);
    run := [(threads.ctx, threads.done)];
    for i := 0 to |events|
      invariant threads.Valid() && fresh(threads)
      invariant |run| == i + 1 && run[0] == (Start(tids), {}) && run[i] == (threads.ctx, threads.done)
      invariant forall j {:trigger events[j]} :: 0 <= j < i ==> Happened(events[j], run[j].0, run[j].1, run[j + 1].0, run[j + 1].1)
      invariant forall j :: 0 <= j <= i ==> Inv(run[j].0, run[j].1)
    {
      threads.Happen(events[i]);
      run := run + [(threads.ctx, threads.done)];
    }
  }
}
