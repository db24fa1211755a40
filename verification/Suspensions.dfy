/**
 Resuming completion suspensions: each subgoal of an SCC heads a list of suspended
 frames. Frames whose own root subgoal has been completed are dropped, the remaining
 lists are spliced into one chain, from the leader to the youngest subgoal, and the
 chain is put on top of the choice point stack.
 */
module Suspensions {
  import opened Hiding

  const NULL := 0

  ghost predicate Distinct(s: seq<int>) {
    forall i, j :: 0 <= i < j < |s| ==> s[i] != s[j]
  }

  /** The frames of s point to each other in this order, the last one to `end`. */
  ghost predicate Links(prev: map<int, int>, s: seq<int>, end: int) {
    forall i {:trigger LinksAt(prev, s, end, i)} :: 0 <= i < |s| ==> LinksAt(prev, s, end, i)
  }

  ghost predicate LinksAt(prev: map<int, int>, s: seq<int>, end: int, i: nat)
    requires i < |s|
  {
    s[i] != NULL && s[i] in prev && prev[s[i]] == if i + 1 < |s| then s[i + 1] else end
  }

  function Head(s: seq<int>, end: int): int {
    if s == [] then end else s[0]
  }

  lemma LinksFirst(prev: map<int, int>, s: seq<int>, end: int)
    requires Links(prev, s, end) && s != []
    ensures s[0] != NULL && s[0] in prev && prev[s[0]] == Head(s[1..], end) && Links(prev, s[1..], end)
  {
    assert LinksAt(prev, s, end, 0);
    forall i | 0 <= i < |s[1..]|
      ensures LinksAt(prev, s[1..], end, i)
    {
      assert LinksAt(prev, s, end, i + 1);
    }
  }

  lemma LinksLast(prev: map<int, int>, s: seq<int>, end: int)
    requires Links(prev, s, end) && s != []
    ensures s[|s| - 1] != NULL && s[|s| - 1] in prev && prev[s[|s| - 1]] == end
  {
    assert LinksAt(prev, s, end, |s| - 1);
  }

  lemma LinksFrame(prev: map<int, int>, prev': map<int, int>, s: seq<int>, end: int)
    requires Links(prev, s, end) && forall f :: f in s && f in prev ==> f in prev' && prev'[f] == prev[f]
    ensures Links(prev', s, end)
  {
    forall i | 0 <= i < |s|
      ensures LinksAt(prev', s, end, i)
    {
      assert LinksAt(prev, s, end, i);
    }
  }

  /** Pointing the last of a list at the head of another joins them. */
  lemma LinksJoin(prev: map<int, int>, a: seq<int>, end: int, b: seq<int>, end': int)
    requires Links(prev, a, end) && a != [] && Links(prev, b, end') && Distinct(a) && NoneIn(a, b)
    ensures Links(prev[a[|a| - 1] := Head(b, end')], a + b, end')
  {
    var last := a[|a| - 1];
    var prev', s := prev[last := Head(b, end')], a + b;
    assert Open(0) && last in a;
    forall i | 0 <= i < |s|
      ensures LinksAt(prev', s, end', i)
    {
      if i < |a| {
        assert LinksAt(prev, a, end, i);
        if i < |a| - 1 { assert a[i] != last; }
      } else {
        assert LinksAt(prev, b, end', i - |a|) && b[i - |a|] in b;
      }
    }
  }

  ghost predicate NoneIn(c: seq<int>, l: seq<int>) {
    forall k {:trigger Open(k)} :: Open(k) ==> forall x :: x in c ==> x !in l
  }

  /** The frames whose root subgoal is not completed. */
  ghost function Pending(ptcp: map<int, int>, done: set<int>, s: seq<int>): seq<int> {
    if s == [] then []
    else (if s[0] in ptcp && ptcp[s[0]] in done then [] else [s[0]]) + Pending(ptcp, done, s[1..])
  }

  lemma {:induction false} PendingIn(ptcp: map<int, int>, done: set<int>, s: seq<int>)
    ensures forall f :: f in Pending(ptcp, done, s) <==> f in s && (f in ptcp ==> ptcp[f] !in done)
    ensures Distinct(s) ==> Distinct(Pending(ptcp, done, s))
  {
    if s != [] {
      var rest := s[1..];
      assert s == [s[0]] + rest;
      if Distinct(s) {
        assert forall i :: 0 <= i < |rest| ==> rest[i] == s[i + 1];
        assert Distinct(rest);
      }
      PendingIn(ptcp, done, rest);
    }
  }

  lemma PendingNext(ptcp: map<int, int>, done: set<int>, s: seq<int>)
    requires s != [] && s[0] in ptcp
    ensures Pending(ptcp, done, s) == if ptcp[s[0]] in done then Pending(ptcp, done, s[1..]) else [s[0]] + Pending(ptcp, done, s[1..])
  {
    assert [] + Pending(ptcp, done, s[1..]) == Pending(ptcp, done, s[1..]);
  }

  /** The frames of one subgoal's list that are to be resumed. */
  ghost function Survivors(ptcp: map<int, int>, done: set<int>, g: int, l: seq<int>): seq<int> {
    if g in done then [] else Pending(ptcp, done, l)
  }

  /** The frames c are chained from ccTbreg down to breg, the last of them being curBreg. */
  ghost predicate Chained(prev: map<int, int>, c: seq<int>, breg: int, start: int, ccTbreg: int, curBreg: int) {
    forall k {:trigger Open(k)} :: Open(k) ==>
      Links(prev, c, breg) && Distinct(c) && ccTbreg == Head(c, start) && curBreg == if c == [] then NULL else c[|c| - 1]
  }

  ghost predicate IsList(susp: map<int, int>, prev: map<int, int>, ptcp: map<int, int>, g: int, l: seq<int>) {
    && g in susp && susp[g] == Head(l, NULL) && Links(prev, l, NULL) && Distinct(l)
    && forall f :: f in l ==> f in ptcp && ptcp[f] != NULL
  }

  lemma IsListFrame(susp: map<int, int>, prev: map<int, int>, ptcp: map<int, int>, g: int, l: seq<int>,
                    susp': map<int, int>, prev': map<int, int>, changed: seq<int>)
    requires IsList(susp, prev, ptcp, g, l) && Elsewhere(prev, prev', changed) && forall f :: f in l ==> f !in changed
    requires g in susp' && susp'[g] == susp[g]
    ensures IsList(susp', prev', ptcp, g, l)
  {
    LinksFrame(prev, prev', l, NULL);
  }

  class Scc {
    /** For each suspended frame the next one, and the root subgoal of the call it belongs to. */
    var prevcsf: map<int, int>
    var ptcp: map<int, int>
    /** For each subgoal the head of its list of suspended frames. */
    var susp: map<int, int>
    var done: set<int>

    /** Subgoal g's list is l. */
    ghost predicate Suspended(g: int, l: seq<int>)
      reads this
    {
      IsList(susp, prevcsf, ptcp, g, l)
    }

    /** Drops the frames of one list whose root subgoal is completed. */
    method FilterList(g: int, ghost l: seq<int>)
      requires Suspended(g, l)
      modifies this`prevcsf, this`susp
      ensures Suspended(g, Pending(ptcp, done, l)) && susp == old(susp)[g := susp[g]]
      ensures Elsewhere(old(prevcsf), prevcsf, l)
    {
      var nsf, prevNsf := susp[g], NULL;
      ghost var kept, rest: seq<int> := [], l;
      assert kept + rest == l && kept + Pending(ptcp, done, rest) == Pending(ptcp, done, l);
      FilteringStarts(prevcsf, l);
      while nsf != NULL
        invariant Filtering(prevcsf, l, kept, rest) && Elsewhere(old(prevcsf), prevcsf, l)
        invariant susp == old(susp)[g := Head(kept + rest, NULL)] && nsf == Head(rest, NULL)
        invariant prevNsf == if kept == [] then NULL else kept[|kept| - 1]
        invariant kept + Pending(ptcp, done, rest) == Pending(ptcp, done, l)
        decreases |rest|
      {
        StepFacts(prevcsf, l, kept, rest);
        PendingNext(ptcp, done, rest);
        var p := ptcp[nsf];
        if p in done {
          FilteringDrops(prevcsf, l, kept, rest);
          if prevNsf == NULL {
            susp := susp[g := prevcsf[nsf]];
            nsf := susp[g];
          } else {
            prevcsf := prevcsf[prevNsf := prevcsf[nsf]];
            nsf := prevcsf[prevNsf];
          }
          rest := rest[1..];
        } else {
          prevNsf := nsf;
          nsf := prevcsf[nsf];
          KeepOne(kept, rest, Pending(ptcp, done, rest[1..]));
          FilteringKeeps(prevcsf, l, kept, rest);
          kept, rest := kept + [rest[0]], rest[1..];
        }
      }
      AllFiltered(prevcsf, l, kept, rest);
      assert kept + Pending(ptcp, done, rest) == kept;
      assert susp[g] == Head(kept, NULL);
    }

    /** Splices the frames f, the list of subgoal g, into the chain c, which ends at breg. */
    method ResumeCSFs(g: int, ccTbreg: int, curBreg: int, breg: int, ghost start: int, ghost c: seq<int>, ghost f: seq<int>) returns (ccTbreg': int, curBreg': int)
      requires Suspended(g, f) && f != [] && Chained(prevcsf, c, breg, start, ccTbreg, curBreg) && NoneIn(c, f)
      modifies this`prevcsf, this`susp
      ensures Chained(prevcsf, c + f, breg, start, ccTbreg', curBreg')
      ensures susp == old(susp)[g := NULL] && Elsewhere(old(prevcsf), prevcsf, c + f)
    {
      var nsf := susp[g];
      ghost var was := prevcsf;
      ccTbreg' := ccTbreg;
      ChainFacts(prevcsf, c, breg, start, ccTbreg, curBreg);
      if curBreg == NULL {
        ccTbreg' := nsf;
        assert c + f == f;
      } else {
        LinksJoin(prevcsf, c, breg, f, NULL);
        prevcsf := prevcsf[curBreg := nsf];
        LinkOutside(was, c, f, nsf);
      }
      curBreg' := LastFrame(nsf, f);
      LinksFirst(prevcsf, f, NULL);
      LinksRedirect(prevcsf, c + f, NULL, breg, c, f);
      AppendDistinct(c, f);
      prevcsf := prevcsf[curBreg' := breg];
      susp := susp[g := NULL];
    }

    /** The last frame of a list, found from the first. */
    method LastFrame(first: int, ghost f: seq<int>) returns (last: int)
      requires Links(prevcsf, f, NULL) && f != [] && first == f[0]
      ensures last == f[|f| - 1]
    {
      last := first;
      ghost var rest := f;
      LinksFirst(prevcsf, rest, NULL);
      while prevcsf[last] != NULL
        invariant Links(prevcsf, rest, NULL) && rest != [] && last == rest[0] && last in prevcsf
        invariant prevcsf[last] == Head(rest[1..], NULL) && rest[|rest| - 1] == f[|f| - 1]
        decreases |rest|
      {
        last := prevcsf[last];
        LinksFirst(prevcsf, rest, NULL);
        rest := rest[1..];
        LinksFirst(prevcsf, rest, NULL);
      }
      if |rest| > 1 {
        LinksFirst(prevcsf, rest, NULL);
        LinksFirst(prevcsf, rest[1..], NULL);
      }
    }

    /** Filters the list of a subgoal that is not completed, and splices in what remains. */
    method ProcessPending(g: int, ccTbreg: int, curBreg: int, breg: int, ghost start: int, ghost c: seq<int>, ghost l: seq<int>) returns (ccTbreg': int, curBreg': int)
      requires Suspended(g, l) && Chained(prevcsf, c, breg, start, ccTbreg, curBreg) && NoneIn(c, l)
      modifies this`prevcsf, this`susp
      ensures Chained(prevcsf, c + Pending(ptcp, done, l), breg, start, ccTbreg', curBreg')
      ensures susp == old(susp)[g := NULL] && Elsewhere(old(prevcsf), prevcsf, c + l)
    {
      ccTbreg', curBreg' := ccTbreg, curBreg;
      ghost var was, f := prevcsf, Pending(ptcp, done, l);
      PendingApart(ptcp, done, c, l);
      FilterList(g, l);
      ChainKept(was, prevcsf, c, breg, l, start, ccTbreg, curBreg);
      if f != [] { LinksFirst(prevcsf, f, NULL); }
      if susp[g] != NULL {
        ghost var mid := prevcsf;
        ccTbreg', curBreg' := ResumeCSFs(g, ccTbreg, curBreg, breg, start, c, f);
        ChangedIn(was, mid, prevcsf, l, c, ptcp, done);
      } else {
        ChangedLess(was, prevcsf, l, c);
        assert c + f == c;
      }
    }

    /** One subgoal of the SCC: its list is dropped if it is completed, else filtered and spliced in. */
    method ProcessOne(g: int, ccTbreg: int, curBreg: int, breg: int, ghost start: int, ghost c: seq<int>, ghost l: seq<int>) returns (ccTbreg': int, curBreg': int)
      requires Suspended(g, l) && Chained(prevcsf, c, breg, start, ccTbreg, curBreg) && NoneIn(c, l)
      modifies this`prevcsf, this`susp
      ensures Chained(prevcsf, c + Survivors(ptcp, done, g, l), breg, start, ccTbreg', curBreg')
      ensures susp == old(susp)[g := NULL] && Elsewhere(old(prevcsf), prevcsf, c + l)
    {
      ccTbreg', curBreg' := ccTbreg, curBreg;
      assert c + [] == c;
      if g in done {
        susp := susp[g := NULL];
      } else if susp[g] == NULL {
        if l != [] { LinksFirst(prevcsf, l, NULL); }
      } else {
        ccTbreg', curBreg' := ProcessPending(g, ccTbreg, curBreg, breg, start, c, l);
      }
    }

    /**
     Splices the lists of the subgoals on the completion stack, leader first. The result
     is the chain's first frame, or the pointer passed in if there is none.
     */
    method ProcessSuspensionFrames(ccTbregIn: int, stack: seq<int>, breg: int, ghost lists: seq<seq<int>>) returns (ccTbreg: int, ghost chain: seq<int>)
      requires Distinct(stack) && |lists| == |stack| && Apart(lists)
      requires forall i :: 0 <= i < |stack| ==> Suspended(stack[i], lists[i])
      modifies this`prevcsf, this`susp
      ensures Links(prevcsf, chain, breg) && ccTbreg == Head(chain, ccTbregIn)
      ensures forall f :: f in chain <==> ToResume(ptcp, done, stack, lists, f)
      ensures InOrder(lists, chain)
      ensures forall i :: 0 <= i < |stack| ==> stack[i] in susp && susp[stack[i]] == NULL
    {
      ccTbreg := ccTbregIn;
      var curBreg := NULL;
      ghost var c := [];
      var n := 0;
      AllToDo(susp, prevcsf, ptcp, stack, lists);
      while n < |stack|
        invariant 0 <= n <= |stack| && c == Resumed(ptcp, done, stack[..n], lists[..n])
        invariant Chained(prevcsf, c, breg, ccTbregIn, ccTbreg, curBreg)
        invariant ToDo(susp, prevcsf, ptcp, stack, lists, n) && Emptied(susp, stack, n)
      {
        ghost var wasSusp, wasPrev := susp, prevcsf;
        ResumedApart(ptcp, done, stack, lists, n);
        ResumedNext(ptcp, done, stack, lists, n);
        NextToDo(susp, prevcsf, ptcp, stack, lists, n);
        ccTbreg, curBreg := ProcessOne(stack[n], ccTbreg, curBreg, breg, ccTbregIn, c, lists[n]);
        LessToDo(wasSusp, wasPrev, ptcp, stack, lists, n, susp, prevcsf, c);
        c := c + Survivors(ptcp, done, stack[n], lists[n]);
        n := n + 1;
      }
      assert stack[..n] == stack && lists[..n] == lists;
      AllEmptied(susp, stack);
      ChainFacts(prevcsf, c, breg, ccTbregIn, ccTbreg, curBreg);
      chain := c;
      ResumedMeans(ptcp, done, stack, lists);
      ResumedInOrder(ptcp, done, stack, lists);
    }
  }

  lemma AppendDistinct(a: seq<int>, b: seq<int>)
    requires Distinct(a) && Distinct(b) && NoneIn(a, b)
    ensures Distinct(a + b)
  {
    assert Open(0);
    forall i, j | 0 <= i < j < |a + b|
      ensures (a + b)[i] != (a + b)[j]
    {
      if i < |a| <= j { assert a[i] in a && b[j - |a|] in b; }
    }
  }

  lemma ChainFacts(prev: map<int, int>, c: seq<int>, breg: int, start: int, ccTbreg: int, curBreg: int)
    requires Chained(prev, c, breg, start, ccTbreg, curBreg)
    ensures Links(prev, c, breg) && Distinct(c) && ccTbreg == Head(c, start)
    ensures if c == [] then curBreg == NULL else curBreg == c[|c| - 1] && curBreg != NULL
  {
    assert Open(0);
    if c != [] { LinksLast(prev, c, breg); }
  }

  lemma LinkOutside(prev: map<int, int>, c: seq<int>, f: seq<int>, to: int)
    requires c != [] && NoneIn(c, f) && Links(prev, f, NULL)
    ensures Links(prev[c[|c| - 1] := to], f, NULL)
  {
    assert Open(0);
    assert c[|c| - 1] in c;
    LinksFrame(prev, prev[c[|c| - 1] := to], f, NULL);
  }

  lemma PendingApart(ptcp: map<int, int>, done: set<int>, c: seq<int>, l: seq<int>)
    requires NoneIn(c, l)
    ensures NoneIn(c, Pending(ptcp, done, l))
  {
    assert Open(0);
    PendingIn(ptcp, done, l);
  }

  /** A chain that avoids a list is left alone when the list is filtered. */
  lemma ChainKept(prev: map<int, int>, prev': map<int, int>, c: seq<int>, breg: int, l: seq<int>, start: int, ccTbreg: int, curBreg: int)
    requires Chained(prev, c, breg, start, ccTbreg, curBreg) && Elsewhere(prev, prev', l) && NoneIn(c, l)
    ensures Chained(prev', c, breg, start, ccTbreg, curBreg)
  {
    assert Open(0);
    LinksFrame(prev, prev', c, breg);
  }

  /** First filtering l, then splicing in what remains. */
  lemma ChangedIn(a: map<int, int>, b: map<int, int>, c: map<int, int>, l: seq<int>, s: seq<int>, ptcp: map<int, int>, done: set<int>)
    requires Elsewhere(a, b, l) && Elsewhere(b, c, s + Pending(ptcp, done, l))
    ensures Elsewhere(a, c, s + l)
  {
    PendingIn(ptcp, done, l);
  }

  lemma ChangedLess(a: map<int, int>, b: map<int, int>, l: seq<int>, s: seq<int>)
    requires Elsewhere(a, b, l)
    ensures Elsewhere(a, b, s + l)
  {
  }

  /** Letting the last frame of a chain point elsewhere. */
  lemma LinksRedirect(prev: map<int, int>, s: seq<int>, end: int, end': int, c: seq<int>, f: seq<int>)
    requires Links(prev, s, end) && s == c + f && f != [] && Distinct(c) && Distinct(f) && NoneIn(c, f)
    ensures Links(prev[f[|f| - 1] := end'], s, end')
  {
    var last := f[|f| - 1];
    var prev' := prev[last := end'];
    assert Open(0);
    forall i | 0 <= i < |s|
      ensures LinksAt(prev', s, end', i)
    {
      assert LinksAt(prev, s, end, i);
      if i < |s| - 1 {
        if i < |c| { assert c[i] in c && last in f; } else { assert f[i - |c|] != f[|f| - 1]; }
      }
    }
  }

  // ----- a whole SCC -----

  /** The lists of the subgoals from n up are as they were. */
  ghost predicate ToDo(susp: map<int, int>, prev: map<int, int>, ptcp: map<int, int>, stack: seq<int>, lists: seq<seq<int>>, n: nat) {
    forall k {:trigger Open(k)} :: Open(k) ==>
      |lists| == |stack| && forall i :: n <= i < |stack| ==> IsList(susp, prev, ptcp, stack[i], lists[i])
  }

  /** The first n subgoals have no suspended frames. */
  ghost predicate Emptied(susp: map<int, int>, stack: seq<int>, n: nat) {
    forall k {:trigger Open(k)} :: Open(k) ==> forall i :: 0 <= i < n && i < |stack| ==> stack[i] in susp && susp[stack[i]] == NULL
  }

  lemma AllToDo(susp: map<int, int>, prev: map<int, int>, ptcp: map<int, int>, stack: seq<int>, lists: seq<seq<int>>)
    requires |lists| == |stack| && forall i :: 0 <= i < |stack| ==> IsList(susp, prev, ptcp, stack[i], lists[i])
    ensures ToDo(susp, prev, ptcp, stack, lists, 0) && Emptied(susp, stack, 0)
  {
  }

  lemma NextToDo(susp: map<int, int>, prev: map<int, int>, ptcp: map<int, int>, stack: seq<int>, lists: seq<seq<int>>, n: nat)
    requires ToDo(susp, prev, ptcp, stack, lists, n) && n < |stack|
    ensures n < |lists| && IsList(susp, prev, ptcp, stack[n], lists[n])
  {
    assert Open(0);
  }

  lemma AllEmptied(susp: map<int, int>, stack: seq<int>)
    requires Emptied(susp, stack, |stack|)
    ensures forall i :: 0 <= i < |stack| ==> stack[i] in susp && susp[stack[i]] == NULL
  {
    assert Open(0);
  }

  /** A turn touches only the pointers of the chain and of its own list. */
  lemma LessToDo(susp: map<int, int>, prev: map<int, int>, ptcp: map<int, int>, stack: seq<int>, lists: seq<seq<int>>, n: nat,
                 susp': map<int, int>, prev': map<int, int>, c: seq<int>)
    requires ToDo(susp, prev, ptcp, stack, lists, n) && Emptied(susp, stack, n)
    requires n < |stack| && Distinct(stack) && Apart(lists) && susp' == susp[stack[n] := NULL]
    requires |lists| == |stack| && Elsewhere(prev, prev', c + lists[n]) && forall j :: n <= j < |lists| ==> NoneIn(c, lists[j])
    ensures ToDo(susp', prev', ptcp, stack, lists, n + 1) && Emptied(susp', stack, n + 1)
  {
    assert Open(0);
    forall i | n < i < |stack|
      ensures IsList(susp', prev', ptcp, stack[i], lists[i])
    {
      assert stack[n] != stack[i];
      assert NoneIn(c, lists[i]);
      IsListFrame(susp, prev, ptcp, stack[i], lists[i], susp', prev', c + lists[n]);
    }
  }

  ghost predicate Apart(lists: seq<seq<int>>) {
    forall i, j, f {:trigger f in lists[i], f in lists[j]} :: 0 <= i < j < |lists| && f in lists[i] ==> f !in lists[j]
  }

  /** The frames to resume, from the leader's to those of the youngest subgoal. */
  ghost function Resumed(ptcp: map<int, int>, done: set<int>, stack: seq<int>, lists: seq<seq<int>>): seq<int>
    requires |lists| == |stack|
  {
    if stack == [] then []
    else
      var n := |stack| - 1;
      Resumed(ptcp, done, stack[..n], lists[..n]) + Survivors(ptcp, done, stack[n], lists[n])
  }

  /** Frame f waits for a subgoal of the SCC that is not completed, and the call it belongs to is not completed. */
  ghost predicate ToResume(ptcp: map<int, int>, done: set<int>, stack: seq<int>, lists: seq<seq<int>>, f: int)
    requires |lists| == |stack|
  {
    exists i {:trigger stack[i]} :: 0 <= i < |stack| && f in lists[i] && stack[i] !in done && !(f in ptcp && ptcp[f] in done)
  }

  lemma {:induction false} ResumedMeans(ptcp: map<int, int>, done: set<int>, stack: seq<int>, lists: seq<seq<int>>)
    requires |lists| == |stack|
    ensures forall f :: f in Resumed(ptcp, done, stack, lists) <==> ToResume(ptcp, done, stack, lists, f)
  {
    if stack != [] {
      var n := |stack| - 1;
      var init, before := stack[..n], lists[..n];
      ResumedMeans(ptcp, done, init, before);
      PendingIn(ptcp, done, lists[n]);
      assert forall i :: 0 <= i < n ==> init[i] == stack[i] && before[i] == lists[i];
      forall f
        ensures ToResume(ptcp, done, stack, lists, f)
                <==> ToResume(ptcp, done, init, before, f) || (f in lists[n] && stack[n] !in done && !(f in ptcp && ptcp[f] in done))
      {
        if ToResume(ptcp, done, init, before, f) {
          var i :| 0 <= i < n && f in before[i] && init[i] !in done && !(f in ptcp && ptcp[f] in done);
          assert stack[i] == init[i];
        }
        if ToResume(ptcp, done, stack, lists, f) {
          var i :| 0 <= i < |stack| && f in lists[i] && stack[i] !in done && !(f in ptcp && ptcp[f] in done);
          if i < n { assert init[i] == stack[i]; }
        }
        if f in lists[n] && stack[n] !in done && !(f in ptcp && ptcp[f] in done) { assert stack[n] == stack[n]; }
      }
    }
  }

  /** Frame k of list i comes before frame l of list j: its list is nearer the leader, or it is the same and has it first. */
  ghost predicate Before(i: int, k: int, j: int, l: int) {
    i < j || (i == j && k < l)
  }

  ghost predicate InOrder(lists: seq<seq<int>>, chain: seq<int>) {
    forall a, b {:trigger chain[a], chain[b]} :: 0 <= a < b < |chain| ==> Earlier(lists, chain[a], chain[b])
  }

  ghost predicate Earlier(lists: seq<seq<int>>, f: int, g: int) {
    exists i, k, j, l {:trigger Before(i, k, j, l)} ::
      0 <= i < |lists| && 0 <= k < |lists[i]| && 0 <= j < |lists| && 0 <= l < |lists[j]|
      && lists[i][k] == f && lists[j][l] == g && Before(i, k, j, l)
  }

  lemma {:induction false} PendingInOrder(ptcp: map<int, int>, done: set<int>, s: seq<int>, a: nat, b: nat) returns (k: nat, l: nat)
    requires a < b < |Pending(ptcp, done, s)|
    ensures k < l < |s| && s[k] == Pending(ptcp, done, s)[a] && s[l] == Pending(ptcp, done, s)[b]
  {
    var rest := s[1..];
    PendingIn(ptcp, done, rest);
    if s[0] in ptcp && ptcp[s[0]] in done {
      k, l := PendingInOrder(ptcp, done, rest, a, b);
      k, l := k + 1, l + 1;
    } else if a == 0 {
      k := 0;
      assert Pending(ptcp, done, s)[b] == Pending(ptcp, done, rest)[b - 1];
      assert Pending(ptcp, done, rest)[b - 1] in Pending(ptcp, done, rest);
      l :| 0 <= l < |rest| && rest[l] == Pending(ptcp, done, rest)[b - 1];
      l := l + 1;
    } else {
      k, l := PendingInOrder(ptcp, done, rest, a - 1, b - 1);
      k, l := k + 1, l + 1;
    }
  }

  lemma {:induction false} ResumedAt(ptcp: map<int, int>, done: set<int>, stack: seq<int>, lists: seq<seq<int>>, a: nat, b: nat)
    returns (i: nat, k: nat, j: nat, l: nat)
    requires |lists| == |stack| && a < b < |Resumed(ptcp, done, stack, lists)|
    ensures i < |lists| && k < |lists[i]| && j < |lists| && l < |lists[j]| && Before(i, k, j, l)
    ensures lists[i][k] == Resumed(ptcp, done, stack, lists)[a] && lists[j][l] == Resumed(ptcp, done, stack, lists)[b]
  {
    var n := |stack| - 1;
    var first, last := Resumed(ptcp, done, stack[..n], lists[..n]), Survivors(ptcp, done, stack[n], lists[n]);
    assert Resumed(ptcp, done, stack, lists) == first + last;
    if b < |first| {
      i, k, j, l := ResumedAt(ptcp, done, stack[..n], lists[..n], a, b);
    } else if a < |first| {
      i, k := WhereFirst(ptcp, done, stack, lists, first[a]);
      j := n;
      l := WhereLast(ptcp, done, lists[n], last[b - |first|]);
    } else {
      k, l := PendingInOrder(ptcp, done, lists[n], a - |first|, b - |first|);
      i, j := n, n;
    }
  }

  lemma ResumedInOrder(ptcp: map<int, int>, done: set<int>, stack: seq<int>, lists: seq<seq<int>>)
    requires |lists| == |stack|
    ensures InOrder(lists, Resumed(ptcp, done, stack, lists))
  {
    var chain := Resumed(ptcp, done, stack, lists);
    forall a, b | 0 <= a < b < |chain|
      ensures Earlier(lists, chain[a], chain[b])
    {
      var i, k, j, l := ResumedAt(ptcp, done, stack, lists, a, b);
    }
  }

  lemma WhereFirst(ptcp: map<int, int>, done: set<int>, stack: seq<int>, lists: seq<seq<int>>, f: int) returns (i: nat, k: nat)
    requires |lists| == |stack| && stack != [] && f in Resumed(ptcp, done, stack[..|stack| - 1], lists[..|stack| - 1])
    ensures i < |stack| - 1 && k < |lists[i]| && lists[i][k] == f
  {
    var n := |stack| - 1;
    ResumedIn(ptcp, done, stack[..n], lists[..n]);
    i :| 0 <= i < n && f in lists[..n][i];
    k :| 0 <= k < |lists[i]| && lists[i][k] == f;
  }

  lemma WhereLast(ptcp: map<int, int>, done: set<int>, l: seq<int>, f: int) returns (k: nat)
    requires f in Pending(ptcp, done, l)
    ensures k < |l| && l[k] == f
  {
    PendingIn(ptcp, done, l);
    k :| 0 <= k < |l| && l[k] == f;
  }

  lemma {:induction false} ResumedIn(ptcp: map<int, int>, done: set<int>, stack: seq<int>, lists: seq<seq<int>>)
    requires |lists| == |stack|
    ensures forall f :: f in Resumed(ptcp, done, stack, lists) ==> exists i :: 0 <= i < |lists| && f in lists[i]
  {
    if stack != [] {
      var n := |stack| - 1;
      ResumedIn(ptcp, done, stack[..n], lists[..n]);
      PendingIn(ptcp, done, lists[n]);
      forall f | f in Resumed(ptcp, done, stack[..n], lists[..n])
        ensures exists i :: 0 <= i < |lists| && f in lists[i]
      {
        var i :| 0 <= i < n && f in lists[..n][i];
        assert f in lists[i];
      }
    }
  }

  /** What was resumed before does not meet the next list. */
  lemma ResumedApart(ptcp: map<int, int>, done: set<int>, stack: seq<int>, lists: seq<seq<int>>, n: nat)
    requires |lists| == |stack| && n < |stack| && Apart(lists)
    ensures forall j :: n <= j < |lists| ==> NoneIn(Resumed(ptcp, done, stack[..n], lists[..n]), lists[j])
  {
    ResumedIn(ptcp, done, stack[..n], lists[..n]);
    forall f, j | f in Resumed(ptcp, done, stack[..n], lists[..n]) && n <= j < |lists|
      ensures f !in lists[j]
    {
      var i :| 0 <= i < n && f in lists[..n][i];
      assert f in lists[i];
    }
  }

  lemma ResumedNext(ptcp: map<int, int>, done: set<int>, stack: seq<int>, lists: seq<seq<int>>, n: nat)
    requires |lists| == |stack| && n < |stack|
    ensures Resumed(ptcp, done, stack[..n + 1], lists[..n + 1])
            == Resumed(ptcp, done, stack[..n], lists[..n]) + Survivors(ptcp, done, stack[n], lists[n])
  {
    assert stack[..n + 1][..n] == stack[..n] && lists[..n + 1][..n] == lists[..n];
  }

  /** In the middle of a list: `kept` has been passed, `rest` is still to be looked at. */
  ghost predicate Filtering(prev: map<int, int>, l: seq<int>, kept: seq<int>, rest: seq<int>) {
    forall k {:trigger Open(k)} :: Open(k) ==>
      && Distinct(kept + rest) && Links(prev, kept + rest, NULL) && Links(prev, rest, NULL)
      && (forall f :: f in kept ==> f in l) && (forall f :: f in rest ==> f in l)
  }

  lemma FilteringStarts(prev: map<int, int>, l: seq<int>)
    requires Distinct(l) && Links(prev, l, NULL)
    ensures Filtering(prev, l, [], l)
  {
    assert [] + l == l;
  }

  lemma FilteringKeeps(prev: map<int, int>, l: seq<int>, kept: seq<int>, rest: seq<int>)
    requires Filtering(prev, l, kept, rest) && rest != []
    ensures Filtering(prev, l, kept + [rest[0]], rest[1..])
  {
    assert Open(0);
    LinksFirst(prev, rest, NULL);
    assert (kept + [rest[0]]) + rest[1..] == kept + rest;
  }

  lemma StepFacts(prev: map<int, int>, l: seq<int>, kept: seq<int>, rest: seq<int>)
    requires Filtering(prev, l, kept, rest) && Head(rest, NULL) != NULL
    ensures rest != [] && rest[0] in prev && rest[0] in l && prev[rest[0]] == Head(rest[1..], NULL) && Links(prev, rest[1..], NULL)
    ensures kept != [] ==> kept[|kept| - 1] != NULL && kept[|kept| - 1] in l
  {
    assert Open(0);
    LinksFirst(prev, rest, NULL);
    if kept != [] { assert LinksAt(prev, kept + rest, NULL, |kept| - 1); }
  }

  lemma FilteringDrops(prev: map<int, int>, l: seq<int>, kept: seq<int>, rest: seq<int>)
    requires Filtering(prev, l, kept, rest) && rest != [] && rest[0] in prev
    ensures kept == [] ==> Filtering(prev, l, kept, rest[1..])
    ensures kept != [] ==> Filtering(prev[kept[|kept| - 1] := prev[rest[0]]], l, kept, rest[1..])
    ensures Head(kept + rest[1..], NULL) == if kept == [] then Head(rest[1..], NULL) else kept[0]
  {
    assert Open(0);
    DropOne(prev, kept, rest);
    LinksFirst(prev, rest, NULL);
  }

  lemma AllFiltered(prev: map<int, int>, l: seq<int>, kept: seq<int>, rest: seq<int>)
    requires Filtering(prev, l, kept, rest) && Head(rest, NULL) == NULL
    ensures rest == [] && kept + rest == kept
    ensures Distinct(kept) && Links(prev, kept, NULL) && forall f :: f in kept ==> f in l
  {
    assert Open(0);
    if rest != [] { LinksFirst(prev, rest, NULL); }
  }

  /** Only the pointers of frames in l have changed. */
  ghost predicate Elsewhere(prev: map<int, int>, prev': map<int, int>, l: seq<int>) {
    forall f {:trigger prev'[f]} {:trigger f in prev'} :: f in prev && f !in l ==> f in prev' && prev'[f] == prev[f]
  }

  lemma KeepOne(kept: seq<int>, rest: seq<int>, more: seq<int>)
    requires rest != []
    ensures kept + rest == (kept + [rest[0]]) + rest[1..]
    ensures kept + ([rest[0]] + more) == (kept + [rest[0]]) + more
  {
  }

  /** Unlinking the first of `rest`, after `kept`. */
  lemma DropOne(prev: map<int, int>, kept: seq<int>, rest: seq<int>)
    requires rest != [] && Distinct(kept + rest) && Links(prev, kept + rest, NULL)
    ensures Distinct(kept + rest[1..]) && rest[0] in prev && prev[rest[0]] == Head(rest[1..], NULL)
    ensures kept == [] ==> Links(prev, kept + rest[1..], NULL)
    ensures kept != [] ==> kept[|kept| - 1] != NULL && (kept + rest[1..])[0] == (kept + rest)[0]
    ensures kept != [] ==> Links(prev[kept[|kept| - 1] := prev[rest[0]]], kept + rest[1..], NULL)
    ensures kept != [] ==> Links(prev[kept[|kept| - 1] := prev[rest[0]]], rest[1..], NULL)
  {
    var s, u, n := kept + rest, kept + rest[1..], |kept|;
    assert s[n] == rest[0];
    assert LinksAt(prev, s, NULL, n);
    forall i, j | 0 <= i < j < |u|
      ensures u[i] != u[j]
    {
      assert u[i] == s[if i < n then i else i + 1] && u[j] == s[if j < n then j else j + 1];
    }
    var prev' := if kept == [] then prev else prev[kept[n - 1] := prev[rest[0]]];
    forall i | 0 <= i < |u|
      ensures LinksAt(prev', u, NULL, i)
    {
      var k := if i < n then i else i + 1;
      assert u[i] == s[k] && LinksAt(prev, s, NULL, k);
      if i + 1 < |u| { assert u[i + 1] == s[if i + 1 < n then i + 1 else i + 2]; }
      if kept != [] && k != n - 1 { assert s[if k < n - 1 then k else n - 1] != s[if k < n - 1 then n - 1 else k]; }
    }
    if kept != [] {
      assert LinksAt(prev, s, NULL, n - 1);
      forall i | 0 <= i < |rest[1..]|
        ensures LinksAt(prev', rest[1..], NULL, i)
      {
        assert LinksAt(prev', u, NULL, n + i);
      }
    }
  }
}
