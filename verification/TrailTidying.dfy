/**
 The trail as a chain of frames, each pointing to an older one lower in memory, and
 what a cut does to it: frames for variables that no longer need restoring are unlinked,
 down to the trail top of the choice point cut back to or to the freeze register.
 */
module TrailTidying {
  /** Each frame leads to the next, which is lower in memory; the last one's parent is lower still. */
  ghost predicate Chain(parent: map<int, int>, s: seq<int>) {
    && s != []
    && (forall i {:trigger Linked(parent, s, i)} :: 0 <= i < |s| ==> Linked(parent, s, i))
  }

  ghost predicate Linked(parent: map<int, int>, s: seq<int>, i: nat)
    requires i < |s|
  {
    s[i] in parent && parent[s[i]] < s[i] && (i + 1 < |s| ==> parent[s[i]] == s[i + 1])
  }

  lemma ChainTail(parent: map<int, int>, s: seq<int>)
    requires Chain(parent, s) && |s| > 1
    ensures Chain(parent, s[1..]) && s[0] in parent && parent[s[0]] == s[1] < s[0]
  {
    assert Linked(parent, s, 0);
    forall i | 0 <= i < |s[1..]|
      ensures Linked(parent, s[1..], i)
    {
      assert Linked(parent, s, i + 1);
    }
  }

  lemma {:induction false} ChainBelow(parent: map<int, int>, s: seq<int>, x: int)
    requires Chain(parent, s) && s[0] <= x
    ensures forall t :: t in s ==> t <= x
  {
    if |s| > 1 {
      ChainTail(parent, s);
      ChainBelow(parent, s[1..], x);
      assert s == [s[0]] + s[1..];
    }
  }

  lemma ChainCons(parent: map<int, int>, t: int, s: seq<int>)
    requires Chain(parent, s) && t in parent && parent[t] == s[0] < t
    ensures Chain(parent, [t] + s)
  {
    var u := [t] + s;
    forall i | 0 <= i < |u|
      ensures Linked(parent, u, i)
    {
      if i > 0 { assert Linked(parent, s, i - 1); }
    }
  }

  /** Changing frames that are not on it does not change a chain. */
  lemma ChainFrame(parent: map<int, int>, parent': map<int, int>, s: seq<int>)
    requires Chain(parent, s) && forall t :: t in s && t in parent ==> t in parent' && parent'[t] == parent[t]
    ensures Chain(parent', s)
  {
    forall i | 0 <= i < |s|
      ensures Linked(parent', s, i)
    {
      assert Linked(parent, s, i);
    }
  }

  /** Nothing up to the bound has changed. */
  ghost predicate Below(parent: map<int, int>, parent': map<int, int>, bound: int) {
    forall t {:trigger parent'[t]} :: t in parent' && t <= bound ==> t in parent && parent'[t] == parent[t]
  }

  class Trail {
    /** For each trail frame the older frame it points to, and the variable it is for. */
    var parent: map<int, int>
    var variable: map<int, int>
    var trreg: int
    /** Frames up to here are frozen. */
    var trfreg: int
    /** The bounds outside which a binding has to be undone on backtracking. */
    var ebreg: int
    var efreg: int
    var hbreg: int
    var hfreg: int

    predicate Conditional(a: int)
      reads this`ebreg, this`efreg, this`hbreg, this`hfreg
    {
      (a >= ebreg || a >= efreg) || (a < hbreg || a < hfreg)
    }

    /**
     With the heap growing up to heapTop and the local stack down to it: a cell older than the choice
     point, or in the frozen part of its area.
     */
    lemma ConditionalMeans(a: int, heapTop: int)
      requires hbreg <= heapTop && hfreg <= heapTop && heapTop <= ebreg && heapTop <= efreg
      ensures Conditional(a) <==> if a < heapTop then a < hbreg || a < hfreg else a >= ebreg || a >= efreg
    {
    }

    /** The frame's variable has to be restored on backtracking. */
    predicate Good(t: int)
      reads this`variable, this`ebreg, this`efreg, this`hbreg, this`hfreg
    {
      t in variable && Conditional(variable[t])
    }

    ghost predicate Valid(s: seq<int>)
      reads this
    {
      Chain(parent, s) && s[0] == trreg
    }

    /** Trails a binding: the new frame lies above both the trail top and what is frozen. */
    method PushTrail(addr: int, ghost s: seq<int>) returns (ghost s': seq<int>)
      requires Valid(s)
      modifies this`parent, this`variable, this`trreg
      ensures Valid(s') && |s'| == |s| + 1 && s'[1..] == s && variable == old(variable)[s'[0] := addr]
      ensures s'[0] > old(trreg) && s'[0] > trfreg
    {
      ChainBelow(parent, s, trreg);
      var t := if trfreg > trreg then trfreg + 3 else trreg + 3;
      ghost var was := parent;
      parent := parent[t := trreg];
      ChainFrame(was, parent, s);
      ChainCons(parent, t, s);
      variable := variable[t := addr];
      trreg := t;
      s' := [t] + s;
    }

    /** The frames of s that stay: those at or below the bound, and above it those still conditional. */
    ghost function Tidied(s: seq<int>, bound: int): seq<int>
      reads this`variable, this`ebreg, this`efreg, this`hbreg, this`hfreg
    {
      if s == [] then []
      else if s[0] <= bound then s
      else (if Good(s[0]) then [s[0]] else []) + Tidied(s[1..], bound)
    }

    /** What stays of two stretches in a row. */
    lemma {:induction false} TidiedDrops(s: seq<int>, bound: int)
      requires s != [] && s[0] > bound
      ensures Tidied(s, bound) == if Good(s[0]) then [s[0]] + Tidied(s[1..], bound) else Tidied(s[1..], bound)
    {
      assert [] + Tidied(s[1..], bound) == Tidied(s[1..], bound);
    }

    /** Exactly these frames stay; as frames come in descending order, that says all. */
    lemma {:induction false} TidiedMeans(s: seq<int>, bound: int)
      requires Chain(parent, s)
      ensures forall t :: t in Tidied(s, bound) <==> t in s && (t <= bound || (t in variable && Conditional(variable[t])))
    {
      Descends(parent, s);
      if s[0] > bound {
        TidiedDrops(s, bound);
        if |s| > 1 {
          ChainTail(parent, s);
          TidiedMeans(s[1..], bound);
        }
        assert s == [s[0]] + s[1..];
      } else {
        assert forall t :: t in s ==> t <= s[0];
      }
    }

    /** Nothing below the bound goes. */
    lemma {:induction false} TidiedStarts(s: seq<int>, bound: int)
      requires Chain(parent, s) && s[|s| - 1] <= bound
      ensures Tidied(s, bound) != [] && Tidied(s, bound)[0] <= s[0]
    {
      if s[0] > bound && !Good(s[0]) {
        ChainTail(parent, s);
        TidiedStarts(s[1..], bound);
      }
    }

    /** The first loop: frames at the top are popped as long as they can go. */
    method PopUnconditional(cpTrreg: int, ghost bound: int, ghost s: seq<int>) returns (ghost rest: seq<int>)
      requires Valid(s) && s[|s| - 1] <= bound == (if cpTrreg > trfreg then cpTrreg else trfreg)
      modifies this`trreg
      ensures Valid(rest) && rest[|rest| - 1] <= bound && (rest[0] <= bound || Good(rest[0]))
      ensures Tidied(rest, bound) == Tidied(s, bound)
    {
      rest := s;
      while trreg > trfreg && !Good(trreg) && trreg > cpTrreg
        invariant Valid(rest) && rest[|rest| - 1] <= bound && Tidied(rest, bound) == Tidied(s, bound)
        decreases |rest|
      {
        ChainTail(parent, rest);
        TidiedDrops(rest, bound);
        trreg := parent[trreg];
        rest := rest[1..];
      }
    }

    /** Unlinks the frames that are no longer conditional, above the cut choice point's trail top and the freeze register. */
    method UnwindTrail(cpTrreg: int, ghost s: seq<int>) returns (ghost s': seq<int>)
      requires Valid(s) && s[|s| - 1] <= (if cpTrreg > trfreg then cpTrreg else trfreg)
      modifies this`parent, this`trreg
      ensures Valid(s') && s' == old(Tidied(s, if cpTrreg > trfreg then cpTrreg else trfreg))
      ensures forall t :: t in s' <==> t in s && (t <= cpTrreg || t <= trfreg || (t in variable && Conditional(variable[t])))
      ensures Below(old(parent), parent, if cpTrreg > trfreg then cpTrreg else trfreg)
    {
      ghost var bound := if cpTrreg > trfreg then cpTrreg else trfreg;
      TidiedMeans(s, bound);
      ghost var rest := PopUnconditional(cpTrreg, bound, s);
      s' := TidyBelow(cpTrreg, bound, rest);
    }

    /** Frame t2 is unlinked if it is no longer conditional, else it is the last that stays. */
    method TidyOne(t1: int, t2: int, ghost bound: int, ghost kept: seq<int>, ghost rest: seq<int>)
      returns (t1': int, t2': int, ghost kept': seq<int>, ghost rest': seq<int>)
      requires kept != [] && t1 == kept[|kept| - 1] && t1 > bound && rest != [] && t2 == rest[0] && t2 > bound && rest[|rest| - 1] <= bound
      requires Chain(parent, kept + rest) && Chain(parent, rest)
      modifies this`parent
      ensures rest' == rest[1..] && rest' != [] && t2' == rest'[0] && rest'[|rest'| - 1] <= bound
      ensures kept' != [] && kept'[0] == kept[0] && t1' == kept'[|kept'| - 1] && t1' > bound
      ensures Chain(parent, kept' + rest') && Chain(parent, rest')
      ensures kept' + Tidied(rest', bound) == kept + Tidied(rest, bound)
      ensures Below(old(parent), parent, bound)
    {
      t1', kept' := t1, kept;
      ChainTail(parent, rest);
      TidiedDrops(rest, bound);
      rest' := rest[1..];
      t2' := parent[t2];
      if !Good(t2) {
        ghost var was := parent;
        parent := parent[t1 := t2'];
        Relinked(was, parent, kept, rest);
      } else {
        t1' := t2;
        Moved(kept, rest, Tidied(rest[1..], bound));
        kept' := kept + [rest[0]];
      }
    }

    /** The second loop: t1 is the last frame that stays, t2 the one after it. */
    method TidyBelow(cpTrreg: int, ghost bound: int, ghost s: seq<int>) returns (ghost s': seq<int>)
      requires Valid(s) && s[|s| - 1] <= bound == (if cpTrreg > trfreg then cpTrreg else trfreg)
      requires s[0] <= bound || Good(s[0])
      modifies this`parent
      ensures Valid(s') && s' == old(Tidied(s, bound))
      ensures Below(old(parent), parent, bound)
    {
      assert Linked(parent, s, 0);
      var t1, t2 := trreg, parent[trreg];
      ghost var kept, rest := [s[0]], s[1..];
      ghost var goal := Tidied(s, bound);
      if s[0] > bound {
        ChainTail(parent, s);
        TidiedDrops(s, bound);
        assert kept + rest == s;
      }
      while t2 > cpTrreg && t2 > trfreg
        invariant s[0] <= bound ==> t2 <= bound && parent == old(parent)
        invariant s[0] > bound ==> rest != [] && t2 == rest[0] && kept != [] && t1 == kept[|kept| - 1] && kept[0] == trreg
        invariant s[0] > bound ==> Chain(parent, kept + rest) && Chain(parent, rest) && rest[|rest| - 1] <= bound && t1 > bound
        invariant s[0] > bound ==> kept + Tidied(rest, bound) == goal
        invariant Below(old(parent), parent, bound)
        decreases |rest|
      {
        t1, t2, kept, rest := TidyOne(t1, t2, bound, kept, rest);
      }
      s' := if s[0] <= bound then s else kept + rest;
    }
  }

  lemma Moved(kept: seq<int>, rest: seq<int>, more: seq<int>)
    requires rest != []
    ensures kept + rest == (kept + [rest[0]]) + rest[1..]
    ensures kept + ([rest[0]] + more) == (kept + [rest[0]]) + more
  {
  }

  /** The frame after the last one kept has been unlinked. */
  lemma Relinked(parent: map<int, int>, parent': map<int, int>, kept: seq<int>, rest: seq<int>)
    requires kept != [] && |rest| > 1 && Chain(parent, kept + rest)
    requires parent' == parent[kept[|kept| - 1] := rest[1]]
    ensures Chain(parent', kept + rest[1..]) && Chain(parent', rest[1..])
  {
    var s, u, n := kept + rest, kept + rest[1..], |kept|;
    Descends(parent, s);
    forall i | 0 <= i < |u|
      ensures Linked(parent', u, i)
    {
      assert Linked(parent, s, if i < n then i else i + 1);
      assert u[i] == s[if i < n then i else i + 1];
      if i + 1 < |u| { assert u[i + 1] == s[if i + 1 < n then i + 1 else i + 2]; }
      if i == n - 1 { assert s[n - 1] > s[n + 1]; } else { assert s[if i < n then i else i + 1] != s[n - 1]; }
    }
    forall i | 0 <= i < |rest[1..]|
      ensures Linked(parent', rest[1..], i)
    {
      assert Linked(parent', u, n + i);
    }
  }

  lemma {:induction false} Descends(parent: map<int, int>, s: seq<int>)
    requires Chain(parent, s)
    ensures forall i, j :: 0 <= i < j < |s| ==> s[i] > s[j]
  {
    if |s| > 1 {
      ChainTail(parent, s);
      Descends(parent, s[1..]);
      ChainBelow(parent, s[1..], s[1]);
      forall i, j | 0 <= i < j < |s|
        ensures s[i] > s[j]
      {
        assert s[j] == s[1..][j - 1];
        if i > 0 { assert s[i] == s[1..][i - 1]; }
      }
    }
  }
}
