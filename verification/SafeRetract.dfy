/**
 Retract may unlink a clause at once only if no choice point would be left on an
 instruction that means something else afterwards. Choice points hold the address of
 the next link to try; their clauses are marked, and the clause to go and its
 successors where it leads a chain must be unmarked.
 */
module SafeRetract {
  import opened Chains
  import opened Blocks
  import opened ClauseIndex

  ghost predicate Backtracks(op: Op) {
    op == DynRetry || op == DynTrust
  }

  /** Backtracking into a tries the links t, in this order. */
  ghost predicate Resumes(cells: Cells, a: Addr, t: seq<Addr>) {
    t != [] && t[0] == a && forall i {:trigger LeadsOn(cells, t, i)} :: 0 <= i < |t| ==> LeadsOn(cells, t, i)
  }

  /** Link i leads to the next of t, the last one nowhere. */
  ghost predicate LeadsOn(cells: Cells, t: seq<Addr>, i: nat)
    requires i < |t|
  {
    && t[i] in cells
    && if i + 1 < |t| then cells[t[i]].op == DynRetry && cells[t[i]].next == t[i + 1] else cells[t[i]].op == DynTrust
  }

  /** A link backtracks exactly if it is not the first of its chain. */
  lemma BacktracksIff(cells: Cells, sob: bool, s: seq<Addr>, head: Addr, end: Addr, i: nat)
    requires Chain(cells, sob, s, head, end) && i < |s|
    ensures s[i] in cells && (Backtracks(cells[s[i]].op) <==> i > 0)
  {
    assert Linked(cells, sob, s, head, end, i);
  }

  lemma LinkOfRest(cells: Cells, sob: bool, s: seq<Addr>, head: Addr, end: Addr, i: nat, k: nat)
    requires Chain(cells, sob, s, head, end) && 0 < i && i + k < |s|
    ensures LeadsOn(cells, s[i..], k)
  {
    assert Linked(cells, sob, s, head, end, i + k);
    assert s[i..][k] == s[i + k];
    if i + k + 1 < |s| { assert s[i..][k + 1] == s[i + k + 1]; }
  }

  /** From a link that backtracks, the rest of the chain is tried. */
  lemma ResumesRest(cells: Cells, sob: bool, s: seq<Addr>, head: Addr, end: Addr, i: nat)
    requires Chain(cells, sob, s, head, end) && 0 < i < |s|
    ensures Resumes(cells, s[i], s[i..])
  {
    var t := s[i..];
    forall k | 0 <= k < |t|
      ensures LeadsOn(cells, t, k)
    {
      LinkOfRest(cells, sob, s, head, end, i, k);
    }
  }

  lemma {:induction false} ResumesOne(cells: Cells, a: Addr, t: seq<Addr>, u: seq<Addr>)
    requires Resumes(cells, a, t) && Resumes(cells, a, u)
    ensures t == u
    decreases |t|
  {
    assert LeadsOn(cells, t, 0) && LeadsOn(cells, u, 0);
    if |t| > 1 { ResumesTail(cells, a, t); }
    if |u| > 1 { ResumesTail(cells, a, u); }
    if |t| > 1 {
      ResumesOne(cells, t[1], t[1..], u[1..]);
      assert t == [t[0]] + t[1..] && u == [u[0]] + u[1..];
    }
  }

  lemma ResumesTail(cells: Cells, a: Addr, t: seq<Addr>)
    requires Resumes(cells, a, t) && |t| > 1
    ensures Resumes(cells, t[1], t[1..]) && a in cells && cells[a].op == DynRetry
  {
    var u := t[1..];
    forall i | 0 <= i < |u|
      ensures LeadsOn(cells, u, i)
    {
      assert LeadsOn(cells, t, i + 1);
    }
    assert LeadsOn(cells, t, 0);
  }

  /** The links but x. */
  ghost function Lacking(t: seq<Addr>, x: Addr): seq<Addr> {
    if t == [] then [] else if t[0] == x then t[1..] else [t[0]] + Lacking(t[1..], x)
  }

  lemma {:induction false} LackingAt(t: seq<Addr>, i: nat)
    requires Distinct(t) && i < |t|
    ensures Lacking(t, t[i]) == t[..i] + t[i + 1..]
  {
    if i > 0 {
      assert t[0] != t[i];
      LackingAt(t[1..], i - 1);
      assert t[..i] == [t[0]] + t[1..][..i - 1];
    }
  }

  lemma {:induction false} LackingNone(t: seq<Addr>, x: Addr)
    requires x !in t
    ensures Lacking(t, x) == t
  {
    if t != [] {
      LackingNone(t[1..], x);
      assert t == [t[0]] + t[1..];
    }
  }

  /** One chain: a choice point on link s[j] survives the removal of s[i], unless s[i] leads the chain right before it. */
  lemma ChainSafe(cells: Cells, cells': Cells, sob: bool, s: seq<Addr>, head: Addr, end: Addr, i: nat, j: nat)
    requires Chain(cells, sob, s, head, end) && i < |s| && j < |s| && i != j
    requires Chain(cells', sob, Chains.Without(s, i), head, end)
    requires s[j] in cells && Backtracks(cells[s[j]].op)
    requires s[i] in cells && !(cells[s[i]].op == Leading(sob) && cells[s[i]].next == s[j])
    ensures s[j] in cells' && Backtracks(cells'[s[j]].op)
    ensures Resumes(cells, s[j], s[j..]) && Resumes(cells', s[j], Lacking(s[j..], s[i]))
  {
    var t := Chains.Without(s, i);
    var j' := if j < i then j else j - 1;
    BacktracksIff(cells, sob, s, head, end, j);
    assert Linked(cells, sob, s, head, end, i);
    WithoutAt(s, i);
    assert t[j'] == s[j] && j' > 0;
    BacktracksIff(cells', sob, t, head, end, j');
    ResumesRest(cells, sob, s, head, end, j);
    ResumesRest(cells', sob, t, head, end, j');
    LackingRest(s, i, j);
  }

  /** The check is exact: removing s[i] breaks a choice point on s[j] just when s[i] leads the chain right before it. */
  lemma BreaksIff(cells: Cells, cells': Cells, sob: bool, s: seq<Addr>, head: Addr, end: Addr, i: nat, j: nat)
    requires Chain(cells, sob, s, head, end) && i < |s| && j < |s| && i != j
    requires Chain(cells', sob, Chains.Without(s, i), head, end)
    requires s[j] in cells && s[i] in cells && Backtracks(cells[s[j]].op)
    ensures s[j] in cells'
    ensures Backtracks(cells'[s[j]].op) <==> !(cells[s[i]].op == Leading(sob) && cells[s[i]].next == s[j])
  {
    var j' := if j < i then j else j - 1;
    BacktracksIff(cells, sob, s, head, end, j);
    assert Linked(cells, sob, s, head, end, i);
    WithoutAt(s, i);
    BacktracksIff(cells', sob, Chains.Without(s, i), head, end, j');
    if i == 0 && j > 1 { assert s[1] != s[j]; }
  }

  lemma LackingRest(s: seq<Addr>, i: nat, j: nat)
    requires Distinct(s) && i < |s| && j < |s| && i != j
    ensures var t, j' := Chains.Without(s, i), if j < i then j else j - 1;
      j' <= |t| && Lacking(s[j..], s[i]) == t[j'..]
  {
    var t, u := Chains.Without(s, i), s[j..];
    if i < j {
      assert s[i] !in u by {
        forall k | 0 <= k < |u|
          ensures u[k] != s[i]
        {
          assert s[i] != s[j + k];
        }
      }
      LackingNone(u, s[i]);
    } else {
      forall k, l | 0 <= k < l < |u|
        ensures u[k] != u[l]
      {
        assert s[j + k] != s[j + l];
      }
      assert u[i - j] == s[i];
      LackingAt(u, i - j);
      assert t[j..] == u[..i - j] + u[i - j + 1..];
    }
  }

  // ----- marking -----

  /** The clause a link belongs to. */
  function ClauseOf(a: Addr): nat
    requires a.AllLink? || a.IndLink?
  {
    a.clause
  }

  /** A choice point for an alternative clause. */
  ghost predicate IsChoicePoint(st: Store, layout: seq<Block>, a: Addr) {
    (a.AllLink? || a.IndLink?) && ClauseOf(a) in Clauses(layout) && a in st.cells && Backtracks(st.cells[a].op)
  }

  /** The clauses some choice point will try. */
  ghost function Resumable(cells: Cells, cps: seq<Addr>): (s: set<nat>)
    requires forall n :: 0 <= n < |cps| ==> (cps[n].AllLink? || cps[n].IndLink?) && cps[n] in cells
    ensures forall x :: x in s <==> exists n :: 0 <= n < |cps| && Backtracks(cells[cps[n]].op) && ClauseOf(cps[n]) == x
  {
    set n | 0 <= n < |cps| && Backtracks(cells[cps[n]].op) :: ClauseOf(cps[n])
  }

  /** Marks the clauses of all choice points, unless one is about the clause c itself. */
  method MarkCpStack(cells: Cells, cps: seq<Addr>, c: nat) returns (marks: set<nat>, found: bool)
    requires forall n :: 0 <= n < |cps| ==> (cps[n].AllLink? || cps[n].IndLink?) && cps[n] in cells
    ensures found <==> c in Resumable(cells, cps)
    ensures !found ==> marks == Resumable(cells, cps)
  {
    marks, found := {}, false;
    var n := 0;
    while n < |cps| && !found
      invariant 0 <= n <= |cps|
      invariant found ==> c in Resumable(cells, cps)
      invariant !found ==> c !in marks
      invariant !found ==> forall k :: 0 <= k < n && Backtracks(cells[cps[k]].op) ==> ClauseOf(cps[k]) in marks
      invariant forall x :: x in marks ==> x in Resumable(cells, cps)
      decreases |cps| - n + if found then 0 else 1
    {
      var op := cells[cps[n]].op;
      if op == DynRetry || op == DynTrust {
        if ClauseOf(cps[n]) == c { found := true; } else { marks := marks + {ClauseOf(cps[n])}; }
      }
      n := n + 1;
    }
  }

  /** Neither the clause nor, where it leads a chain, the one after it is marked. */
  method DetermineIfSafeToDelete(cells: Cells, c: nat, marks: set<nat>) returns (safe: bool)
    requires AllLink(c) in cells && IndLink(c) in cells
    requires cells[AllLink(c)].op == DynTry ==> cells[AllLink(c)].next.AllLink?
    requires cells[IndLink(c)].op == DynTry ==> cells[IndLink(c)].next.IndLink?
    ensures safe <==> SafeToDelete(cells, c, marks)
  {
    if c in marks { return false; }
    var all := cells[AllLink(c)];
    if all.op == DynTry && all.next.clause in marks { return false; }
    var ind := cells[IndLink(c)];
    if ind.op == DynTry && ind.next.clause in marks { return false; }
    safe := true;
  }

  ghost predicate SafeToDelete(cells: Cells, c: nat, marks: set<nat>)
    requires AllLink(c) in cells && IndLink(c) in cells
    requires cells[AllLink(c)].op == DynTry ==> cells[AllLink(c)].next.AllLink?
    requires cells[IndLink(c)].op == DynTry ==> cells[IndLink(c)].next.IndLink?
  {
    && c !in marks
    && !(cells[AllLink(c)].op == DynTry && cells[AllLink(c)].next.clause in marks)
    && !(cells[IndLink(c)].op == DynTry && cells[IndLink(c)].next.clause in marks)
  }

  /** The choice point is not about c, nor about the clause after c in a chain that c leads. */
  ghost predicate Harmless(cells: Cells, c: nat, a: Addr) {
    a.AllLink? || a.IndLink? ==>
      var x := ClauseOf(a);
      x != c && !LeadsTo(cells, AllLink(c), x) && !LeadsTo(cells, IndLink(c), x)
  }

  ghost predicate LeadsTo(cells: Cells, a: Addr, x: nat) {
    a in cells && cells[a].op == DynTry && (cells[a].next.AllLink? || cells[a].next.IndLink?) && cells[a].next.clause == x
  }

  // ----- retracting safely -----

  /** The choice point backtracks as before, and tries what it tried before except x. */
  ghost predicate Survives(cells: Cells, cells': Cells, a: Addr, x: Addr) {
    && a in cells' && Backtracks(cells'[a].op)
    && exists t :: Resumes(cells, a, t) && Resumes(cells', a, Lacking(t, x))
  }

  /** A chain that did not change. */
  lemma SameChainSurvives(cells: Cells, cells': Cells, s: seq<Addr>, head: Addr, end: Addr, j: nat, x: Addr)
    requires Chain(cells, false, s, head, end) && Chain(cells', false, s, head, end)
    requires j < |s| && s[j] in cells && Backtracks(cells[s[j]].op) && x !in s
    ensures Survives(cells, cells', s[j], x)
  {
    BacktracksIff(cells, false, s, head, end, j);
    BacktracksIff(cells', false, s, head, end, j);
    ResumesRest(cells, false, s, head, end, j);
    ResumesRest(cells', false, s, head, end, j);
    LackingNone(s[j..], x);
  }

  lemma ChangedChainSurvives(cells: Cells, cells': Cells, s: seq<Addr>, head: Addr, end: Addr, i: nat, j: nat)
    requires Chain(cells, false, s, head, end) && i < |s| && j < |s| && i != j
    requires Chain(cells', false, Chains.Without(s, i), head, end)
    requires s[j] in cells && Backtracks(cells[s[j]].op)
    requires s[i] in cells && !(cells[s[i]].op == DynTry && cells[s[i]].next == s[j])
    ensures Survives(cells, cells', s[j], s[i])
  {
    ChainSafe(cells, cells', false, s, head, end, i, j);
  }

  /** Unlinking clause i of block k, as seen by those who know the result only. */
  ghost predicate Unlinked(hash: Hash, st: Store, st': Store, layout: seq<Block>, layout': seq<Block>, k: nat, i: nat)
  {
    && LayoutRight(hash, st, layout) && LayoutRight(hash, st', layout')
    && k < |layout| && i < |layout[k].cls| && st'.keys == st.keys - {layout[k].cls[i]}
    && layout' == (if |layout[k].cls| == 1 then Dropped(layout, k) else layout[k := Block(layout[k].sob, Dropped(layout[k].cls, i))])
    && forall s :: s in st'.sobs ==> s in st.sobs && |st'.sobs[s].table| == |st.sobs[s].table|
  }

  lemma OtherBlockAt(layout: seq<Block>, layout': seq<Block>, k: nat, i: nat, kx: nat) returns (at: nat)
    requires k < |layout| && i < |layout[k].cls| && kx < |layout| && kx != k
    requires layout' == (if |layout[k].cls| == 1 then Dropped(layout, k) else layout[k := Block(layout[k].sob, Dropped(layout[k].cls, i))])
    ensures at < |layout'| && layout'[at] == layout[kx]
  {
    at := if |layout[k].cls| == 1 && kx > k then kx - 1 else kx;
  }

  /** Another block is still there. */
  lemma OtherBlockStays(hash: Hash, st: Store, st': Store, layout: seq<Block>, layout': seq<Block>, k: nat, i: nat, kx: nat)
    requires Unlinked(hash, st, st', layout, layout', k, i) && kx < |layout| && kx != k
    ensures BlockRight(hash, st, layout[kx]) && BlockRight(hash, st', layout[kx]) && layout[k].cls[i] !in layout[kx].cls
  {
    assert BlockRight(hash, st, layout[kx]);
    var at := OtherBlockAt(layout, layout', k, i, kx);
    assert BlockRight(hash, st', layout'[at]);
    ApartFrom(layout, k, kx);
  }

  lemma ThisBlockStays(hash: Hash, st: Store, st': Store, layout: seq<Block>, layout': seq<Block>, k: nat, i: nat)
    requires Unlinked(hash, st, st', layout, layout', k, i) && |layout[k].cls| > 1
    ensures BlockRight(hash, st, layout[k]) && BlockRight(hash, st', Block(layout[k].sob, Dropped(layout[k].cls, i)))
    ensures layout[k].cls[i] !in layout[k].cls[..i] && layout[k].cls[i] !in Dropped(layout[k].cls, i)
  {
    assert BlockRight(hash, st, layout[k]) && BlockRight(hash, st', layout'[k]);
    OnlyOnce(st, layout[k].sob, layout[k].cls, i);
  }

  lemma AllLinkSurvives(hash: Hash, st: Store, st': Store, layout: seq<Block>, layout': seq<Block>, k: nat, i: nat, kx: nat, ix: nat)
    requires Unlinked(hash, st, st', layout, layout', k, i)
    requires kx < |layout| && ix < |layout[kx].cls| && layout[kx].cls[ix] != layout[k].cls[i]
    requires var (c, x) := (AllLink(layout[k].cls[i]), AllLink(layout[kx].cls[ix]));
      && x in st.cells && Backtracks(st.cells[x].op)
      && c in st.cells && !(st.cells[c].op == DynTry && st.cells[c].next == x)
    ensures Survives(st.cells, st'.cells, AllLink(layout[kx].cls[ix]), AllLink(layout[k].cls[i]))
  {
    var b, c := layout[kx], layout[k].cls[i];
    if kx != k {
      OtherBlockStays(hash, st, st', layout, layout', k, i, kx);
      SameChainSurvives(st.cells, st'.cells, AllLinks(b.cls), SobHdr(b.sob), SobHdr(b.sob), ix, AllLink(c));
    } else {
      ThisBlockStays(hash, st, st', layout, layout', k, i);
      AllLinksDropped(b.cls, i);
      ChangedChainSurvives(st.cells, st'.cells, AllLinks(b.cls), SobHdr(b.sob), SobHdr(b.sob), i, ix);
    }
  }

  lemma IndLinkSurvives(hash: Hash, st: Store, st': Store, layout: seq<Block>, layout': seq<Block>, k: nat, i: nat, kx: nat, x: nat)
    requires Unlinked(hash, st, st', layout, layout', k, i)
    requires kx < |layout| && x in layout[kx].cls && x != layout[k].cls[i]
    requires var c := IndLink(layout[k].cls[i]);
      && IndLink(x) in st.cells && Backtracks(st.cells[IndLink(x)].op)
      && c in st.cells && !(st.cells[c].op == DynTry && st.cells[c].next == IndLink(x))
    ensures Survives(st.cells, st'.cells, IndLink(x), IndLink(layout[k].cls[i]))
  {
    var b, c := layout[kx], layout[k].cls[i];
    if kx != k {
      OtherBlockStays(hash, st, st', layout, layout', k, i, kx);
      BucketSurvives(hash, st, st', b.sob, b.cls, b.cls, x, c);
    } else {
      ThisBlockStays(hash, st, st', layout, layout', k, i);
      if Slot(hash, st.keys[c], |st.sobs[b.sob].table|) == Slot(hash, st.keys[x], |st.sobs[b.sob].table|) {
        SameBucketSurvives(hash, st, st', b.sob, b.cls, i, x);
      } else {
        MembersDropped(hash, st.keys, b.cls, i, |st.sobs[b.sob].table|, Slot(hash, st.keys[x], |st.sobs[b.sob].table|));
        BucketSurvives(hash, st, st', b.sob, b.cls, Dropped(b.cls, i), x, c);
      }
    }
  }

  /** The bucket of x did not have c in it. */
  lemma BucketSurvives(hash: Hash, st: Store, st': Store, sob: nat, cls: seq<nat>, cls': seq<nat>, x: nat, c: nat)
    requires TableRight(hash, st, sob, cls) && TableRight(hash, st', sob, cls') && |st'.sobs[sob].table| == |st.sobs[sob].table|
    requires x in cls && c != x && st'.keys == st.keys - {c} && c !in cls' && forall y :: y in cls' ==> y in cls
    requires var (size, h) := (|st.sobs[sob].table|, Slot(hash, st.keys[x], |st.sobs[sob].table|));
      Members(hash, st.keys, cls', size, h) == Members(hash, st.keys, cls, size, h)
    requires IndLink(x) in st.cells && Backtracks(st.cells[IndLink(x)].op)
    ensures Survives(st.cells, st'.cells, IndLink(x), IndLink(c))
  {
    var size := |st.sobs[sob].table|;
    var h := Slot(hash, st.keys[x], size);
    var m := Members(hash, st.keys, cls, size, h);
    MembersIn(hash, st.keys, cls, size, h);
    MembersIn(hash, st.keys, cls', size, h);
    MembersSameKeys(hash, st.keys, st'.keys, cls', size, h);
    assert BucketRight(hash, st, sob, cls, h) && BucketRight(hash, st', sob, cls', h);
    var j :| 0 <= j < |m| && m[j] == x;
    SameChainSurvives(st.cells, st'.cells, IndLinks(m), Bucket(sob, h), SobHdr(sob), j, IndLink(c));
  }

  lemma SameBucketSurvives(hash: Hash, st: Store, st': Store, sob: nat, cls: seq<nat>, i: nat, x: nat)
    requires i < |cls| && x in cls && x != cls[i] && cls[i] !in cls[..i] && cls[i] !in Dropped(cls, i)
    requires TableRight(hash, st, sob, cls) && TableRight(hash, st', sob, Dropped(cls, i)) && |st'.sobs[sob].table| == |st.sobs[sob].table|
    requires st'.keys == st.keys - {cls[i]}
    requires Slot(hash, st.keys[cls[i]], |st.sobs[sob].table|) == Slot(hash, st.keys[x], |st.sobs[sob].table|)
    requires var c := IndLink(cls[i]);
      && IndLink(x) in st.cells && Backtracks(st.cells[IndLink(x)].op)
      && c in st.cells && !(st.cells[c].op == DynTry && st.cells[c].next == IndLink(x))
    ensures Survives(st.cells, st'.cells, IndLink(x), IndLink(cls[i]))
  {
    var size := |st.sobs[sob].table|;
    var h := Slot(hash, st.keys[x], size);
    var m, rest := Members(hash, st.keys, cls, size, h), Dropped(cls, i);
    MembersIn(hash, st.keys, cls, size, h);
    MembersDropped(hash, st.keys, cls, i, size, h);
    var jc := |Members(hash, st.keys, cls[..i], size, h)|;
    MembersSameKeys(hash, st.keys, st'.keys, rest, size, h);
    assert BucketRight(hash, st, sob, cls, h) && BucketRight(hash, st', sob, rest, h);
    IndLinksDropped(m, jc);
    var j :| 0 <= j < |m| && m[j] == x;
    ChangedChainSurvives(st.cells, st'.cells, IndLinks(m), Bucket(sob, h), SobHdr(sob), jc, j);
  }

  // ----- the clauses that can still be used -----

  /** The clauses whose code has been made to fail. They stay linked until they are unlinked. */
  class EntryPoints {
    var failing: set<nat>

    constructor ()
      ensures failing == {}
    {
      failing := {};
    }

    method MarkForDeletion(c: nat)
      modifies this
      ensures failing == old(failing) + {c}
    {
      failing := failing + {c};
    }

    /** The clause's memory is given back, its entry point with it. */
    method Forget(c: nat)
      modifies this
      ensures failing == old(failing) - {c}
    {
      failing := failing - {c};
    }
  }

  /** The linked clauses a call can still use, in order. */
  ghost function Live(cls: seq<nat>, failing: set<nat>): (s: seq<nat>)
    ensures forall x :: x in s <==> x in cls && x !in failing
  {
    if cls == [] then []
    else if cls[0] in failing then Live(cls[1..], failing)
    else [cls[0]] + Live(cls[1..], failing)
  }

  lemma {:induction false} LiveSame(cls: seq<nat>, failing: set<nat>, failing': set<nat>, c: nat)
    requires c !in cls && failing - {c} == failing' - {c}
    ensures Live(cls, failing) == Live(cls, failing') && Minus(Live(cls, failing), c) == Live(cls, failing)
  {
    if cls != [] {
      assert cls[0] in failing <==> cls[0] in failing - {c};
      assert cls[0] in failing' <==> cls[0] in failing' - {c};
      LiveSame(cls[1..], failing, failing', c);
      MinusFirst(cls[0], Live(cls[1..], failing), c);
    }
  }

  /** Marking a clause takes it from the list of the live ones, and so does marking, unlinking and forgetting it. */
  lemma {:induction false} LiveLoses(cls: seq<nat>, failing: set<nat>, c: nat)
    requires c in cls && c !in Minus(cls, c)
    ensures Live(cls, failing + {c}) == Minus(Live(cls, failing), c)
    ensures Live(Minus(cls, c), failing + {c} - {c}) == Minus(Live(cls, failing), c)
  {
    var rest := cls[1..];
    if cls[0] == c {
      LiveSame(rest, failing, failing + {c}, c);
      LiveSame(rest, failing, failing + {c} - {c}, c);
      MinusFirst(c, Live(rest, failing), c);
    } else {
      assert Minus(cls, c) == [cls[0]] + Minus(rest, c) && Minus(cls, c)[1..] == Minus(rest, c);
      LiveLoses(rest, failing, c);
      MinusFirst(cls[0], Live(rest, failing), c);
    }
  }

  /** No clause is linked twice. */
  lemma {:induction false} LinkedOnce(hash: Hash, st: Store, layout: seq<Block>, k: nat, i: nat)
    requires LayoutRight(hash, st, layout) && k < |layout| && i < |layout[k].cls| && layout[k].cls[i] !in Clauses(layout[..k])
    ensures layout[k].cls[i] !in Minus(Clauses(layout), layout[k].cls[i])
  {
    var c, rest := layout[k].cls[i], layout[k := Block(layout[k].sob, Dropped(layout[k].cls, i))];
    assert BlockRight(hash, st, layout[k]);
    OnlyOnce(st, layout[k].sob, layout[k].cls, i);
    ClausesDropped(hash, st, layout, k, i);
    assert c in layout[k].cls;
    forall kx: nat | kx < |rest|
      ensures c !in rest[kx].cls
    {
      if kx != k { ApartFrom(layout, k, kx); }
    }
    if c in Clauses(rest) {
      var kx, ix := ClauseAt(rest, c);
      assert false;
    }
  }

  lemma ChoicePointSurvives(hash: Hash, st: Store, st': Store, layout: seq<Block>, layout': seq<Block>, k: nat, i: nat, a: Addr)
    requires Unlinked(hash, st, st', layout, layout', k, i) && IsChoicePoint(st, layout, a)
    requires AllLink(layout[k].cls[i]) in st.cells && IndLink(layout[k].cls[i]) in st.cells && Harmless(st.cells, layout[k].cls[i], a)
    ensures Survives(st.cells, st'.cells, a, if a.AllLink? then AllLink(layout[k].cls[i]) else IndLink(layout[k].cls[i]))
  {
    var kx, ix := ClauseAt(layout, ClauseOf(a));
    if a.AllLink? {
      AllLinkSurvives(hash, st, st', layout, layout', k, i, kx, ix);
    } else {
      IndLinkSurvives(hash, st, st', layout, layout', k, i, kx, ClauseOf(a));
    }
  }

  /**
   Retracting c: from then on it is not among the live clauses. It is unlinked at once, if
   memory may be given back at all and every choice point is harmless to it; then every
   choice point survives. Otherwise it stays linked, failing.
   */
  method RetractClause(p: DynPred, e: EntryPoints, c: nat, mayReclaim: bool, cps: seq<Addr>, ghost layout: seq<Block>)
      returns (deleted: bool, ghost layout': seq<Block>)
    requires LayoutRight(p.hash, p.st, layout) && NoneEmpty(layout) && c in Clauses(layout)
    requires forall n :: 0 <= n < |cps| ==> IsChoicePoint(p.st, layout, cps[n])
    modifies p, e
    ensures LayoutRight(p.hash, p.st, layout') && NoneEmpty(layout')
    ensures Live(Clauses(layout'), e.failing) == Minus(Live(Clauses(layout), old(e.failing)), c)
    ensures Clauses(layout') == if deleted then Minus(Clauses(layout), c) else Clauses(layout)
    ensures c !in Live(Clauses(layout'), e.failing)
    ensures deleted <==> mayReclaim && forall n :: 0 <= n < |cps| ==> Harmless(old(p.st).cells, c, cps[n])
    ensures !deleted ==> p.st == old(p.st) && e.failing == old(e.failing) + {c}
    ensures deleted ==> e.failing == old(e.failing) - {c}
    ensures deleted ==> forall n :: 0 <= n < |cps| ==>
              Survives(old(p.st).cells, p.st.cells, cps[n], if cps[n].AllLink? then AllLink(c) else IndLink(c))
  {
    layout' := layout;
    deleted := false;
    ghost var st, failing := p.st, e.failing;
    ghost var k, i := ClauseAt(layout, c);
    LinkedOnce(p.hash, st, layout, k, i);
    LiveLoses(Clauses(layout), failing, c);
    e.MarkForDeletion(c);
    if !mayReclaim { return; }
    LinksOfClause(p.hash, p.st, layout, k, i);
    var marks, found := MarkCpStack(p.st.cells, cps, c);
    if found { return; }
    deleted := DetermineIfSafeToDelete(p.st.cells, c, marks);
    if !deleted { return; }
    layout' := p.DeleteClause(c, layout, k, i);
    e.Forget(c);
    assert failing + {c} - {c} == failing - {c};
    ClausesDropped(p.hash, st, layout, k, i);
    forall n | 0 <= n < |cps|
      ensures Survives(st.cells, p.st.cells, cps[n], if cps[n].AllLink? then AllLink(c) else IndLink(c))
    {
      assert IsChoicePoint(st, layout, cps[n]);
      ChoicePointSurvives(p.hash, st, p.st, layout, layout', k, i, cps[n]);
    }
  }

  lemma LinksOfClause(hash: Hash, st: Store, layout: seq<Block>, k: nat, i: nat)
    requires LayoutRight(hash, st, layout) && k < |layout| && i < |layout[k].cls|
    ensures var c := layout[k].cls[i];
      && AllLink(c) in st.cells && IndLink(c) in st.cells
      && (st.cells[AllLink(c)].op == DynTry ==> st.cells[AllLink(c)].next.AllLink?)
      && (st.cells[IndLink(c)].op == DynTry ==> st.cells[IndLink(c)].next.IndLink?)
  {
    var b, c := layout[k], layout[k].cls[i];
    assert BlockRight(hash, st, layout[k]);
    BlockCells(hash, st, b, c);
    assert Linked(st.cells, false, AllLinks(b.cls), SobHdr(b.sob), SobHdr(b.sob), i);
    var size := |st.sobs[b.sob].table|;
    var h := Slot(hash, st.keys[c], size);
    MembersIn(hash, st.keys, b.cls, size, h);
    var m := Members(hash, st.keys, b.cls, size, h);
    assert BucketRight(hash, st, b.sob, b.cls, h);
    var j :| 0 <= j < |m| && m[j] == c;
    assert Linked(st.cells, false, IndLinks(m), Bucket(b.sob, h), SobHdr(b.sob), j);
  }
}
