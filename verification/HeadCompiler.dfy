/**
 The compilation of terms: the arguments of a head, which are matched, and compound
 arguments of a body, which are built. Compound terms are flattened through the work
 queue; registers come from the allocator, and the compiler's own are given back as soon
 as the instruction that reads them has been emitted.
 */
module HeadCompiler {
  import opened CInts
  import opened Hiding
  import opened RegAlloc
  import opened InstQueues
  import opened HeadCode

  // ----- what the compiler keeps -----

  /** Registers needed later are in use, one purpose each, and that of a variable or a built term is never given back. */
  ghost predicate RegistersKept(o: Owed, inUse: map<int, int>) {
    && (forall i, j :: 0 <= i < j < |o.work| ==> o.work[i].r != o.work[j].r)
    && (forall i :: 0 <= i < |o.work| ==> o.work[i].r in inUse)
    && (forall v :: v in o.frozen ==> o.frozen[v] in inUse && inUse[o.frozen[v]] != TVAR)
    && (forall v, i :: v in o.frozen && 0 <= i < |o.work| ==> o.frozen[v] != o.work[i].r)
    && (forall k :: k in o.kept ==> o.kept[k] in inUse && inUse[o.kept[k]] == RVAR)
  }

  ghost predicate Sound(goal: Goal, code: seq<Instr>, o: Owed, inUse: map<int, int>) {
    forall k {:trigger Open(k)} :: Open(k) ==> Right(goal, code, o) && RegistersKept(o, inUse)
  }

  /** The register map after `r` is given back, if the compiler had introduced it. */
  ghost function AfterRelease(inUse: map<int, int>, r: int): map<int, int> {
    if r in inUse && inUse[r] == TVAR then inUse - {r} else inUse
  }

  lemma TakeOut(a: seq<Work>, x: Work, b: seq<Work>, o: Owed, o': Owed, inUse: map<int, int>)
    requires o.work == a + [x] + b && o'.work == a + b && o'.frozen == o.frozen && o'.kept == o.kept && RegistersKept(o, inUse)
    ensures Without(o, o', x) && RegistersKept(o', AfterRelease(inUse, x.r))
    ensures x.r in inUse && forall w :: w in o'.work ==> w.r != x.r
  {
    assert o.work[|a|] == x;
    assert forall i :: 0 <= i < |o'.work| ==> o'.work[i] == o.work[if i < |a| then i else i + 1];
    forall w
      ensures w in o.work <==> w == x || w in o'.work
    {
      if w in o.work {
        var i :| 0 <= i < |o.work| && o.work[i] == w;
        if i != |a| { assert o'.work[if i < |a| then i else i - 1] == w; }
      }
    }
  }

  lemma NewRegister(o: Owed, inUse: map<int, int>, r: int)
    requires RegistersKept(o, inUse) && r !in inUse
    ensures Unneeded(o, r)
  {
    forall w | w in o.work
      ensures w.r != r
    {
      var i :| 0 <= i < |o.work| && o.work[i] == w;
    }
  }

  lemma SoundStart(goal: Goal, o: Owed, inUse: map<int, int>)
    requires o.frozen == map[] && o.subs == [] && o.kept == map[] && |o.work| == |goal.head| && goal.built == []
    requires forall i :: 0 <= i < |goal.head| ==> o.work[i] == Work(i + 1, goal.head[i]) && o.work[i].r in inUse
    ensures Sound(goal, [], o, inUse)
  {
    forall input
      ensures Done(goal, [], o, input)
    {
      var m := Start(input);
      forall s
        ensures Matches(s, goal, input) <==> Settles(s, o, m)
      {
        if Settles(s, o, m) {
          forall i | 0 <= i < |goal.head|
            ensures Apply(s, goal.head[i]) == input.regs(i + 1)
          {
            assert o.work[i] in o.work;
          }
        }
      }
    }
  }

  // ----- getting -----

  lemma GotConstant(goal: Goal, code: seq<Instr>, o: Owed, o': Owed, inUse: map<int, int>, a: seq<Work>, x: Work, b: seq<Work>)
    requires goal.built == []
    requires Sound(goal, code, o, inUse) && o.work == a + [x] + b && o' == o.(work := a + b) && o.subs == []
    requires Constant(x.t)
    ensures Sound(goal, code + [GetConstant(x.t, x.r)], o', AfterRelease(inUse, x.r))
  {
    assert Open(0);
    TakeOut(a, x, b, o, o', inUse);
    PayGetConstant(o, o', x);
    PayOne(goal, code, GetConstant(x.t, x.r), o, o');
  }

  lemma GotValue(goal: Goal, code: seq<Instr>, o: Owed, o': Owed, inUse: map<int, int>, a: seq<Work>, x: Work, b: seq<Work>)
    requires goal.built == []
    requires Sound(goal, code, o, inUse) && o.work == a + [x] + b && o' == o.(work := a + b) && o.subs == []
    requires x.t.Var? && x.t.v in o.frozen
    ensures Sound(goal, code + [GetTVal(o.frozen[x.t.v], x.r)], o', AfterRelease(inUse, x.r))
  {
    assert Open(0);
    TakeOut(a, x, b, o, o', inUse);
    PayGetTVal(o, o', x);
    PayOne(goal, code, GetTVal(o.frozen[x.t.v], x.r), o, o');
  }

  lemma GotVariable(goal: Goal, code: seq<Instr>, o: Owed, o': Owed, inUse: map<int, int>, a: seq<Work>, x: Work, b: seq<Work>)
    requires Sound(goal, code, o, inUse) && o.work == a + [x] + b && o.subs == []
    requires x.t.Var? && x.t.v !in o.frozen && o' == o.(work := a + b, frozen := o.frozen[x.t.v := x.r])
    requires x.r in inUse && inUse[x.r] != TVAR
    ensures Sound(goal, code, o', inUse)
  {
    assert Open(0);
    var mid := o.(work := a + b);
    TakeOut(a, x, b, o, mid, inUse);
    PayFreezeArgument(goal, code, o, o', x);
    forall i | 0 <= i < |o'.work|
      ensures o'.work[i].r != x.r
    {
      assert o'.work[i] in o'.work;
    }
  }

  lemma GotList(goal: Goal, code: seq<Instr>, o: Owed, o': Owed, inUse: map<int, int>, a: seq<Work>, x: Work, b: seq<Work>)
    requires Sound(goal, code, o, inUse) && o.work == a + [x] + b && o.subs == []
    requires x.t.List? && o' == o.(work := a + b, subs := [x.t.car, x.t.cdr])
    ensures x.r in inUse && Sound(goal, code + [GetList(x.r)], o', AfterRelease(inUse, x.r))
  {
    assert Open(0);
    TakeOut(a, x, b, o, o', inUse);
    PayGetList(goal.built != [], o, o', x);
    PayOne(goal, code, GetList(x.r), o, o');
  }

  lemma GotStr(goal: Goal, code: seq<Instr>, o: Owed, o': Owed, inUse: map<int, int>, a: seq<Work>, x: Work, b: seq<Work>)
    requires Sound(goal, code, o, inUse) && o.work == a + [x] + b && o.subs == []
    requires x.t.Str? && o' == o.(work := a + b, subs := x.t.args)
    ensures x.r in inUse && Sound(goal, code + [GetStr(x.r, x.t.functor, |x.t.args|)], o', AfterRelease(inUse, x.r))
  {
    assert Open(0);
    TakeOut(a, x, b, o, o', inUse);
    PayGetStr(goal.built != [], o, o', x);
    PayOne(goal, code, GetStr(x.r, x.t.functor, |x.t.args|), o, o');
  }

  /** A cell of two new variables; r1 and r2 were just taken for them. */
  lemma GotTwoVariables(goal: Goal, code: seq<Instr>, o: Owed, o': Owed, inUse: map<int, int>, a: seq<Work>, x: Work, b: seq<Work>, r1: int, r2: int)
    requires goal.built == []
    requires Sound(goal, code, o, inUse) && o.work == a + [x] + b && o.subs == []
    requires x.t.List? && x.t.car.Var? && x.t.cdr.Var? && x.t.car != x.t.cdr
    requires x.t.car.v !in o.frozen && x.t.cdr.v !in o.frozen
    requires r1 !in inUse && r2 !in inUse && r1 != r2
    requires o' == o.(work := a + b, frozen := o.frozen[x.t.car.v := r1][x.t.cdr.v := r2])
    ensures var taken := inUse[r1 := RVAR][r2 := RVAR];
      x.r in taken && Sound(goal, code + [GetListTVarTVar(x.r, r1, r2)], o', AfterRelease(taken, x.r))
  {
    assert Open(0);
    var mid := o.(work := a + b);
    TakeOut(a, x, b, o, mid, inUse);
    NewRegister(o, inUse, r1);
    NewRegister(o, inUse, r2);
    PayGetListTVarTVar(o, o', x, r1, r2);
    PayOne(goal, code, GetListTVarTVar(x.r, r1, r2), o, o');
    var taken := inUse[r1 := RVAR][r2 := RVAR];
    forall v | v in o'.frozen
      ensures o'.frozen[v] in AfterRelease(taken, x.r) && taken[o'.frozen[v]] != TVAR
      ensures forall i :: 0 <= i < |o'.work| ==> o'.frozen[v] != o'.work[i].r
    {
      if v != x.t.car.v && v != x.t.cdr.v { assert v in mid.frozen; }
    }
  }

  // ----- unifying -----

  lemma UnifiedConstant(build: bool, goal: Goal, code: seq<Instr>, o: Owed, inUse: map<int, int>)
    requires build <==> goal.built != []
    requires Sound(goal, code, o, inUse) && o.subs != [] && Constant(o.subs[0])
    ensures Sound(goal, code + [UniConstant(build, o.subs[0])], o.(subs := o.subs[1..]), inUse)
  {
    assert Open(0);
    PayUniConstant(build, o, o.(subs := o.subs[1..]));
    PayOne(goal, code, UniConstant(build, o.subs[0]), o, o.(subs := o.subs[1..]));
  }

  lemma UnifiedValue(build: bool, goal: Goal, code: seq<Instr>, o: Owed, inUse: map<int, int>)
    requires build <==> goal.built != []
    requires Sound(goal, code, o, inUse) && o.subs != [] && o.subs[0].Var? && o.subs[0].v in o.frozen
    ensures Sound(goal, code + [UniTVal(build, o.frozen[o.subs[0].v])], o.(subs := o.subs[1..]), inUse)
  {
    assert Open(0);
    PayUniTVal(build, o, o.(subs := o.subs[1..]));
    PayOne(goal, code, UniTVal(build, o.frozen[o.subs[0].v]), o, o.(subs := o.subs[1..]));
  }

  lemma UnifiedVariable(build: bool, goal: Goal, code: seq<Instr>, o: Owed, inUse: map<int, int>, r: int)
    requires build <==> goal.built != []
    requires Sound(goal, code, o, inUse) && o.subs != [] && o.subs[0].Var? && o.subs[0].v !in o.frozen && r !in inUse
    ensures Sound(goal, code + [UniTVar(build, r)], o.(subs := o.subs[1..], frozen := o.frozen[o.subs[0].v := r]), inUse[r := RVAR])
  {
    assert Open(0);
    var o' := o.(subs := o.subs[1..], frozen := o.frozen[o.subs[0].v := r]);
    NewRegister(o, inUse, r);
    PayUniTVarNew(build, o, o', r);
    PayOne(goal, code, UniTVar(build, r), o, o');
    forall v, i | v in o'.frozen && 0 <= i < |o'.work|
      ensures o'.frozen[v] != o'.work[i].r
    {
      assert o.work[i] in o.work;
    }
  }

  lemma UnifiedLater(build: bool, goal: Goal, code: seq<Instr>, o: Owed, inUse: map<int, int>, r: int)
    requires build <==> goal.built != []
    requires Sound(goal, code, o, inUse) && o.subs != [] && r !in inUse
    ensures Sound(goal, code + [UniTVar(build, r)], o.(subs := o.subs[1..], work := [Work(r, o.subs[0])] + o.work), inUse[r := TVAR])
  {
    assert Open(0);
    var x := Work(r, o.subs[0]);
    var o' := o.(subs := o.subs[1..], work := [x] + o.work);
    NewRegister(o, inUse, r);
    assert o'.work[0] == x && forall i :: 0 < i < |o'.work| ==> o'.work[i] == o.work[i - 1];
    PayUniTVarLater(build, o, o', r);
    PayOne(goal, code, UniTVar(build, r), o, o');
    forall i, j | 0 <= i < j < |o'.work|
      ensures o'.work[i].r != o'.work[j].r
    {
      assert o.work[j - 1] in o.work;
    }
  }

  lemma UnifiedSmallInt(build: bool, goal: Goal, code: seq<Instr>, o: Owed, inUse: map<int, int>, r: int)
    requires build <==> goal.built != []
    requires Sound(goal, code, o, inUse) && r !in inUse
    requires |o.subs| == 1 && o.subs[0].List? && o.subs[0].car.Int? && 0 <= o.subs[0].car.n <= 0xffff
    ensures var n := o.subs[0].car.n;
      Sound(goal, code + [UniTVarGetListUniNumCon(build, r, n / 256, n % 256)], o.(subs := [o.subs[0].cdr]), inUse)
  {
    assert Open(0);
    NewRegister(o, inUse, r);
    PayUniTVarGetListUniNumCon(build, o, o.(subs := [o.subs[0].cdr]), r);
    PayOne(goal, code, UniTVarGetListUniNumCon(build, r, o.subs[0].car.n / 256, o.subs[0].car.n % 256), o, o.(subs := [o.subs[0].cdr]));
  }

  // ----- the order of the work -----

  /** Where entry i of the rotated queue and the items after it came from. */
  ghost function Origin(n: int, k: int, i: int): int {
    if i < n - k then i + k else if i < n then i + k - n else i
  }

  lemma RotatedFrom(q: seq<Work>, k: int, rest: seq<Work>)
    requires 0 <= k <= |q|
    ensures var (s, t) := (q + rest, Rotated(q, k) + rest);
      && |t| == |s|
      && (forall i :: 0 <= i < |t| ==> 0 <= Origin(|q|, k, i) < |s| && t[i] == s[Origin(|q|, k, i)])
      && (forall w :: w in s <==> w in t)
  {
    var s, t, n := q + rest, Rotated(q, k) + rest, |q|;
    assert forall i :: 0 <= i < |t| ==> t[i] == s[Origin(n, k, i)];
    forall w | w in s
      ensures w in t
    {
      var i :| 0 <= i < |s| && s[i] == w;
      assert t[if i < k then i - k + n else if i < n then i - k else i] == w;
    }
  }

  lemma RotatedKept(o: Owed, o': Owed, inUse: map<int, int>, q: seq<Work>, k: int, rest: seq<Work>)
    requires RegistersKept(o, inUse) && 0 <= k <= |q| && o.work == q + rest
    requires o'.work == Rotated(q, k) + rest && o'.frozen == o.frozen && o'.kept == o.kept
    ensures RegistersKept(o', inUse)
  {
    RotatedFrom(q, k, rest);
    forall i, j | 0 <= i < j < |o'.work|
      ensures o'.work[i].r != o'.work[j].r
    {
      var a, b := Origin(|q|, k, i), Origin(|q|, k, j);
      if a < b { assert o.work[a].r != o.work[b].r; } else { assert o.work[b].r != o.work[a].r; }
    }
  }

  /** The order of the pending work does not matter. */
  lemma Reordered(goal: Goal, code: seq<Instr>, o: Owed, inUse: map<int, int>, q: seq<Work>, k: int, rest: seq<Work>)
    requires Sound(goal, code, o, inUse) && 0 <= k <= |q| && o.work == q + rest
    ensures Sound(goal, code, o.(work := Rotated(q, k) + rest), inUse)
  {
    assert Open(0);
    var o' := o.(work := Rotated(q, k) + rest);
    RotatedFrom(q, k, rest);
    RotatedKept(o, o', inUse, q, k, rest);
    PayNone(goal, code, o, o');
  }

  // ----- what is built -----

  /** The integer the compiler looks at in front of a last list argument: when building, it has been through a C int. */
  function Number(build: bool, n: int): int {
    if build then ToCInt(n) else n
  }

  /** A list with an integer in front that, in last position, is taken in one instruction. */
  predicate Short(build: bool, t: Term) {
    t.List? && t.car.Int? && 0 <= Number(build, t.car.n) <= 0xffff
  }

  /** The term that is built for t, in last position or not. */
  function Made(t: Term, last: bool): (r: Term)
    ensures (t.List? <==> r.List?) && (t.Str? <==> r.Str?) && (t.Str? ==> r.functor == t.functor && |r.args| == |t.args|)
    ensures !t.List? && !t.Str? ==> r == t
  {
    match t
    case List(a, b) => List(if last && Short(true, t) then Int(ToCInt(a.n)) else Made(a, false), Made(b, true))
    case Str(f, args) => Str(f, seq(|args|, i requires 0 <= i < |args| => Made(args[i], i == |args| - 1)))
    case _ => t
  }

  /** No list in last position has an integer in front that is small only once it is cut to a C int. */
  predicate CutSafe(t: Term, last: bool) {
    match t
    case List(a, b) => (last && Short(true, t) ==> Short(false, t)) && CutSafe(a, false) && CutSafe(b, true)
    case Str(_, args) => forall i :: 0 <= i < |args| ==> CutSafe(args[i], i == |args| - 1)
    case _ => true
  }

  /** What a cut can do to a list in last position: 16 bits are too few for the integer, yet enough for what a C int keeps of it. */
  lemma CutSafeMeans(n: int, tail: Term)
    ensures CutSafe(List(Int(n), tail), true) <==> CutSafe(tail, true) && (0 <= ToCInt(n) < 0x1_0000 ==> n == ToCInt(n))
  {
  }

  /** What is built has the value of the term, under any substitution, exactly if no integer is changed by a cut. */
  lemma {:induction false} MadeSameIff(s: nat -> Ground, t: Term, last: bool)
    ensures Apply(s, Made(t, last)) == Apply(s, t) <==> CutSafe(t, last)
  {
    match t
    case List(a, b) =>
      MadeSameIff(s, a, false);
      MadeSameIff(s, b, true);
      MadeList(s, a, b, last);
    case Str(_, args) =>
      forall i | 0 <= i < |args|
        ensures Apply(s, Made(args[i], i == |args| - 1)) == Apply(s, args[i]) <==> CutSafe(args[i], i == |args| - 1)
      {
        MadeSameIff(s, args[i], i == |args| - 1);
      }
      MadeArgs(s, t, last);
    case _ =>
  }

  lemma MadeList(s: nat -> Ground, a: Term, b: Term, last: bool)
    requires Apply(s, Made(a, false)) == Apply(s, a) <==> CutSafe(a, false)
    requires Apply(s, Made(b, true)) == Apply(s, b) <==> CutSafe(b, true)
    ensures Apply(s, Made(List(a, b), last)) == Apply(s, List(a, b)) <==> CutSafe(List(a, b), last)
  {
    var t := List(a, b);
    var car := if last && Short(true, t) then Int(ToCInt(a.n)) else Made(a, false);
    assert Apply(s, Made(t, last)) == GList(Apply(s, car), Apply(s, Made(b, true)));
    assert Apply(s, t) == GList(Apply(s, a), Apply(s, b));
  }

  lemma MadeArgs(s: nat -> Ground, t: Term, last: bool)
    requires t.Str?
    ensures Apply(s, Made(t, last)) == Apply(s, t) <==>
      forall i :: 0 <= i < |t.args| ==> Apply(s, Made(t.args[i], i == |t.args| - 1)) == Apply(s, t.args[i])
  {
    var x, y, made := Apply(s, Made(t, last)), Apply(s, t), Made(t, last).args;
    assert forall i :: 0 <= i < |t.args| ==> made[i] == Made(t.args[i], i == |t.args| - 1);
    assert |x.args| == |t.args| == |y.args|;
    assert forall i :: 0 <= i < |t.args| ==> x.args[i] == Apply(s, made[i]) && y.args[i] == Apply(s, t.args[i]);
    if forall i :: 0 <= i < |t.args| ==> x.args[i] == y.args[i] { assert x.args == y.args; }
  }

  /** What matching or building a cell amounts to. */
  function Meant(build: bool, t: Term, last: bool): Term {
    if build then Made(t, last) else t
  }

  ghost function MeantArgs(build: bool, args: seq<Term>): (r: seq<Term>)
    ensures |r| == |args| && forall i :: 0 <= i < |args| ==> r[i] == Meant(build, args[i], i == |args| - 1)
  {
    seq(|args|, i requires 0 <= i < |args| => Meant(build, args[i], i == |args| - 1))
  }

  lemma MeantParts(build: bool, t: Term)
    requires t.List? || t.Str?
    ensures Parts(Meant(build, t, false)) == if t.List? then [Meant(build, t.car, false), Meant(build, t.cdr, true)] else MeantArgs(build, t.args)
  {
    if t.Str? { assert Parts(Meant(build, t, false)) == MeantArgs(build, t.args); }
  }

  ghost function MeantWork(build: bool, x: Work): Work {
    Work(x.r, Meant(build, x.t, false))
  }

  /** What the queued terms amount to. */
  ghost function Owing(build: bool, q: seq<Work>): (r: seq<Work>)
    ensures |r| == |q| && forall i :: 0 <= i < |q| ==> r[i] == MeantWork(build, q[i])
  {
    seq(|q|, i requires 0 <= i < |q| => MeantWork(build, q[i]))
  }

  // ----- the variables met -----

  function Vars(t: Term): set<nat> {
    match t
    case Var(v) => {v}
    case List(a, b) => Vars(a) + Vars(b)
    case Str(_, args) => VarsAll(args)
    case _ => {}
  }

  function VarsAll(ts: seq<Term>): set<nat> {
    if ts == [] then {} else Vars(ts[0]) + VarsAll(ts[1..])
  }

  lemma {:induction false} VarsSnoc(ts: seq<Term>, t: Term)
    ensures VarsAll(ts + [t]) == VarsAll(ts) + Vars(t)
  {
    if ts == [] {
      assert ts + [t] == [t] && [t][1..] == [];
    } else {
      VarsSnoc(ts[1..], t);
      assert (ts + [t])[1..] == ts[1..] + [t];
    }
  }

  ghost function WorkVars(q: seq<Work>): set<nat> {
    set i, v | 0 <= i < |q| && v in Vars(q[i].t) :: v
  }

  /** Where the compiler stands: the variables' registers, the queued terms, the registers in use. */
  datatype Stage = Stage(frozen: map<nat, int>, q: seq<Work>, inUse: map<int, int>)

  ghost predicate Knows(a: Stage, v: nat) {
    v in a.frozen || v in WorkVars(a.q)
  }

  /** From a to b every variable keeps its register, those of `vars` are met or queued and no others, and new ones get registers of the clause. */
  ghost predicate Grown(a: Stage, vars: set<nat>, b: Stage) {
    forall k {:trigger Open(k)} :: Open(k) ==>
      && (forall v :: v in a.frozen ==> v in b.frozen && b.frozen[v] == a.frozen[v])
      && (forall v :: Knows(b, v) <==> Knows(a, v) || v in vars)
      && (forall v :: v in b.frozen && v !in a.frozen ==> b.frozen[v] in b.inUse && b.inUse[b.frozen[v]] == RVAR)
      && (forall r :: r in a.inUse && a.inUse[r] != TVAR ==> r in b.inUse && b.inUse[r] == a.inUse[r])
  }

  lemma GrownNone(a: Stage, vars: set<nat>)
    requires forall v :: v in vars ==> v in a.frozen
    ensures Grown(a, vars, a)
  {
  }

  lemma GrownOn(a: Stage, vars: set<nat>, b: Stage, more: set<nat>, c: Stage)
    requires Grown(a, vars, b) && Grown(b, more, c)
    ensures Grown(a, vars + more, c)
  {
    assert Open(0);
  }

  lemma GrownSame(a: Stage, vars: set<nat>, b: Stage, c: Stage)
    requires Grown(a, vars, b) && Grown(b, {}, c)
    ensures Grown(a, vars, c)
  {
    GrownOn(a, vars, b, {}, c);
    assert vars + {} == vars;
  }

  lemma GrownVariable(a: Stage, v: nat, r: int)
    requires v !in a.frozen && r !in a.inUse
    ensures Grown(a, {v}, Stage(a.frozen[v := r], a.q, a.inUse[r := RVAR]))
  {
  }

  lemma GrownLater(a: Stage, r: int, t: Term)
    requires r !in a.inUse
    ensures Grown(a, Vars(t), Stage(a.frozen, [Work(r, t)] + a.q, a.inUse[r := TVAR]))
  {
    var q := [Work(r, t)] + a.q;
    forall v
      ensures v in WorkVars(q) <==> v in Vars(t) || v in WorkVars(a.q)
    {
      if v in Vars(t) { assert q[0].t == t; }
      if v in WorkVars(a.q) {
        var i :| 0 <= i < |a.q| && v in Vars(a.q[i].t);
        assert q[i + 1] == a.q[i];
      }
    }
  }

  /** The term just popped is met instead of queued. */
  lemma GrownPopped(a: Stage, x: Work, b: Stage)
    requires Grown(a, Vars(x.t), b)
    ensures Grown(Stage(a.frozen, a.q + [x], a.inUse), {}, b)
  {
    assert Open(0);
    var q := a.q + [x];
    forall v
      ensures v in WorkVars(q) <==> v in Vars(x.t) || v in WorkVars(a.q)
    {
      if v in Vars(x.t) { assert q[|a.q|] == x; }
      if v in WorkVars(a.q) {
        var i :| 0 <= i < |a.q| && v in Vars(a.q[i].t);
        assert q[i] == a.q[i];
      }
    }
  }

  lemma GrownRotated(a: Stage, k: int)
    requires 0 <= k <= |a.q|
    ensures Grown(a, {}, Stage(a.frozen, Rotated(a.q, k), a.inUse))
  {
    var q := Rotated(a.q, k);
    forall v
      ensures v in WorkVars(q) <==> v in WorkVars(a.q)
    {
      if v in WorkVars(a.q) {
        var i :| 0 <= i < |a.q| && v in Vars(a.q[i].t);
        assert q[if i < k then i - k + |q| else i - k] == a.q[i];
      }
    }
  }

  lemma GrownReleased(a: Stage, r: int)
    ensures Grown(a, {}, Stage(a.frozen, a.q, AfterRelease(a.inUse, r)))
  {
  }

  // ----- measuring the work -----

  ghost function Size(t: Term): nat {
    match t
    case List(a, b) => 1 + Size(a) + Size(b)
    case Str(_, args) => 1 + SizeAll(args)
    case _ => 1
  }

  ghost function SizeAll(ts: seq<Term>): nat {
    if ts == [] then 0 else Size(ts[0]) + SizeAll(ts[1..])
  }

  ghost function WorkSize(q: seq<Work>): nat {
    if q == [] then 0 else Size(q[0].t) + WorkSize(q[1..])
  }

  lemma {:induction false} WorkSizeSum(a: seq<Work>, b: seq<Work>)
    ensures WorkSize(a + b) == WorkSize(a) + WorkSize(b)
  {
    if a == [] {
      assert a + b == b;
    } else {
      WorkSizeSum(a[1..], b);
      assert (a + b)[1..] == a[1..] + b;
    }
  }

  lemma WorkSizeRotated(q: seq<Work>, k: int)
    requires 0 <= k <= |q|
    ensures WorkSize(Rotated(q, k)) == WorkSize(q)
  {
    WorkSizeSum(q[..k], q[k..]);
    WorkSizeSum(q[k..], q[..k]);
    assert q[..k] + q[k..] == q;
  }

  lemma WorkSizeOne(q: seq<Work>, x: Work)
    ensures WorkSize([x] + q) == Size(x.t) + WorkSize(q) == WorkSize(q + [x])
  {
    assert ([x] + q)[1..] == q;
    WorkSizeSum(q, [x]);
    assert WorkSize([x]) == Size(x.t) + WorkSize([]);
  }

  lemma {:induction false} EachHasSize(q: seq<Work>)
    ensures |q| <= WorkSize(q)
  {
    if q != [] { EachHasSize(q[1..]); }
  }

  /** Registers in use, and those that matching the queued terms may still take. */
  ghost function Load(inUse: map<int, int>, q: seq<Work>): int {
    |inUse| + WorkSize(q) - |q|
  }

  /** The registers or the queue may be exhausted. */
  ghost predicate Crowded(load: int, work: int) {
    load >= MAX_REGS - 1 || work >= INST_QUEUE_SIZE - 1
  }

  /** Only compound terms are put off. */
  ghost predicate Compounds(q: seq<Work>) {
    forall x :: x in q ==> x.t.List? || x.t.Str?
  }

  // ----- the compiler -----

  class Compiler {
    const reg: RegStat
    var code: seq<Instr>
    /** The register of each variable met so far. */
    var frozen: map<nat, int>
    /** The register of each body argument built so far. */
    ghost var kept: map<nat, int>

    ghost function Debt(work: seq<Work>, subs: seq<Term>): Owed
      reads this
    {
      Owed(frozen, work, subs, kept)
    }

    /** The debt while terms are queued for matching, or for building. */
    ghost function Owes(build: bool, q: seq<Work>, rest: seq<Work>, subs: seq<Term>): Owed
      reads this
    {
      Debt(Owing(build, q) + rest, subs)
    }

    ghost function Now(q: seq<Work>): Stage
      reads this, reg
    {
      Stage(frozen, q, reg.inUse)
    }

    constructor (arity: nat)
      requires arity + 1 < MAX_REGS
      ensures fresh(reg) && fresh(reg.RegArray) && reg.Valid() && reg.size == arity && |reg.inUse| == arity + 1 && code == [] && frozen == map[] && kept == map[]
    {
      reg := new RegStat(arity);
      code, frozen, kept := [], map[], map[];
    }

    /** A first occurrence inside a structure. */
    method UniVariable(build: bool, v: nat, ghost goal: Goal, ghost work: seq<Work>, ghost more: seq<Term>) returns (rt: int, overflow: bool)
      requires build <==> goal.built != []
      requires reg.Valid() && v !in frozen
      requires Sound(goal, code, Debt(work, [Var(v)] + more), reg.inUse)
      modifies this`code, this`frozen, reg, reg.RegArray
      ensures overflow ==> |old(reg.inUse)| >= MAX_REGS - 1
      ensures !overflow ==> |reg.inUse| == |old(reg.inUse)| + 1
      ensures !overflow ==> reg.Valid() && Sound(goal, code, Debt(work, more), reg.inUse)
      ensures !overflow ==> rt !in old(reg.inUse) && frozen == old(frozen)[v := rt] && reg.inUse == old(reg.inUse)[rt := RVAR]
    {
      ghost var o, inUse := Debt(work, [Var(v)] + more), reg.inUse;
      rt, overflow := reg.Get(RVAR);
      if !overflow {
        UnifiedVariable(build, goal, code, o, inUse, rt);
        assert o.subs[1..] == more;
        frozen := frozen[v := rt];
        code := code + [UniTVar(build, rt)];
      }
    }

    /** A compound argument: read or build it in a register of the compiler's own, queue it. */
    method UniLater(build: bool, sub: Term, q: InstQueue<Work>, ghost goal: Goal, ghost rest: seq<Work>, ghost more: seq<Term>)
      returns (overflow: bool)
      requires build <==> goal.built != []
      requires reg.Valid() && q.Valid() && 0 <= q.added <= |q.contents| && Compounds(q.contents) && (sub.List? || sub.Str?)
      requires Sound(goal, code, Owes(build, q.contents, rest, [Meant(build, sub, false)] + more), reg.inUse)
      modifies this`code, reg, reg.RegArray, q, q.items
      ensures overflow ==> Crowded(|old(reg.inUse)|, |old(q.contents)|)
      ensures !overflow ==> |reg.inUse| == |old(reg.inUse)| + 1 && |q.contents| == |old(q.contents)| + 1
      ensures !overflow ==> reg.Valid() && q.Valid() && 0 <= q.added <= |q.contents| && Compounds(q.contents)
      ensures !overflow ==> Sound(goal, code, Owes(build, q.contents, rest, more), reg.inUse)
      ensures !overflow ==> WorkSize(q.contents) == old(WorkSize(q.contents)) + Size(sub)
      ensures !overflow ==> Grown(old(Now(q.contents)), Vars(sub), Now(q.contents))
    {
      var rt;
      ghost var o, inUse, was := Owes(build, q.contents, rest, [Meant(build, sub, false)] + more), reg.inUse, q.contents;
      rt, overflow := reg.Get(TVAR);
      if overflow { return; }
      UnifiedLater(build, goal, code, o, inUse, rt);
      assert o.subs[1..] == more;
      code := code + [UniTVar(build, rt)];
      overflow := q.Add(Work(rt, sub));
      if overflow { return; }
      OwingMore(build, Work(rt, sub), was, rest);
      WorkSizeOne(was, Work(rt, sub));
      GrownLater(Stage(frozen, was, inUse), rt, sub);
    }

    /** A last argument that is a list starting with a small number, as one instruction. */
    method UniSmallInt(build: bool, sub: Term, ghost goal: Goal, ghost work: seq<Work>) returns (overflow: bool)
      requires build <==> goal.built != []
      requires reg.Valid() && Short(build, sub)
      requires Sound(goal, code, Debt(work, [Meant(build, sub, true)]), reg.inUse)
      modifies this`code, reg, reg.RegArray
      ensures overflow ==> |old(reg.inUse)| >= MAX_REGS - 1
      ensures !overflow ==> reg.inUse == old(reg.inUse)
      ensures !overflow ==> reg.Valid() && Sound(goal, code, Debt(work, [Meant(build, sub.cdr, true)]), reg.inUse)
    {
      var rt;
      ghost var o, inUse := Debt(work, [Meant(build, sub, true)]), reg.inUse;
      rt, overflow := reg.Get(TVAR);
      if !overflow {
        var num := Number(build, sub.car.n);
        UnifiedSmallInt(build, goal, code, o, inUse, rt);
        code := code + [UniTVarGetListUniNumCon(build, rt, num / 256, num % 256)];
        reg.Release(rt);
        assert reg.inUse == inUse;
      }
    }

    /** One argument, by its kind. */
    method UniTerm(build: bool, sub: Term, q: InstQueue<Work>, ghost goal: Goal, ghost rest: seq<Work>, ghost more: seq<Term>)
      returns (overflow: bool)
      requires build <==> goal.built != []
      requires reg.Valid() && q.Valid() && 0 <= q.added <= |q.contents| && Compounds(q.contents)
      requires Sound(goal, code, Owes(build, q.contents, rest, [Meant(build, sub, false)] + more), reg.inUse)
      modifies this`code, this`frozen, reg, reg.RegArray, q, q.items
      ensures overflow ==> Crowded(|old(reg.inUse)|, |old(q.contents)|)
      ensures !overflow ==> Load(reg.inUse, q.contents) <= old(Load(reg.inUse, q.contents)) + Size(sub)
      ensures !overflow ==> reg.Valid() && q.Valid() && 0 <= q.added <= |q.contents| && Compounds(q.contents)
      ensures !overflow ==> Sound(goal, code, Owes(build, q.contents, rest, more), reg.inUse)
      ensures !overflow ==> WorkSize(q.contents) <= old(WorkSize(q.contents)) + Size(sub)
      ensures !overflow ==> Grown(old(Now(q.contents)), Vars(sub), Now(q.contents))
    {
      overflow := false;
      ghost var o, a := Owes(build, q.contents, rest, [Meant(build, sub, false)] + more), Now(q.contents);
      assert o.subs[1..] == more;
      match sub
      case Var(v) =>
        if v !in frozen {
          var rt;
          rt, overflow := UniVariable(build, v, goal, Owing(build, q.contents) + rest, more);
          if !overflow { GrownVariable(a, v, rt); }
        } else {
          UnifiedValue(build, goal, code, o, reg.inUse);
          code := code + [UniTVal(build, frozen[v])];
          GrownNone(a, Vars(sub));
        }
      case List(_, _) =>
        overflow := UniLater(build, sub, q, goal, rest, more);
      case Str(_, _) =>
        overflow := UniLater(build, sub, q, goal, rest, more);
      case _ =>
        UnifiedConstant(build, goal, code, o, reg.inUse);
        code := code + [UniConstant(build, sub)];
        GrownNone(a, Vars(sub));
    }

    /** One argument of the compound term being matched or built. */
    method GenInst(build: bool, sub0: Term, isLast: bool, q: InstQueue<Work>, ghost goal: Goal, ghost rest: seq<Work>, ghost more: seq<Term>)
      returns (overflow: bool)
      requires build <==> goal.built != []
      requires reg.Valid() && q.Valid() && 0 <= q.added <= |q.contents| && Compounds(q.contents)
      requires isLast ==> more == []
      requires Sound(goal, code, Owes(build, q.contents, rest, [Meant(build, sub0, isLast)] + more), reg.inUse)
      modifies this`code, this`frozen, reg, reg.RegArray, q, q.items
      ensures overflow ==> Crowded(|old(reg.inUse)|, |old(q.contents)|)
      ensures !overflow ==> Load(reg.inUse, q.contents) <= old(Load(reg.inUse, q.contents)) + Size(sub0)
      ensures !overflow ==> reg.Valid() && q.Valid() && 0 <= q.added <= |q.contents| && Compounds(q.contents)
      ensures !overflow ==> Sound(goal, code, Owes(build, q.contents, rest, more), reg.inUse)
      ensures !overflow ==> WorkSize(q.contents) <= old(WorkSize(q.contents)) + Size(sub0)
      ensures !overflow ==> Grown(old(Now(q.contents)), Vars(sub0), Now(q.contents))
    {
      var sub := sub0;
      overflow := false;
      while isLast && Short(build, sub)
        invariant reg.Valid() && Size(sub) <= Size(sub0) && reg.inUse == old(reg.inUse) && Vars(sub) == Vars(sub0)
        invariant Sound(goal, code, Owes(build, q.contents, rest, [Meant(build, sub, isLast)] + more), reg.inUse)
        modifies this`code, reg, reg.RegArray
        decreases sub
      {
        assert [Meant(build, sub, true)] + more == [Meant(build, sub, true)] && [Meant(build, sub.cdr, true)] + more == [Meant(build, sub.cdr, true)];
        overflow := UniSmallInt(build, sub, goal, Owing(build, q.contents) + rest);
        if overflow { return; }
        sub := sub.cdr;
      }
      assert Meant(build, sub, isLast) == Meant(build, sub, false);
      overflow := UniTerm(build, sub, q, goal, rest, more);
    }

    /** A list of two new variables. */
    method TakeTwoVariables(x: Work, ghost q: seq<Work>, ghost goal: Goal, ghost work: seq<Work>, ghost rest: seq<Work>) returns (overflow: bool)
      requires goal.built == []
      requires reg.Valid() && x.t.List? && x.t.car.Var? && x.t.cdr.Var? && x.t.car != x.t.cdr
      requires x.t.car.v !in frozen && x.t.cdr.v !in frozen
      requires Sound(goal, code, Debt(work + [x] + rest, []), reg.inUse)
      modifies this`code, this`frozen, reg, reg.RegArray
      ensures overflow ==> |old(reg.inUse)| + 1 >= MAX_REGS - 1
      ensures !overflow ==> |reg.inUse| <= |old(reg.inUse)| + 2
      ensures !overflow ==> reg.Valid() && Sound(goal, code, Debt(work + rest, []), reg.inUse)
      ensures !overflow ==> Grown(old(Now(q)), Vars(x.t), Now(q))
    {
      ghost var o, a := Debt(work + [x] + rest, []), Now(q);
      var rt1, rt2;
      rt1, overflow := reg.Get(RVAR);
      if overflow { return; }
      rt2, overflow := reg.Get(RVAR);
      if overflow { return; }
      var frozen' := frozen[x.t.car.v := rt1][x.t.cdr.v := rt2];
      GotTwoVariables(goal, code, o, Owed(frozen', work + rest, [], kept), a.inUse, work, x, rest, rt1, rt2);
      GrownTwo(a, x, rt1, rt2);
      frozen := frozen';
      code := code + [GetListTVarTVar(x.r, rt1, rt2)];
      reg.Release(x.r);
    }

    /** The two cells of a list: its head, then its tail. */
    method GenListParts(build: bool, t: Term, q: InstQueue<Work>, ghost goal: Goal, ghost rest: seq<Work>) returns (overflow: bool)
      requires build <==> goal.built != []
      requires reg.Valid() && q.Valid() && Compounds(q.contents) && t.List?
      requires Sound(goal, code, Owes(build, q.contents, rest, [Meant(build, t.car, false), Meant(build, t.cdr, true)]), reg.inUse)
      modifies this`code, this`frozen, reg, reg.RegArray, q, q.items
      ensures overflow ==> Crowded(old(Load(reg.inUse, q.contents)) + Size(t) - 1, old(WorkSize(q.contents)) + Size(t))
      ensures !overflow ==> Load(reg.inUse, q.contents) <= old(Load(reg.inUse, q.contents)) + Size(t) - 1
      ensures !overflow ==> reg.Valid() && q.Valid() && 0 <= q.added <= |q.contents| && Compounds(q.contents)
      ensures !overflow ==> Sound(goal, code, Owes(build, q.contents, rest, []), reg.inUse)
      ensures !overflow ==> WorkSize(q.contents) < old(WorkSize(q.contents)) + Size(t)
      ensures !overflow ==> Grown(old(Now(q.contents)), Vars(t), Now(q.contents))
    {
      ghost var a, car, cdr := Now(q.contents), Meant(build, t.car, false), Meant(build, t.cdr, true);
      q.ResetAdded();
      assert [car, cdr] == [car] + [cdr] && [cdr] == [cdr] + [];
      EachHasSize(q.contents);
      overflow := GenInst(build, t.car, false, q, goal, rest, [cdr]);
      if overflow { return; }
      ghost var b := Now(q.contents);
      EachHasSize(q.contents);
      overflow := GenInst(build, t.cdr, true, q, goal, rest, []);
      if !overflow { GrownOn(a, Vars(t.car), b, Vars(t.cdr), Now(q.contents)); }
    }

    /** Any other list. */
    method TakeList(build: bool, x: Work, q: InstQueue<Work>, ghost goal: Goal, ghost rest: seq<Work>) returns (overflow: bool)
      requires build <==> goal.built != []
      requires reg.Valid() && q.Valid() && Compounds(q.contents) && x.t.List?
      requires Sound(goal, code, Owes(build, q.contents, [MeantWork(build, x)] + rest, []), reg.inUse)
      modifies this`code, this`frozen, reg, reg.RegArray, q, q.items
      ensures overflow ==> Crowded(old(Load(reg.inUse, q.contents)) + Size(x.t) - 1, old(WorkSize(q.contents)) + Size(x.t))
      ensures !overflow ==> Load(reg.inUse, q.contents) <= old(Load(reg.inUse, q.contents)) + Size(x.t) - 1
      ensures !overflow ==> reg.Valid() && q.Valid() && 0 <= q.added <= |q.contents| && Compounds(q.contents)
      ensures !overflow ==> Sound(goal, code, Owes(build, q.contents, rest, []), reg.inUse)
      ensures !overflow ==> WorkSize(q.contents) < old(WorkSize(q.contents)) + Size(x.t)
      ensures !overflow ==> Grown(old(Now(q.contents)), Vars(x.t), Now(q.contents))
    {
      ghost var a, y, w := Now(q.contents), MeantWork(build, x), Owing(build, q.contents);
      assert w + ([y] + rest) == w + [y] + rest;
      GotList(goal, code, Owes(build, q.contents, [y] + rest, []), Owes(build, q.contents, rest, [y.t.car, y.t.cdr]), reg.inUse, w, y, rest);
      MeantParts(build, x.t);
      code := code + [GetList(x.r)];
      reg.Release(x.r);
      GrownReleased(a, x.r);
      ghost var b := Now(q.contents);
      overflow := GenListParts(build, x.t, q, goal, rest);
      if !overflow { GrownOn(a, {}, b, Vars(x.t), Now(q.contents)); }
    }

    /** The first i arguments of a structure have been dealt with; load and work bound what all of them may cost. */
    ghost predicate AtArgument(build: bool, args: seq<Term>, i: nat, q: InstQueue<Work>, goal: Goal, rest: seq<Work>, a: Stage, load: int, work: int)
      reads this, reg, reg.RegArray, q, q.items
    {
      && i <= |args| && reg.Valid() && q.Valid() && 0 <= q.added <= |q.contents| && Compounds(q.contents)
      && Sound(goal, code, Owes(build, q.contents, rest, MeantArgs(build, args)[i..]), reg.inUse)
      && GrownTo(a, args, i, Now(q.contents))
      && Load(reg.inUse, q.contents) + SizeAll(args[i..]) <= load && WorkSize(q.contents) + SizeAll(args[i..]) <= work
    }

    method GenArg(build: bool, args: seq<Term>, i: nat, q: InstQueue<Work>, ghost goal: Goal, ghost rest: seq<Work>, ghost a: Stage, ghost load: int, ghost work: int)
      returns (overflow: bool)
      requires build <==> goal.built != []
      requires i < |args| && AtArgument(build, args, i, q, goal, rest, a, load, work)
      modifies this`code, this`frozen, reg, reg.RegArray, q, q.items
      ensures overflow ==> Crowded(load, work)
      ensures !overflow ==> AtArgument(build, args, i + 1, q, goal, rest, a, load, work)
    {
      ghost var b, meant := Now(q.contents), MeantArgs(build, args);
      NextOf(meant, i);
      EachHasSize(q.contents);
      SizeNext(args, i);
      overflow := GenInst(build, args[i], i == |args| - 1, q, goal, rest, meant[i + 1..]);
      if !overflow { ArgumentDone(a, args, i, b, Now(q.contents)); }
    }

    method GenArgs(build: bool, args: seq<Term>, q: InstQueue<Work>, ghost goal: Goal, ghost rest: seq<Work>) returns (overflow: bool)
      requires build <==> goal.built != []
      requires reg.Valid() && q.Valid() && 0 <= q.added <= |q.contents| && Compounds(q.contents)
      requires Sound(goal, code, Owes(build, q.contents, rest, MeantArgs(build, args)), reg.inUse)
      modifies this`code, this`frozen, reg, reg.RegArray, q, q.items
      ensures overflow ==> Crowded(old(Load(reg.inUse, q.contents)) + SizeAll(args), old(WorkSize(q.contents)) + SizeAll(args))
      ensures !overflow ==> Load(reg.inUse, q.contents) <= old(Load(reg.inUse, q.contents)) + SizeAll(args)
      ensures !overflow ==> reg.Valid() && q.Valid() && 0 <= q.added <= |q.contents| && Compounds(q.contents)
      ensures !overflow ==> Sound(goal, code, Owes(build, q.contents, rest, []), reg.inUse)
      ensures !overflow ==> WorkSize(q.contents) <= old(WorkSize(q.contents)) + SizeAll(args)
      ensures !overflow ==> Grown(old(Now(q.contents)), VarsAll(args), Now(q.contents))
    {
      var i := 0;
      overflow := false;
      ghost var a := Now(q.contents);
      ghost var load, work := Load(reg.inUse, q.contents) + SizeAll(args), WorkSize(q.contents) + SizeAll(args);
      GrownNone(a, {});
      ArgumentsStart(a, args);
      while i < |args|
        invariant 0 <= i <= |args| && AtArgument(build, args, i, q, goal, rest, a, load, work)
      {
        overflow := GenArg(build, args, i, q, goal, rest, a, load, work);
        if overflow { return; }
        i := i + 1;
      }
      ArgumentsDone(a, args, i, Now(q.contents));
      NoMore(MeantArgs(build, args), i);
    }

    method TakeStr(build: bool, x: Work, q: InstQueue<Work>, ghost goal: Goal, ghost rest: seq<Work>) returns (overflow: bool)
      requires build <==> goal.built != []
      requires reg.Valid() && q.Valid() && Compounds(q.contents) && x.t.Str?
      requires Sound(goal, code, Owes(build, q.contents, [MeantWork(build, x)] + rest, []), reg.inUse)
      modifies this`code, this`frozen, reg, reg.RegArray, q, q.items
      ensures overflow ==> Crowded(old(Load(reg.inUse, q.contents)) + Size(x.t) - 1, old(WorkSize(q.contents)) + Size(x.t))
      ensures !overflow ==> Load(reg.inUse, q.contents) <= old(Load(reg.inUse, q.contents)) + Size(x.t) - 1
      ensures !overflow ==> reg.Valid() && q.Valid() && 0 <= q.added <= |q.contents| && Compounds(q.contents)
      ensures !overflow ==> Sound(goal, code, Owes(build, q.contents, rest, []), reg.inUse)
      ensures !overflow ==> WorkSize(q.contents) < old(WorkSize(q.contents)) + Size(x.t)
      ensures !overflow ==> Grown(old(Now(q.contents)), Vars(x.t), Now(q.contents))
    {
      ghost var a, y, w := Now(q.contents), MeantWork(build, x), Owing(build, q.contents);
      assert w + ([y] + rest) == w + [y] + rest;
      GotStr(goal, code, Owes(build, q.contents, [y] + rest, []), Owes(build, q.contents, rest, y.t.args), reg.inUse, w, y, rest);
      MeantParts(build, x.t);
      code := code + [GetStr(x.r, x.t.functor, |x.t.args|)];
      reg.Release(x.r);
      GrownReleased(a, x.r);
      q.ResetAdded();
      ghost var b := Now(q.contents);
      overflow := GenArgs(build, x.t.args, q, goal, rest);
      if !overflow { GrownOn(a, {}, b, Vars(x.t), Now(q.contents)); }
    }

    /** Moves the newly added work to the top, keeping its order. */
    method RotateAdded(ghost build: bool, q: InstQueue<Work>, ghost goal: Goal, ghost rest: seq<Work>)
      requires q.Valid() && 0 <= q.added <= |q.contents| && Compounds(q.contents)
      requires Sound(goal, code, Owes(build, q.contents, rest, []), reg.inUse)
      modifies q, q.items
      ensures q.Valid() && Compounds(q.contents) && WorkSize(q.contents) == old(WorkSize(q.contents)) && |q.contents| == |old(q.contents)|
      ensures Sound(goal, code, Owes(build, q.contents, rest, []), reg.inUse)
      ensures Grown(old(Now(q.contents)), {}, Now(q.contents))
    {
      Reordered(goal, code, Owes(build, q.contents, rest, []), reg.inUse, Owing(build, q.contents), q.added, rest);
      assert Owing(build, Rotated(q.contents, q.added)) == Rotated(Owing(build, q.contents), q.added);
      WorkSizeRotated(q.contents, q.added);
      GrownRotated(Now(q.contents), q.added);
      q.Rotate();
    }

    /** A compound term that takes more than one instruction. */
    method TakeCompound(build: bool, x: Work, q: InstQueue<Work>, ghost goal: Goal, ghost rest: seq<Work>) returns (overflow: bool)
      requires build <==> goal.built != []
      requires reg.Valid() && q.Valid() && Compounds(q.contents) && (x.t.List? || x.t.Str?)
      requires Sound(goal, code, Owes(build, q.contents, [MeantWork(build, x)] + rest, []), reg.inUse)
      modifies this`code, this`frozen, reg, reg.RegArray, q, q.items
      ensures overflow ==> Crowded(old(Load(reg.inUse, q.contents)) + Size(x.t) - 1, old(WorkSize(q.contents)) + Size(x.t))
      ensures !overflow ==> Load(reg.inUse, q.contents) <= old(Load(reg.inUse, q.contents)) + Size(x.t) - 1
      ensures !overflow ==> reg.Valid() && q.Valid() && Compounds(q.contents)
      ensures !overflow ==> Sound(goal, code, Owes(build, q.contents, rest, []), reg.inUse)
      ensures !overflow ==> WorkSize(q.contents) < old(WorkSize(q.contents)) + Size(x.t)
      ensures !overflow ==> Grown(old(Now(q.contents)), Vars(x.t), Now(q.contents))
    {
      ghost var a := Now(q.contents);
      if x.t.List? {
        overflow := TakeList(build, x, q, goal, rest);
      } else {
        overflow := TakeStr(build, x, q, goal, rest);
      }
      if overflow { return; }
      ghost var b := Now(q.contents);
      RotateAdded(build, q, goal, rest);
      GrownSame(a, Vars(x.t), b, Now(q.contents));
    }

    /** The work item just popped off the queue. */
    method GenTerm(build: bool, x: Work, q: InstQueue<Work>, ghost goal: Goal, ghost rest: seq<Work>) returns (overflow: bool)
      requires build <==> goal.built != []
      requires reg.Valid() && q.Valid() && Compounds(q.contents) && (x.t.List? || x.t.Str?)
      requires Sound(goal, code, Owes(build, q.contents, [MeantWork(build, x)] + rest, []), reg.inUse)
      modifies this`code, this`frozen, reg, reg.RegArray, q, q.items
      ensures overflow ==> Crowded(old(Load(reg.inUse, q.contents)) + Size(x.t) - 1, old(WorkSize(q.contents)) + Size(x.t))
      ensures !overflow ==> Load(reg.inUse, q.contents) <= old(Load(reg.inUse, q.contents)) + Size(x.t) - 1
      ensures !overflow ==> reg.Valid() && q.Valid() && Compounds(q.contents)
      ensures !overflow ==> Sound(goal, code, Owes(build, q.contents, rest, []), reg.inUse)
      ensures !overflow ==> WorkSize(q.contents) < old(WorkSize(q.contents)) + Size(x.t)
      ensures !overflow ==> Grown(old(Now(q.contents)), Vars(x.t), Now(q.contents))
    {
      if !build && x.t.List? && x.t.car.Var? && x.t.cdr.Var? && x.t.car != x.t.cdr && x.t.car.v !in frozen && x.t.cdr.v !in frozen {
        EachHasSize(q.contents);
        assert Size(x.t) == 3;
        ghost var w := Owing(build, q.contents);
        assert MeantWork(build, x) == x && w + ([x] + rest) == w + [x] + rest;
        overflow := TakeTwoVariables(x, q.contents, goal, w, rest);
      } else {
        overflow := TakeCompound(build, x, q, goal, rest);
      }
    }

    method GenTerms(build: bool, q: InstQueue<Work>, ghost goal: Goal, ghost rest: seq<Work>) returns (overflow: bool)
      requires build <==> goal.built != []
      requires reg.Valid() && q.Valid() && Compounds(q.contents)
      requires Sound(goal, code, Owes(build, q.contents, rest, []), reg.inUse)
      modifies this`code, this`frozen, reg, reg.RegArray, q, q.items
      ensures overflow ==> Crowded(old(Load(reg.inUse, q.contents)), old(WorkSize(q.contents)))
      ensures !overflow ==> |reg.inUse| <= old(Load(reg.inUse, q.contents))
      ensures !overflow ==> reg.Valid() && Sound(goal, code, Debt(rest, []), reg.inUse)
      ensures !overflow ==> Grown(old(Now(q.contents)), {}, Now([]))
    {
      var empty := q.Empty();
      overflow := false;
      ghost var a := Now(q.contents);
      GrownNone(a, {});
      while !empty
        invariant reg.Valid() && q.Valid() && Compounds(q.contents)
        invariant Sound(goal, code, Owes(build, q.contents, rest, []), reg.inUse)
        invariant empty <==> q.contents == []
        invariant Load(reg.inUse, q.contents) <= old(Load(reg.inUse, q.contents)) && WorkSize(q.contents) <= old(WorkSize(q.contents))
        invariant Grown(a, {}, Now(q.contents))
        decreases WorkSize(q.contents)
      {
        ghost var was, b := q.contents, Now(q.contents);
        var x := q.Pop();
        Popped(build, was, q.contents, x, rest);
        overflow := GenTerm(build, x, q, goal, rest);
        if overflow { return; }
        GrownPopped(Stage(b.frozen, was[..|was| - 1], b.inUse), x, Now(q.contents));
        GrownSame(a, {}, b, Now(q.contents));
        empty := q.Empty();
      }
      assert Owing(build, q.contents) + rest == rest;
    }

    /** A compound argument of the head. */
    method GenCompound(t: Term, argno: int, ghost goal: Goal, ghost rest: seq<Work>) returns (overflow: bool)
      requires goal.built == []
      requires reg.Valid() && (t.List? || t.Str?)
      requires Sound(goal, code, Debt([Work(argno, t)] + rest, []), reg.inUse)
      modifies this`code, this`frozen, reg, reg.RegArray
      ensures overflow ==> Crowded(|old(reg.inUse)| + Size(t) - 1, Size(t))
      ensures !overflow ==> |reg.inUse| <= |old(reg.inUse)| + Size(t) - 1
      ensures !overflow ==> reg.Valid() && Sound(goal, code, Debt(rest, []), reg.inUse)
      ensures !overflow ==> Grown(old(Now([])), Vars(t), Now([]))
    {
      var q := new InstQueue<Work>();
      overflow := q.Push(Work(argno, t));
      assert q.contents == [Work(argno, t)];
      assert Owing(false, q.contents) == [Work(argno, t)];
      WorkSizeOne([], Work(argno, t));
      ghost var a := Now([]);
      overflow := GenTerms(false, q, goal, rest);
      if !overflow { GrownAlone(a, Work(argno, t), Now([])); }
    }

    /** One argument of the head; a variable met first as an argument stays in the argument's register. */
    method GenTopInst(t: Term, argno: int, ghost goal: Goal, ghost rest: seq<Work>) returns (overflow: bool)
      requires goal.built == []
      requires reg.Valid() && 0 <= argno <= reg.size
      requires Sound(goal, code, Debt([Work(argno, t)] + rest, []), reg.inUse)
      modifies this`code, this`frozen, reg, reg.RegArray
      ensures overflow ==> Crowded(|old(reg.inUse)| + Size(t) - 1, Size(t))
      ensures !overflow ==> |reg.inUse| <= |old(reg.inUse)| + Size(t) - 1
      ensures !overflow ==> reg.Valid() && Sound(goal, code, Debt(rest, []), reg.inUse)
      ensures !overflow ==> if t.Var? && t.v !in old(frozen) then frozen == old(frozen)[t.v := argno] && reg.inUse == old(reg.inUse)
                            else Grown(old(Now([])), Vars(t), Now([]))
    {
      overflow := false;
      reg.ArgumentsStay(argno);
      ghost var x := Work(argno, t);
      ghost var o, o', a := Debt([x] + rest, []), Debt(rest, []), Now([]);
      assert o.work == [] + [x] + rest && [] + rest == rest;
      match t
      case Var(v) =>
        if v !in frozen {
          GotVariable(goal, code, o, o'.(frozen := frozen[v := argno]), reg.inUse, [], x, rest);
          frozen := frozen[v := argno];
        } else {
          GotValue(goal, code, o, o', reg.inUse, [], x, rest);
          code := code + [GetTVal(frozen[v], argno)];
          GrownNone(a, Vars(t));
        }
      case List(_, _) =>
        overflow := GenCompound(t, argno, goal, rest);
      case Str(_, _) =>
        overflow := GenCompound(t, argno, goal, rest);
      case _ =>
        GotConstant(goal, code, o, o', reg.inUse, [], x, rest);
        code := code + [GetConstant(t, argno)];
        GrownNone(a, Vars(t));
    }

    /** The cells of a compound term, written after its first instruction. */
    method GenParts(t: Term, q: InstQueue<Work>, ghost goal: Goal) returns (overflow: bool)
      requires goal.built != [] && reg.Valid() && q.Valid() && q.contents == [] && (t.List? || t.Str?)
      requires Sound(goal, code, Debt([], Parts(Made(t, false))), reg.inUse)
      modifies this`code, this`frozen, reg, reg.RegArray, q, q.items
      ensures overflow ==> Crowded(|old(reg.inUse)| + Size(t) - 1, Size(t))
      ensures !overflow ==> Load(reg.inUse, q.contents) <= |old(reg.inUse)| + Size(t) - 1 && WorkSize(q.contents) < Size(t)
      ensures !overflow ==> reg.Valid() && q.Valid() && 0 <= q.added <= |q.contents| && Compounds(q.contents)
      ensures !overflow ==> Sound(goal, code, Owes(true, q.contents, [], []), reg.inUse)
      ensures !overflow ==> Grown(old(Now([])), Vars(t), Now(q.contents))
    {
      assert Owing(true, q.contents) + [] == [];
      MeantParts(true, t);
      if t.List? {
        overflow := GenListParts(true, t, q, goal, []);
      } else {
        q.ResetAdded();
        overflow := GenArgs(true, t.args, q, goal, []);
      }
    }

    /** These cells, and all that they put off. */
    method GenCells(t: Term, q: InstQueue<Work>, ghost goal: Goal) returns (overflow: bool)
      requires goal.built != [] && reg.Valid() && q.Valid() && q.contents == [] && (t.List? || t.Str?)
      requires Sound(goal, code, Debt([], Parts(Made(t, false))), reg.inUse)
      modifies this`code, this`frozen, reg, reg.RegArray, q, q.items
      ensures overflow ==> Crowded(|old(reg.inUse)| + Size(t) - 1, Size(t))
      ensures !overflow ==> |reg.inUse| <= |old(reg.inUse)| + Size(t) - 1
      ensures !overflow ==> reg.Valid() && Sound(goal, code, Debt([], []), reg.inUse)
      ensures !overflow ==> Grown(old(Now([])), Vars(t), Now([]))
    {
      ghost var a := Now([]);
      overflow := GenParts(t, q, goal);
      if overflow { return; }
      ghost var b := Now(q.contents);
      RotateAdded(true, q, goal, []);
      ghost var c := Now(q.contents);
      overflow := GenTerms(true, q, goal, []);
      if overflow { return; }
      GrownSame(a, Vars(t), b, c);
      GrownSame(a, Vars(t), c, Now([]));
    }

    /** Builds a compound argument of the body in register rt, as far as cut integers allow. */
    method GenBuild(t: Term, rt: int, ghost goal: Goal) returns (overflow: bool)
      requires reg.Valid() && (t.List? || t.Str?) && rt in reg.inUse && reg.inUse[rt] == RVAR
      requires Sound(goal, code, Debt([], []), reg.inUse) && Unneeded(Debt([], []), rt) && |goal.built| !in kept
      modifies this`code, this`frozen, this`kept, reg, reg.RegArray
      ensures overflow ==> Crowded(|old(reg.inUse)| + Size(t) - 1, Size(t))
      ensures !overflow ==> |reg.inUse| <= |old(reg.inUse)| + Size(t) - 1
      ensures kept == old(kept)[|goal.built| := rt]
      ensures !overflow ==> reg.Valid() && Sound(goal.(built := goal.built + [Made(t, false)]), code, Debt([], []), reg.inUse)
      ensures !overflow ==> Grown(old(Now([])), Vars(t), Now([]))
    {
      var q := new InstQueue<Work>();
      overflow := q.Push(Work(rt, t));
      var x := q.Pop();
      assert q.contents == [];
      Putting(goal, code, Debt([], []), reg.inUse, Made(t, false), rt);
      code := code + [PutCode(t, rt)];
      kept := kept[|goal.built| := rt];
      reg.Release(rt);
      overflow := GenCells(t, q, goal.(built := goal.built + [Made(t, false)]));
    }

    /** A variable that first occurs as an argument of the body. */
    method GenNewVariable(v: nat, ghost goal: Goal) returns (rt: int, overflow: bool)
      requires reg.Valid() && v !in frozen && |goal.built| !in kept && Sound(goal, code, Debt([], []), reg.inUse)
      modifies this`code, this`frozen, this`kept, reg, reg.RegArray
      ensures overflow ==> |old(reg.inUse)| >= MAX_REGS - 1
      ensures !overflow ==> |reg.inUse| == |old(reg.inUse)| + 1 && frozen == old(frozen)[v := rt] && kept == old(kept)[|goal.built| := rt]
      ensures !overflow ==> reg.Valid() && Sound(goal.(built := goal.built + [Var(v)]), code, Debt([], []), reg.inUse)
      ensures !overflow ==> Grown(old(Now([])), {v}, Now([]))
    {
      ghost var o, a := Debt([], []), Now([]);
      rt, overflow := reg.Get(RVAR);
      if overflow { return; }
      NewIsUnneeded(goal, code, o, a.inUse, rt);
      Putting(goal, code, o, reg.inUse, Var(v), rt);
      GrownVariable(a, v, rt);
      frozen := frozen[v := rt];
      kept := kept[|goal.built| := rt];
      code := code + [PutTVar(rt)];
    }
  }

  lemma OwingMore(build: bool, x: Work, q: seq<Work>, rest: seq<Work>)
    requires Compounds(q) && (x.t.List? || x.t.Str?)
    ensures Compounds([x] + q) && [MeantWork(build, x)] + (Owing(build, q) + rest) == Owing(build, [x] + q) + rest
  {
  }

  lemma NextOf(ts: seq<Term>, i: nat)
    requires i < |ts|
    ensures ts[i..] == [ts[i]] + ts[i + 1..]
  {
  }

  lemma NoMore(ts: seq<Term>, i: nat)
    requires i == |ts|
    ensures ts[..i] == ts && ts[i..] == []
  {
  }

  /** The first i arguments have been dealt with. */
  ghost predicate GrownTo(a: Stage, args: seq<Term>, i: nat, b: Stage) {
    forall k {:trigger Open(k)} :: Open(k) ==> i <= |args| && Grown(a, VarsAll(args[..i]), b)
  }

  lemma ArgumentsStart(a: Stage, args: seq<Term>)
    requires Grown(a, {}, a)
    ensures GrownTo(a, args, 0, a)
  {
  }

  lemma ArgumentDone(a: Stage, args: seq<Term>, i: nat, b: Stage, c: Stage)
    requires i < |args| && GrownTo(a, args, i, b) && Grown(b, Vars(args[i]), c)
    ensures GrownTo(a, args, i + 1, c)
  {
    assert Open(0);
    assert args[..i + 1] == args[..i] + [args[i]];
    VarsSnoc(args[..i], args[i]);
    GrownOn(a, VarsAll(args[..i]), b, Vars(args[i]), c);
  }

  lemma ArgumentsDone(a: Stage, args: seq<Term>, i: nat, b: Stage)
    requires i == |args| && GrownTo(a, args, i, b)
    ensures Grown(a, VarsAll(args), b)
  {
    assert Open(0);
    assert args[..i] == args;
  }

  lemma GrownTwo(a: Stage, x: Work, r1: int, r2: int)
    requires x.t.List? && x.t.car.Var? && x.t.cdr.Var? && x.t.car != x.t.cdr && x.t.car.v !in a.frozen && x.t.cdr.v !in a.frozen
    requires r1 !in a.inUse && r2 !in a.inUse && r1 != r2
    ensures Grown(a, Vars(x.t), Stage(a.frozen[x.t.car.v := r1][x.t.cdr.v := r2], a.q, AfterRelease(a.inUse[r1 := RVAR][r2 := RVAR], x.r)))
  {
    var b := Stage(a.frozen[x.t.car.v := r1], a.q, a.inUse[r1 := RVAR]);
    var c := Stage(b.frozen[x.t.cdr.v := r2], a.q, b.inUse[r2 := RVAR]);
    GrownVariable(a, x.t.car.v, r1);
    GrownVariable(b, x.t.cdr.v, r2);
    GrownOn(a, {x.t.car.v}, b, {x.t.cdr.v}, c);
    assert {x.t.car.v} + {x.t.cdr.v} == Vars(x.t);
    GrownReleased(c, x.r);
    GrownSame(a, Vars(x.t), c, Stage(c.frozen, c.q, AfterRelease(c.inUse, x.r)));
  }

  lemma Popped(build: bool, was: seq<Work>, q: seq<Work>, x: Work, rest: seq<Work>)
    requires was == q + [x] && Compounds(was)
    ensures Compounds(q) && (x.t.List? || x.t.Str?) && q == was[..|was| - 1] && WorkSize(was) == WorkSize(q) + Size(x.t)
    ensures Owing(build, was) + rest == Owing(build, q) + ([MeantWork(build, x)] + rest)
  {
    assert x == was[|was| - 1] && forall y :: y in q ==> y in was;
    WorkSizeOne(q, x);
  }

  lemma GrownAlone(a: Stage, x: Work, b: Stage)
    requires a.q == [] && Grown(Stage(a.frozen, [x], a.inUse), {}, b)
    ensures Grown(a, Vars(x.t), b)
  {
    assert Open(0);
    assert [x][0] == x;
    assert forall v :: v in WorkVars([x]) <==> v in Vars(x.t);
  }

  lemma {:induction false} SizeAtLeast(ts: seq<Term>)
    ensures |ts| <= SizeAll(ts)
  {
    if ts != [] { SizeAtLeast(ts[1..]); }
  }

  lemma SizeNext(args: seq<Term>, i: nat)
    requires i < |args|
    ensures SizeAll(args[i..]) == Size(args[i]) + SizeAll(args[i + 1..])
  {
    assert args[i..][1..] == args[i + 1..];
  }

  /** A register just taken is needed for nothing, and taking it changes nothing for the others. */
  lemma NewIsUnneeded(goal: Goal, code: seq<Instr>, o: Owed, inUse: map<int, int>, r: int)
    requires Sound(goal, code, o, inUse) && r !in inUse
    ensures Unneeded(o, r) && Sound(goal, code, o, inUse[r := RVAR])
  {
    assert Open(0);
    NewRegister(o, inUse, r);
  }

  lemma Putting(goal: Goal, code: seq<Instr>, o: Owed, inUse: map<int, int>, t: Term, r: int)
    requires Sound(goal, code, o, inUse) && o.work == [] && o.subs == [] && Unneeded(o, r) && |goal.built| !in o.kept
    requires (t.Var? && t.v !in o.frozen) || t.List? || t.Str?
    requires r in inUse && inUse[r] == RVAR
    ensures Sound(goal.(built := goal.built + [t]), code + [PutCode(t, r)], Begun(o, t, r, |goal.built|), inUse)
  {
    assert Open(0);
    PayPut(goal, code, o, t, r);
  }

  // ----- a whole head -----

  /** The arguments still to come. */
  ghost function Arguments(head: seq<Term>, i: int): seq<Work>
    requires 0 <= i <= |head|
  {
    seq(|head| - i, k requires 0 <= k < |head| - i => Work(i + k + 1, head[i + k]))
  }

  lemma NextArgument(head: seq<Term>, i: int)
    requires 0 <= i < |head|
    ensures Arguments(head, i) == [Work(i + 1, head[i])] + Arguments(head, i + 1)
  {
    var all, next := Arguments(head, i), Arguments(head, i + 1);
    forall k | 0 < k < |all|
      ensures all[k] == next[k - 1]
    {
    }
  }

  /**
   The code is defined and decides, for these inputs, whether they solve the clause's equations; a substitution
   solves them exactly when it agrees with the final registers of the clause's variables; and
   the registers of the built arguments hold their values.
   */
  ghost predicate Decides(goal: Goal, code: seq<Instr>, frozen: map<nat, int>, kept: map<nat, int>, input: Input) {
    && !Run(code, input).Undefined? && (Run(code, input).Ok? <==> exists s :: Matches(s, goal, input))
    && (Run(code, input).Ok? ==>
          forall s :: Matches(s, goal, input) <==> Agrees(s, frozen, Run(code, input).m.regs))
    && (Run(code, input).Ok? ==> forall k :: k in kept ==> Run(code, input).m.regs(kept[k]) == input.hope(k))
  }

  ghost predicate Agrees(s: nat -> Ground, frozen: map<nat, int>, regs: int -> Ground) {
    forall v :: v in frozen ==> s(v) == regs(frozen[v])
  }

  lemma NothingOwed(goal: Goal, code: seq<Instr>, frozen: map<nat, int>, kept: map<nat, int>, inUse: map<int, int>, input: Input)
    requires Sound(goal, code, Owed(frozen, [], [], kept), inUse)
    ensures Decides(goal, code, frozen, kept, input)
  {
    assert Open(0);
    var o := Owed(frozen, [], [], kept);
    assert Done(goal, code, o, input);
    if Run(code, input).Ok? {
      var m := Run(code, input).m;
      forall s
        ensures Matches(s, goal, input) <==> Agrees(s, frozen, m.regs)
      {
        assert Matches(s, goal, input) <==> Settles(s, o, m);
      }
      var s := (v: nat) => if v in frozen then m.regs(frozen[v]) else GNil;
      assert Agrees(s, frozen, m.regs) && Matches(s, goal, input);
    }
  }

  /** The number of the argument that is the variable's first occurrence in the head; 0 if it first occurs elsewhere. */
  function Home(head: seq<Term>, v: nat): (r: nat)
    ensures r <= |head| && (r > 0 ==> head[r - 1] == Var(v) && v in VarsAll(head))
  {
    if head == [] then 0
    else
      var init, last := head[..|head| - 1], head[|head| - 1];
      assert head == init + [last];
      assert VarsAll(head) == VarsAll(init) + Vars(last) by { VarsSnoc(init, last); }
      if v in VarsAll(init) then Home(init, v) else if last == Var(v) then |head| else 0
  }

  /** A variable that first occurs as a head argument stays in the argument's register, any other has one of its own. */
  ghost predicate HomesRight(head: seq<Term>, frozen: map<nat, int>, inUse: map<int, int>) {
    forall k {:trigger Open(k)} :: Open(k) ==>
      && (forall v :: v in VarsAll(head) ==> v in frozen)
      && (forall v :: v in frozen ==>
            if Home(head, v) > 0 then frozen[v] == Home(head, v) else frozen[v] in inUse && inUse[frozen[v]] == RVAR)
  }

  ghost predicate OnlyOf(head: seq<Term>, frozen: map<nat, int>) {
    forall k {:trigger Open(k)} :: Open(k) ==> forall v :: v in frozen ==> v in VarsAll(head)
  }

  lemma HomeNext(head: seq<Term>, i: nat, v: nat)
    requires i < |head|
    ensures Home(head[..i + 1], v) == if v in VarsAll(head[..i]) then Home(head[..i], v) else if head[i] == Var(v) then i + 1 else 0
  {
    var init, more := head[..i], head[..i + 1];
    assert more == init + [head[i]] && more[..|more| - 1] == init;
  }

  lemma HomesNext(head: seq<Term>, i: nat, a: Stage, b: Stage)
    requires i < |head| && a.q == [] == b.q && HomesRight(head[..i], a.frozen, a.inUse) && OnlyOf(head[..i], a.frozen)
    requires var t := head[i];
      if t.Var? && t.v !in a.frozen then b.frozen == a.frozen[t.v := i + 1] && b.inUse == a.inUse else Grown(a, Vars(t), b)
    ensures HomesRight(head[..i + 1], b.frozen, b.inUse) && OnlyOf(head[..i + 1], b.frozen)
  {
    assert Open(0);
    var t, init, more := head[i], head[..i], head[..i + 1];
    assert VarsAll(more) == VarsAll(init) + Vars(t) by {
      assert more == init + [t];
      VarsSnoc(init, t);
    }
    assert forall v :: v in b.frozen <==> v in a.frozen || v in Vars(t);
    forall v | v in b.frozen
      ensures if Home(more, v) > 0 then b.frozen[v] == Home(more, v) else b.frozen[v] in b.inUse && b.inUse[b.frozen[v]] == RVAR
    {
      HomeNext(head, i, v);
      assert v in VarsAll(init) <==> v in a.frozen;
    }
  }

  /** Building the body leaves the variables of the head where they are. */
  lemma HomesStay(head: seq<Term>, a: Stage, vars: set<nat>, b: Stage)
    requires HomesRight(head, a.frozen, a.inUse) && Grown(a, vars, b)
    ensures HomesRight(head, b.frozen, b.inUse)
  {
    assert Open(0);
  }

  /** Compiles all arguments of a head, with a compiler that has done nothing yet. */
  method GenHead(c: Compiler, head: seq<Term>) returns (overflow: bool)
    requires c.reg.Valid() && |head| <= c.reg.size && c.code == [] && c.frozen == map[] && c.kept == map[]
    modifies c`code, c`frozen, c.reg, c.reg.RegArray
    ensures !overflow ==> c.reg.Valid() && Sound(Goal(head, []), c.code, c.Debt([], []), c.reg.inUse)
    ensures !overflow ==> |c.reg.inUse| <= |old(c.reg.inUse)| + SizeAll(head) - |head|
    ensures !overflow ==> HomesRight(head, c.frozen, c.reg.inUse)
    ensures overflow ==> Crowded(|old(c.reg.inUse)| + SizeAll(head) - |head|, SizeAll(head))
  {
    overflow := false;
    ghost var goal, all := Goal(head, []), Arguments(head, 0);
    forall i | 0 <= i < |head|
      ensures all[i].r in c.reg.inUse
    {
      c.reg.ArgumentsStay(i + 1);
    }
    SoundStart(goal, c.Debt(all, []), c.reg.inUse);
    var i := 0;
    while i < |head|
      invariant 0 <= i <= |head| && c.reg.Valid()
      invariant Sound(goal, c.code, c.Debt(Arguments(head, i), []), c.reg.inUse)
      invariant |c.reg.inUse| + SizeAll(head[i..]) - (|head| - i) <= |old(c.reg.inUse)| + SizeAll(head) - |head|
      invariant SizeAll(head[i..]) <= SizeAll(head)
      invariant HomesRight(head[..i], c.frozen, c.reg.inUse) && OnlyOf(head[..i], c.frozen)
    {
      ghost var a := c.Now([]);
      SizeNext(head, i);
      SizeAtLeast(head[i + 1..]);
      NextArgument(head, i);
      overflow := c.GenTopInst(head[i], i + 1, goal, Arguments(head, i + 1));
      if overflow { return; }
      HomesNext(head, i, a, c.Now([]));
      i := i + 1;
    }
    assert Arguments(head, i) == [] && head[..i] == head;
  }

  /** Compiles the head of a fact; the code is right whatever the argument registers hold. */
  method CompileHead(head: seq<Term>) returns (overflow: bool, code: seq<Instr>, frozen: map<nat, int>)
    requires |head| + 1 < MAX_REGS
    ensures !overflow ==> forall input :: Decides(Goal(head, []), code, frozen, map[], input)
    ensures SizeAll(head) + 1 < INST_QUEUE_SIZE - 1 ==> !overflow
  {
    var c := new Compiler(|head|);
    overflow := GenHead(c, head);
    code, frozen := c.code, c.frozen;
    if overflow { return; }
    forall input
      ensures Decides(Goal(head, []), code, frozen, map[], input)
    {
      NothingOwed(Goal(head, []), code, frozen, map[], c.reg.inUse, input);
    }
  }
}
